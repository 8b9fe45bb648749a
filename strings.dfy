/**
 * String helpers shared by the page scripts: decimal digits, the
 * conversion of integers to text, substring tests, ASCII lower-casing,
 * trimming and the text content of a fragment of markup.
 */
module Strings {
  import opened Wrappers

  predicate IsDigit(c: char) {
    '0' <= c <= '9'
  }

  predicate AllDigits(s: string) {
    forall i :: 0 <= i < |s| ==> IsDigit(s[i])
  }

  function DigitValue(c: char): (d: nat)
    requires IsDigit(c)
    ensures d < 10
  {
    (c - '0') as nat
  }

  function DigitChar(d: nat): (c: char)
    requires d < 10
    ensures IsDigit(c) && DigitValue(c) == d
  {
    ('0' as int + d) as char
  }

  /** The number a run of decimal digits denotes, most significant first. */
  function DigitsValue(s: string): nat
    requires AllDigits(s)
  {
    if s == [] then 0 else DigitsValue(s[..|s| - 1]) * 10 + DigitValue(s[|s| - 1])
  }

  /** Decimal text of a natural number, as JavaScript's String(n) gives it. */
  function NatToString(n: nat): (s: string)
    ensures |s| >= 1 && AllDigits(s)
    ensures DigitsValue(s) == n
    ensures s[0] == '0' ==> n == 0
    decreases n
  {
    if n < 10 then [DigitChar(n)]
    else
      var prefix := NatToString(n / 10);
      var s := prefix + [DigitChar(n % 10)];
      assert s[..|s| - 1] == prefix;
      s
  }

  /** Decimal text of an integer, with a leading '-' when negative. */
  function IntToString(i: int): (s: string)
    ensures i >= 0 ==> s == NatToString(i)
    ensures i < 0 ==> s == "-" + NatToString(-i)
  {
    if i < 0 then "-" + NatToString(-i) else NatToString(i)
  }

  /** `s.includes(sub)`: some window of `s` equals `sub`. */
  function Contains(s: string, sub: string): bool
    decreases |s|
  {
    if |s| < |sub| then false
    else s[..|sub|] == sub || Contains(s[1..], sub)
  }

  /** The window of `s` at offset `i` spells `sub`. */
  ghost predicate OccursAt(s: string, sub: string, i: int) {
    0 <= i && i + |sub| <= |s| && s[i..i + |sub|] == sub
  }

  lemma {:induction false} ContainsIffOccurs(s: string, sub: string)
    ensures Contains(s, sub) <==> exists i :: OccursAt(s, sub, i)
    decreases |s|
  {
    if |s| < |sub| {
    } else if s[..|sub|] == sub {
      assert OccursAt(s, sub, 0);
    } else {
      ContainsIffOccurs(s[1..], sub);
      if Contains(s[1..], sub) {
        var i :| OccursAt(s[1..], sub, i);
        assert s[1..][i..i + |sub|] == s[i + 1..i + 1 + |sub|];
        assert OccursAt(s, sub, i + 1);
      } else {
        forall i | OccursAt(s, sub, i) ensures false {
          if i != 0 {
            assert s[1..][i - 1..i - 1 + |sub|] == s[i..i + |sub|];
            assert OccursAt(s[1..], sub, i - 1);
          }
        }
      }
    }
  }

  /** A window that spells `sub` makes `s` include it. */
  lemma ContainsAt(s: string, sub: string, i: nat)
    requires OccursAt(s, sub, i)
    ensures Contains(s, sub)
  {
    ContainsIffOccurs(s, sub);
  }

  /** A text built around `w` includes it. */
  lemma ContainsMiddle(a: string, w: string, b: string)
    ensures Contains(a + w + b, w)
  {
    var s := a + w + b;
    assert s[|a|..|a| + |w|] == w;
    ContainsAt(s, w, |a|);
  }

  /** Every string includes the empty string. */
  lemma ContainsEmpty(s: string)
    ensures Contains(s, "")
  {
    assert s[..0] == "";
  }

  /** If `s` includes `long` then it includes every window of `long`. */
  lemma ContainsWindow(s: string, long: string, j: nat, k: nat)
    requires j <= k <= |long|
    requires Contains(s, long)
    ensures Contains(s, long[j..k])
  {
    ContainsIffOccurs(s, long);
    var i :| OccursAt(s, long, i);
    var w := s[i + j..i + k];
    forall m | 0 <= m < k - j ensures w[m] == long[j..k][m] {
      assert s[i..i + |long|][j + m] == s[i + j + m];
    }
    assert w == long[j..k];
    assert OccursAt(s, long[j..k], i + j);
    ContainsIffOccurs(s, long[j..k]);
  }

  function LowerChar(c: char): (r: char)
    ensures 'A' <= c <= 'Z' ==> r as int == c as int + 32
    ensures !('A' <= c <= 'Z') ==> r == c
  {
    if 'A' <= c <= 'Z' then (c as int + 32) as char else c
  }

  /** `s.toLowerCase()` restricted to the ASCII letters. */
  function Lower(s: string): (r: string)
    ensures |r| == |s|
    ensures forall i :: 0 <= i < |s| ==> r[i] == LowerChar(s[i])
  {
    seq(|s|, i requires 0 <= i < |s| => LowerChar(s[i]))
  }

  /**
   * The characters `trim` and `parseInt` skip: the white space (tab,
   * vertical tab, form feed, space, no-break space, byte order mark and
   * the other space separators) and the line terminators of ECMAScript.
   */
  predicate IsSpace(c: char) {
    || c == '\t' || c == '\n' || c == '\U{000B}' || c == '\U{000C}' || c == '\r' || c == ' '
    || c == '\U{00A0}' || c == '\U{1680}' || '\U{2000}' <= c <= '\U{200A}'
    || c == '\U{2028}' || c == '\U{2029}' || c == '\U{202F}' || c == '\U{205F}' || c == '\U{3000}' || c == '\U{FEFF}'
  }

  function TrimStart(s: string): (r: string)
    ensures |r| <= |s|
    ensures r != [] ==> !IsSpace(r[0])
  {
    if s != [] && IsSpace(s[0]) then TrimStart(s[1..]) else s
  }

  function TrimEnd(s: string): (r: string)
    ensures |r| <= |s|
    ensures r != [] ==> !IsSpace(r[|r| - 1])
  {
    if s != [] && IsSpace(s[|s| - 1]) then TrimEnd(s[..|s| - 1]) else s
  }

  /** `TrimEnd` only drops characters from the end. */
  lemma {:induction false} TrimEndIsPrefix(s: string)
    ensures TrimEnd(s) == s[..|TrimEnd(s)|]
  {
    if s != [] && IsSpace(s[|s| - 1]) {
      var s' := s[..|s| - 1];
      TrimEndIsPrefix(s');
      assert s'[..|TrimEnd(s')|] == s[..|TrimEnd(s')|];
    }
  }

  /** `s.trim()`: no white space at either end. */
  function Trim(s: string): (r: string)
    ensures |r| <= |s|
    ensures r != [] ==> !IsSpace(r[0]) && !IsSpace(r[|r| - 1])
  {
    TrimEndIsPrefix(TrimStart(s));
    TrimEnd(TrimStart(s))
  }

  /** `TrimStart` only drops white space from the front. */
  lemma {:induction false} TrimStartIsSuffix(s: string)
    ensures TrimStart(s) == s[|s| - |TrimStart(s)|..]
    ensures forall k :: 0 <= k < |s| - |TrimStart(s)| ==> IsSpace(s[k])
  {
    if s != [] && IsSpace(s[0]) {
      var s' := s[1..];
      TrimStartIsSuffix(s');
      assert s'[|s'| - |TrimStart(s')|..] == s[|s| - |TrimStart(s')|..];
      forall k | 1 <= k < |s| - |TrimStart(s)|
        ensures IsSpace(s[k])
      {
        assert s[k] == s'[k - 1];
      }
    }
  }

  /** `TrimEnd` only drops white space from the end. */
  lemma {:induction false} TrimEndSpaces(s: string)
    ensures forall k :: |TrimEnd(s)| <= k < |s| ==> IsSpace(s[k])
  {
    if s != [] && IsSpace(s[|s| - 1]) {
      var s' := s[..|s| - 1];
      TrimEndSpaces(s');
      forall k | |TrimEnd(s)| <= k < |s| - 1
        ensures IsSpace(s[k])
      {
        assert s[k] == s'[k];
      }
    }
  }

  /**
   * `s.trim()` is the slice of `s` between two runs of white space, one
   * at each end; with `Trim`'s own contract the slice starts and ends
   * with a character that is not white space, so the runs are maximal.
   */
  lemma TrimDropsOnlySpace(s: string)
    ensures var i := |s| - |TrimStart(s)|;
            var j := i + |Trim(s)|;
            && j <= |s| && Trim(s) == s[i..j]
            && (forall k :: 0 <= k < i ==> IsSpace(s[k]))
            && (forall k :: j <= k < |s| ==> IsSpace(s[k]))
  {
    var t := TrimStart(s);
    var i := |s| - |t|;
    TrimStartIsSuffix(s);
    TrimEndIsPrefix(t);
    TrimEndSpaces(t);
    var j := i + |Trim(s)|;
    assert Trim(s) == t[..|Trim(s)|];
    assert t[..|Trim(s)|] == s[i..j];
    forall k | j <= k < |s|
      ensures IsSpace(s[k])
    {
      assert s[k] == t[k - i];
    }
  }

  predicate Blank(s: string) {
    forall i :: 0 <= i < |s| ==> IsSpace(s[i])
  }

  lemma {:induction false} TrimStartEmptyIffBlank(s: string)
    ensures TrimStart(s) == [] <==> Blank(s)
  {
    if s == [] {
    } else if IsSpace(s[0]) {
      assert TrimStart(s) == TrimStart(s[1..]);
      TrimStartEmptyIffBlank(s[1..]);
      BlankDropFirst(s);
    } else {
      assert TrimStart(s) == s;
      assert !Blank(s) by { assert !IsSpace(s[0]); }
    }
  }

  lemma BlankDropFirst(s: string)
    requires s != [] && IsSpace(s[0])
    ensures Blank(s) <==> Blank(s[1..])
  {
    if Blank(s[1..]) {
      forall i | 0 <= i < |s| ensures IsSpace(s[i]) {
        if i > 0 { assert s[i] == s[1..][i - 1]; }
      }
    }
  }

  lemma BlankDropLast(s: string)
    requires s != [] && IsSpace(s[|s| - 1])
    ensures Blank(s) <==> Blank(s[..|s| - 1])
  {
    if Blank(s[..|s| - 1]) {
      forall i | 0 <= i < |s| ensures IsSpace(s[i]) {
        if i < |s| - 1 { assert s[i] == s[..|s| - 1][i]; }
      }
    }
  }

  lemma {:induction false} TrimEndEmptyIffBlank(s: string)
    ensures TrimEnd(s) == [] <==> Blank(s)
  {
    if s == [] {
    } else if IsSpace(s[|s| - 1]) {
      assert TrimEnd(s) == TrimEnd(s[..|s| - 1]);
      TrimEndEmptyIffBlank(s[..|s| - 1]);
      BlankDropLast(s);
    } else {
      assert TrimEnd(s) == s;
      assert !Blank(s) by { assert !IsSpace(s[|s| - 1]); }
    }
  }

  /** `s.trim()` is empty exactly when `s` is made only of white space. */
  lemma TrimEmptyIffBlank(s: string)
    ensures Trim(s) == [] <==> Blank(s)
  {
    TrimStartEmptyIffBlank(s);
    var t := TrimStart(s);
    TrimEndEmptyIffBlank(t);
    if t != [] {
      assert !Blank(t) by { assert !IsSpace(t[0]); }
    }
  }

  /**
   * The text content of a fragment of markup: every character outside
   * a `<...>` tag. Character references are not decoded.
   */
  function StripTags(s: string): (r: string)
    ensures |r| <= |s|
    ensures '<' !in r
  {
    TextOutside(s, false)
  }

  function TextOutside(s: string, inTag: bool): (r: string)
    ensures |r| <= |s|
    ensures '<' !in r
  {
    if s == [] then []
    else if inTag then TextOutside(s[1..], s[0] != '>')
    else if s[0] == '<' then TextOutside(s[1..], true)
    else [s[0]] + TextOutside(s[1..], false)
  }

  /** Text without '<' is its own text content. */
  lemma {:induction false} StripTagsOfPlainText(s: string)
    requires '<' !in s
    ensures StripTags(s) == s
  {
    if s != [] {
      assert '<' !in s[1..] by {
        forall c | c in s[1..] ensures c != '<' { assert c in s; }
      }
      StripTagsOfPlainText(s[1..]);
    }
  }

  /** Length of the run of decimal digits that starts `s`. */
  function LeadingDigits(s: string): (n: nat)
    ensures n <= |s| && AllDigits(s[..n])
    ensures n < |s| ==> !IsDigit(s[n])
  {
    if s != [] && IsDigit(s[0]) then
      var n := 1 + LeadingDigits(s[1..]);
      assert forall i :: 1 <= i < n ==> s[..n][i] == s[1..][..n - 1][i - 1];
      n
    else 0
  }

  /** `s` without a leading '+' or '-', and the sign it had. */
  function Unsigned(s: string): (string, int) {
    if s != [] && s[0] == '-' then (s[1..], -1)
    else if s != [] && s[0] == '+' then (s[1..], 1)
    else (s, 1)
  }

  /**
   * `parseInt(s)` in base 10: leading white space and a sign are
   * skipped, then as many digits as there are are read; `None` (NaN)
   * when there is no digit.
   */
  function ParseInt(s: string): (r: Option<int>)
    ensures r.None? <==> LeadingDigits(Unsigned(TrimStart(s)).0) == 0
  {
    var (body, sign) := Unsigned(TrimStart(s));
    var n := LeadingDigits(body);
    if n == 0 then None else Some(sign * DigitsValue(body[..n]))
  }

  /**
   * The number a string converts to when compared with `==` to a
   * number, for integer texts: white space around it is ignored and a
   * blank string converts to 0; `None` stands for every other text.
   */
  function IntegerText(s: string): Option<int> {
    var t := Trim(s);
    if t == [] then Some(0)
    else
      var (body, sign) := Unsigned(t);
      if body != [] && AllDigits(body) then Some(sign * DigitsValue(body)) else None
  }

  /** A digit is not white space. */
  lemma DigitsAreNotSpaces(s: string)
    requires s != [] && AllDigits(s)
    ensures TrimStart(s) == s && TrimEnd(s) == s && Trim(s) == s
  {
    assert IsDigit(s[0]) && IsDigit(s[|s| - 1]);
    TrimStartAtNonSpace(s);
    TrimEndAtNonSpace(s);
  }

  /** The leading digits of a number's text followed by a non-digit are the whole number. */
  lemma {:induction false} LeadingDigitsOfPrinted(digits: string, rest: string)
    requires AllDigits(digits)
    requires rest == [] || !IsDigit(rest[0])
    ensures LeadingDigits(digits + rest) == |digits|
    decreases |digits|
  {
    if digits != [] {
      assert (digits + rest)[1..] == digits[1..] + rest;
      LeadingDigitsOfPrinted(digits[1..], rest);
    } else {
      assert digits + rest == rest;
    }
  }

  /** Text that starts with a non-space character is its own `TrimStart`. */
  lemma TrimStartAtNonSpace(s: string)
    requires s != [] && !IsSpace(s[0])
    ensures TrimStart(s) == s
  {
  }

  /** Text that ends with a non-space character is its own `TrimEnd`. */
  lemma TrimEndAtNonSpace(s: string)
    requires s != [] && !IsSpace(s[|s| - 1])
    ensures TrimEnd(s) == s
  {
  }

  /** Reading digits followed by a non-digit, with the sign already taken off. */
  lemma ParseBody(digits: string, rest: string)
    requires digits != [] && AllDigits(digits)
    requires rest == [] || !IsDigit(rest[0])
    ensures var n := LeadingDigits(digits + rest);
            n == |digits| && (digits + rest)[..n] == digits
  {
    LeadingDigitsOfPrinted(digits, rest);
    assert (digits + rest)[..|digits|] == digits;
  }

  /** `parseInt(String(i))` gives back `i`, and so does `parseInt` of it followed by a non-digit. */
  lemma ParseIntOfPrinted(i: int, rest: string)
    requires rest == [] || !IsDigit(rest[0])
    ensures ParseInt(IntToString(i) + rest) == Some(i)
  {
    if i < 0 {
      assert IntToString(i) + rest == "-" + (NatToString(-i) + rest);
      ParseNegative(-i, rest);
    } else {
      ParseNonNegative(i, rest);
    }
  }

  lemma ParseNonNegative(n: nat, rest: string)
    requires rest == [] || !IsDigit(rest[0])
    ensures ParseInt(NatToString(n) + rest) == Some(n)
  {
    var digits := NatToString(n);
    var text := digits + rest;
    ParseBody(digits, rest);
    assert text[0] == digits[0];
    DigitStart(text);
    ParseIntOfUnsigned(text, text, 1, |digits|);
  }

  /** Text that starts with a digit has no leading space and no sign. */
  lemma DigitStart(s: string)
    requires s != [] && IsDigit(s[0])
    ensures TrimStart(s) == s && Unsigned(s) == (s, 1)
  {
    TrimStartAtNonSpace(s);
  }

  lemma ParseNegative(n: nat, rest: string)
    requires rest == [] || !IsDigit(rest[0])
    ensures ParseInt("-" + (NatToString(n) + rest)) == Some(-(n as int))
  {
    var digits := NatToString(n);
    var body := digits + rest;
    var text := "-" + body;
    assert LeadingDigits(body) == |digits| && body[..|digits|] == digits by { ParseBody(digits, rest); }
    assert TrimStart(text) == text by { TrimStartAtNonSpace(text); }
    assert Unsigned(text) == (body, -1) by { assert text[1..] == body; }
    ParseIntOfUnsigned(text, body, -1, |digits|);
  }

  /** `parseInt` of text with no leading space, once its sign is taken off. */
  lemma ParseIntOfUnsigned(text: string, body: string, sign: int, n: nat)
    requires TrimStart(text) == text && Unsigned(text) == (body, sign)
    requires n > 0 && LeadingDigits(body) == n
    ensures ParseInt(text) == Some(sign * DigitsValue(body[..n]))
  {
  }

  /** `String(i) == i` holds: a printed integer converts back to itself. */
  lemma IntegerTextOfPrinted(i: int)
    ensures IntegerText(IntToString(i)) == Some(i)
  {
    if i < 0 {
      IntegerTextNegative(-i, IntToString(i));
    } else {
      assert IntToString(i) == NatToString(i);
      IntegerTextNonNegative(i);
    }
  }

  lemma IntegerTextNonNegative(n: nat)
    ensures IntegerText(NatToString(n)) == Some(n)
  {
    var digits := NatToString(n);
    DigitsAreNotSpaces(digits);
    DigitStart(digits);
    IntegerTextOfUnsigned(digits, digits, 1);
  }

  lemma IntegerTextNegative(n: nat, s: string)
    requires s == "-" + NatToString(n)
    ensures IntegerText(s) == Some(-(n as int))
  {
    var digits := NatToString(n);
    assert s[|s| - 1] == digits[|digits| - 1];
    NegativeTrimmed(s);
    assert Unsigned(s) == (digits, -1) by { assert s[1..] == digits; }
    IntegerTextOfUnsigned(s, digits, -1);
  }

  /** A minus sign followed by text that ends in a digit is already trimmed. */
  lemma NegativeTrimmed(s: string)
    requires |s| >= 2 && s[0] == '-' && IsDigit(s[|s| - 1])
    ensures Trim(s) == s
  {
    TrimStartAtNonSpace(s);
    TrimEndAtNonSpace(s);
  }

  /** The number a trimmed, signed run of digits converts to. */
  lemma IntegerTextOfUnsigned(t: string, digits: string, sign: int)
    requires t != [] && Trim(t) == t && Unsigned(t) == (digits, sign)
    requires digits != [] && AllDigits(digits)
    ensures IntegerText(t) == Some(sign * DigitsValue(digits))
  {
  }
}
