/**
 * The "c/t spots" counter that a booking decrements. Both the schedule
 * page and the home page search the element's text for the leftmost
 * match of `(\d+)\/(\d+)` followed by a fixed suffix, and write back the
 * current count less one over the unchanged total.
 */
module Spots {
  import opened Wrappers
  import opened Strings
  import opened Dom

  /** The two digit groups of a match. */
  datatype SpotsMatch = SpotsMatch(current: string, total: string)

  /** Length of the run of digits that starts at `i`. */
  function DigitRun(s: string, i: nat): (n: nat)
    requires i <= |s|
    ensures i + n <= |s|
    ensures forall k :: i <= k < i + n ==> IsDigit(s[k])
    ensures i + n == |s| || !IsDigit(s[i + n])
    decreases |s| - i
  {
    if i < |s| && IsDigit(s[i]) then 1 + DigitRun(s, i + 1) else 0
  }

  /**
   * The pattern matched at position `i`. A greedy `\d+` can only give
   * back digits, and neither '/' nor a suffix starting with a non-digit
   * can follow a digit, so each group is the whole run of digits there.
   */
  function MatchAt(s: string, i: nat, suffix: string): (m: Option<SpotsMatch>)
    requires i <= |s|
    ensures m.Some? ==> m.value.current != [] && AllDigits(m.value.current)
                        && m.value.total != [] && AllDigits(m.value.total)
  {
    var a := DigitRun(s, i);
    assert AllDigits(s[i..i + a]);
    if a == 0 || i + a == |s| || s[i + a] != '/' then None
    else
      var j := i + a + 1;
      var b := DigitRun(s, j);
      assert AllDigits(s[j..j + b]);
      if b == 0 || j + b + |suffix| > |s| || s[j + b..j + b + |suffix|] != suffix then None
      else Some(SpotsMatch(s[i..i + a], s[j..j + b]))
  }

  /** `s.match(...)`: the leftmost match at or after `i`. */
  function FindMatch(s: string, suffix: string, i: nat): (m: Option<SpotsMatch>)
    requires i <= |s|
    ensures m.Some? ==> m.value.current != [] && AllDigits(m.value.current)
                        && m.value.total != [] && AllDigits(m.value.total)
    decreases |s| - i
  {
    var here := MatchAt(s, i, suffix);
    if here.Some? then here
    else if i == |s| then None
    else FindMatch(s, suffix, i + 1)
  }

  /** The search finds the leftmost position at or after `i` where the pattern matches. */
  lemma {:induction false} FindMatchLeftmost(s: string, suffix: string, i: nat)
    requires i <= |s| && FindMatch(s, suffix, i).Some?
    ensures exists k :: i <= k <= |s| && FindMatch(s, suffix, i) == MatchAt(s, k, suffix)
                        && forall j :: i <= j < k ==> MatchAt(s, j, suffix).None?
    decreases |s| - i
  {
    if MatchAt(s, i, suffix).None? {
      assert i < |s| && FindMatch(s, suffix, i) == FindMatch(s, suffix, i + 1);
      FindMatchLeftmost(s, suffix, i + 1);
      var k :| i + 1 <= k <= |s| && FindMatch(s, suffix, i + 1) == MatchAt(s, k, suffix)
               && forall j :: i + 1 <= j < k ==> MatchAt(s, j, suffix).None?;
      assert forall j :: i <= j < k ==> MatchAt(s, j, suffix).None?;
    }
  }

  /** The search finds nothing exactly when no position at or after `i` matches. */
  lemma {:induction false} FindMatchNone(s: string, suffix: string, i: nat)
    requires i <= |s|
    ensures FindMatch(s, suffix, i).None? <==> forall k :: i <= k <= |s| ==> MatchAt(s, k, suffix).None?
    decreases |s| - i
  {
    if MatchAt(s, i, suffix).None? && i < |s| {
      assert FindMatch(s, suffix, i) == FindMatch(s, suffix, i + 1);
      FindMatchNone(s, suffix, i + 1);
    }
  }

  /** The counter text `c/t<suffix>`, as the scripts write it. */
  function CounterText(current: int, total: nat, suffix: string): string {
    IntToString(current) + "/" + NatToString(total) + suffix
  }

  /** The run of digits of a printed number ends where the number does. */
  lemma {:induction false} DigitRunOfPrefix(s: string, i: nat, k: nat)
    requires i + k <= |s| && forall m :: i <= m < i + k ==> IsDigit(s[m])
    requires i + k == |s| || !IsDigit(s[i + k])
    ensures DigitRun(s, i) == k
    decreases k
  {
    if k > 0 {
      DigitRunOfPrefix(s, i + 1, k - 1);
    }
  }

  /** No match of the pattern starts before position `n`. */
  ghost predicate NoMatchBefore(s: string, suffix: string, n: nat) {
    forall k :: 0 <= k < n && k <= |s| ==> MatchAt(s, k, suffix).None?
  }

  /** A match at `n` with none before it is the one the search finds. */
  lemma FindMatchAt(s: string, suffix: string, n: nat)
    requires n <= |s| && NoMatchBefore(s, suffix, n) && MatchAt(s, n, suffix).Some?
    ensures FindMatch(s, suffix, 0) == MatchAt(s, n, suffix)
  {
    var m := FindMatch(s, suffix, 0);
    assert m.Some? by {
      FindMatchNone(s, suffix, 0);
    }
    FindMatchLeftmost(s, suffix, 0);
    var k :| 0 <= k <= |s| && m == MatchAt(s, k, suffix) && forall j :: 0 <= j < k ==> MatchAt(s, j, suffix).None?;
    assert k == n;
  }

  /** Text without a digit cannot start a match, so none starts before what follows it. */
  lemma NoDigitsNoMatch(prefix: string, x: string, suffix: string)
    requires forall k :: 0 <= k < |prefix| ==> !IsDigit(prefix[k])
    ensures NoMatchBefore(prefix + x, suffix, |prefix|)
  {
    var s := prefix + x;
    forall k | 0 <= k < |prefix|
      ensures MatchAt(s, k, suffix).None?
    {
      assert s[k] == prefix[k];
      assert DigitRun(s, k) == 0;
    }
  }

  /** Text laid out as `prefix c/t<suffix> rest` with no match in the prefix gives `c` and `t`. */
  lemma MatchOfParts(prefix: string, c: string, t: string, suffix: string, rest: string)
    requires c != [] && AllDigits(c) && t != [] && AllDigits(t)
    requires suffix != [] && !IsDigit(suffix[0])
    requires NoMatchBefore(prefix + c + "/" + t + suffix + rest, suffix, |prefix|)
    ensures FindMatch(prefix + c + "/" + t + suffix + rest, suffix, 0) == Some(SpotsMatch(c, t))
  {
    var s := prefix + c + "/" + t + suffix + rest;
    var p := |prefix|;
    var j := p + |c| + 1;
    assert s[p..p + |c|] == c && s[p + |c|] == '/';
    assert s[j..j + |t|] == t;
    assert s[j + |t|..j + |t| + |suffix|] == suffix;
    MatchAtPos(s, p, c, t, suffix);
    FindMatchAt(s, suffix, p);
  }

  /** The pattern matches at `p` in text laid out there as `c/t<suffix>...`. */
  lemma MatchAtPos(s: string, p: nat, c: string, t: string, suffix: string)
    requires c != [] && AllDigits(c) && t != [] && AllDigits(t)
    requires suffix != [] && !IsDigit(suffix[0])
    requires p + |c| + 1 + |t| + |suffix| <= |s|
    requires s[p..p + |c|] == c && s[p + |c|] == '/'
    requires s[p + |c| + 1..p + |c| + 1 + |t|] == t && s[p + |c| + 1 + |t|..p + |c| + 1 + |t| + |suffix|] == suffix
    ensures MatchAt(s, p, suffix) == Some(SpotsMatch(c, t))
  {
    RunsOfCounter(s, p, c, t, suffix);
  }

  /** The two digit groups of `c/t<suffix>` at `p` are whole runs of digits. */
  lemma RunsOfCounter(s: string, p: nat, c: string, t: string, suffix: string)
    requires AllDigits(c) && AllDigits(t) && suffix != [] && !IsDigit(suffix[0])
    requires p + |c| + 1 + |t| + |suffix| <= |s|
    requires s[p..p + |c|] == c && s[p + |c|] == '/'
    requires s[p + |c| + 1..p + |c| + 1 + |t|] == t && s[p + |c| + 1 + |t|..p + |c| + 1 + |t| + |suffix|] == suffix
    ensures DigitRun(s, p) == |c| && DigitRun(s, p + |c| + 1) == |t|
  {
    RunOfSlice(s, p, c);
    RunBeforeSuffix(s, p + |c| + 1, t, suffix);
  }

  /** Digits followed by a suffix that starts with a non-digit are a whole run. */
  lemma RunBeforeSuffix(s: string, j: nat, t: string, suffix: string)
    requires AllDigits(t) && suffix != [] && !IsDigit(suffix[0])
    requires j + |t| + |suffix| <= |s|
    requires s[j..j + |t|] == t && s[j + |t|..j + |t| + |suffix|] == suffix
    ensures DigitRun(s, j) == |t|
  {
    assert s[j + |t|] == suffix[0];
    RunOfSlice(s, j, t);
  }

  /** A slice of digits followed by a non-digit is the whole run there. */
  lemma RunOfSlice(s: string, i: nat, d: string)
    requires i + |d| <= |s| && s[i..i + |d|] == d && AllDigits(d)
    requires i + |d| == |s| || !IsDigit(s[i + |d|])
    ensures DigitRun(s, i) == |d|
  {
    DigitsAt(s, i, d);
    DigitRunOfPrefix(s, i, |d|);
  }

  /** Every position of a slice holding digits is a digit. */
  lemma DigitsAt(s: string, i: nat, d: string)
    requires i + |d| <= |s| && s[i..i + |d|] == d && AllDigits(d)
    ensures forall m :: i <= m < i + |d| ==> IsDigit(s[m])
  {
    forall m | i <= m < i + |d| ensures IsDigit(s[m]) {
      assert s[m] == d[m - i];
    }
  }

  /** The pattern matches at `i` when the runs of digits there have the shape it asks for. */
  lemma MatchAtIntro(s: string, i: nat, a: nat, b: nat, suffix: string)
    requires i <= |s| && DigitRun(s, i) == a > 0 && i + a < |s| && s[i + a] == '/'
    requires DigitRun(s, i + a + 1) == b > 0
    requires i + a + 1 + b + |suffix| <= |s| && s[i + a + 1 + b..i + a + 1 + b + |suffix|] == suffix
    ensures MatchAt(s, i, suffix) == Some(SpotsMatch(s[i..i + a], s[i + a + 1..i + a + 1 + b]))
  {
  }

  /**
   * A printed counter parses back to its numbers: the search finds the
   * current count and the total, in that order, wherever the counter
   * stands, provided no match starts in the text before it.
   */
  lemma CounterRoundTrip(prefix: string, current: nat, total: nat, suffix: string, rest: string)
    requires suffix != [] && !IsDigit(suffix[0])
    requires NoMatchBefore(prefix + CounterText(current, total, suffix) + rest, suffix, |prefix|)
    ensures var m := FindMatch(prefix + CounterText(current, total, suffix) + rest, suffix, 0);
            m.Some? && DigitsValue(m.value.current) == current && DigitsValue(m.value.total) == total
  {
    var c, t := NatToString(current), NatToString(total);
    assert prefix + CounterText(current, total, suffix) + rest == prefix + c + "/" + t + suffix + rest;
    MatchOfParts(prefix, c, t, suffix, rest);
  }

  /** The counter after a booking, or `None` when the text holds no match. */
  function Decrement(text: string, suffix: string): (r: Option<(int, nat)>)
    ensures r.Some? ==> r.value.0 >= -1
  {
    match FindMatch(text, suffix, 0)
    case None => None
    case Some(m) => Some((DigitsValue(m.current) - 1, DigitsValue(m.total)))
  }

  /**
   * A printed counter `c/t` decrements to `(c-1)/t` with the total
   * unchanged; a count of 0 gives -1.
   */
  lemma DecrementCounter(prefix: string, current: nat, total: nat, suffix: string, rest: string)
    requires suffix != [] && !IsDigit(suffix[0])
    requires NoMatchBefore(prefix + CounterText(current, total, suffix) + rest, suffix, |prefix|)
    ensures Decrement(prefix + CounterText(current, total, suffix) + rest, suffix) == Some((current - 1, total))
  {
    CounterRoundTrip(prefix, current, total, suffix, rest);
  }

  /** A counter printed with `" " + word` after it holds the word and decrements. */
  lemma WordCounter(prefix: string, current: nat, total: nat, word: string, rest: string)
    requires NoMatchBefore(prefix + CounterText(current, total, " " + word) + rest, " " + word, |prefix|)
    ensures var text := prefix + CounterText(current, total, " " + word) + rest;
            Contains(text, word) && Decrement(text, " " + word) == Some((current - 1, total))
  {
    var a := prefix + IntToString(current) + "/" + NatToString(total) + " ";
    assert prefix + CounterText(current, total, " " + word) + rest == a + word + rest;
    ContainsMiddle(a, word, rest);
    DecrementCounter(prefix, current, total, " " + word, rest);
  }

  const FullText: string := "<i class=\"fas fa-users\"></i> Class Full - Join Waitlist"
  const FullColor: string := "#dc3545"

  /** A booking on a counter printed with `" " + word` after it: one spot fewer, or full at the last one. */
  lemma AfterWordCounter(e: ElementState, prefix: string, current: nat, total: nat, word: string, rest: string)
    requires e.TextContent() == prefix + CounterText(current, total, " " + word) + rest
    requires NoMatchBefore(e.TextContent(), " " + word, |prefix|)
    ensures var r := AfterBooking(e, word, " " + word);
            if current == 1 then r.innerHTML == FullText && r.style == e.style["color" := FullColor]
            else r.innerHTML == CounterText(current - 1, total, " " + word) && r.style == e.style
  {
    WordCounter(prefix, current, total, word, rest);
  }

  /**
   * The same behind any text without digits, such as the space an icon
   * leaves before the counter in the element's text.
   */
  lemma AfterCounterBehindText(e: ElementState, prefix: string, current: nat, total: nat, word: string, rest: string)
    requires forall k :: 0 <= k < |prefix| ==> !IsDigit(prefix[k])
    requires e.TextContent() == prefix + CounterText(current, total, " " + word) + rest
    ensures var r := AfterBooking(e, word, " " + word);
            if current == 1 then r.innerHTML == FullText && r.style == e.style["color" := FullColor]
            else r.innerHTML == CounterText(current - 1, total, " " + word) && r.style == e.style
  {
    var x := CounterText(current, total, " " + word) + rest;
    assert prefix + x == e.TextContent();
    NoDigitsNoMatch(prefix, x, " " + word);
    AfterWordCounter(e, prefix, current, total, word, rest);
  }

  /**
   * The element after `updateAvailableSpots`: when its text contains
   * `word` and matches, the whole text becomes the new counter, and at 0
   * the element turns red and shows the waitlist notice instead.
   */
  function AfterBooking(e: ElementState, word: string, suffix: string): (r: ElementState)
    ensures r.disabled == e.disabled && r.classes == e.classes && r.dataset == e.dataset
    ensures r.attributes == e.attributes
    ensures r.style == e.style || r.style == e.style["color" := FullColor]
    ensures !Contains(e.TextContent(), word) || Decrement(e.TextContent(), suffix).None? ==> r == e
    ensures Contains(e.TextContent(), word) && Decrement(e.TextContent(), suffix).Some? ==>
              var (current, total) := Decrement(e.TextContent(), suffix).value;
              if current == 0 then r.innerHTML == FullText && r.style == e.style["color" := FullColor]
              else r.innerHTML == CounterText(current, total, suffix) && r.style == e.style
  {
    var text := e.TextContent();
    if !Contains(text, word) then e
    else match Decrement(text, suffix)
      case None => e
      case Some((current, total)) =>
        if current == 0 then e.(innerHTML := FullText, style := e.style["color" := FullColor])
        else e.(innerHTML := CounterText(current, total, suffix))
  }

  /** `updateAvailableSpots` on the counter element, if the card has one. */
  method UpdateAvailableSpots(spots: Element?, word: string, suffix: string)
    modifies spots
    ensures spots != null ==> spots.State() == AfterBooking(old(spots.State()), word, suffix)
  {
    if spots == null {
      return;
    }
    var text := spots.TextContent();
    if !Contains(text, word) {
      return;
    }
    var m := FindMatch(text, suffix, 0);
    if m.None? {
      return;
    }
    var current := DigitsValue(m.value.current) - 1;
    var total := DigitsValue(m.value.total);
    assert Decrement(text, suffix) == Some((current, total));
    spots.innerHTML := CounterText(current, total, suffix);
    if current == 0 {
      spots.style := spots.style["color" := FullColor];
      spots.innerHTML := FullText;
    }
  }
}
