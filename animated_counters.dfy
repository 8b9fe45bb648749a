/**
 * The animated statistics counters: reading a target number out of the
 * stat's text, formatting the counter's value with thousands separators,
 * the run-once animation, and the per-element setup that picks the
 * target, the unit and the delay.
 */
module AnimatedCounters {
  import opened Wrappers
  import opened Strings
  import opened Dom

  /** A character `parseValue` keeps: a digit or a dot. */
  predicate NumberChar(c: char) {
    IsDigit(c) || c == '.'
  }

  /** `value.replace(/,/g, '').replace(/[^\d.]/g, '')`: only digits and dots remain, in order. */
  function Cleaned(s: string): (r: string)
    ensures |r| <= |s|
    ensures forall k :: 0 <= k < |r| ==> NumberChar(r[k])
  {
    if s == [] then ""
    else (if NumberChar(s[0]) then [s[0]] else "") + Cleaned(s[1..])
  }

  lemma {:induction false} CleanedAppend(a: string, b: string)
    ensures Cleaned(a + b) == Cleaned(a) + Cleaned(b)
  {
    if a != [] {
      assert (a + b)[0] == a[0] && (a + b)[1..] == a[1..] + b;
      CleanedAppend(a[1..], b);
    } else {
      assert a + b == b;
    }
  }

  /** A prefix or suffix without digits and dots contributes nothing. */
  lemma {:induction false} CleanedOfUnit(s: string)
    requires forall i :: 0 <= i < |s| ==> !NumberChar(s[i])
    ensures Cleaned(s) == ""
  {
    if s != [] {
      assert forall i :: 0 <= i < |s| - 1 ==> s[1..][i] == s[i + 1];
      CleanedOfUnit(s[1..]);
    }
  }

  /** Digits and dots pass through unchanged. */
  lemma {:induction false} CleanedKeepsAll(s: string)
    requires forall i :: 0 <= i < |s| ==> NumberChar(s[i])
    ensures Cleaned(s) == s
  {
    if s != [] {
      assert forall i :: 0 <= i < |s| - 1 ==> s[1..][i] == s[i + 1];
      CleanedKeepsAll(s[1..]);
      assert s == [s[0]] + s[1..];
    }
  }

  /** Digits pass through unchanged. */
  lemma CleanedDigits(ds: string)
    requires AllDigits(ds)
    ensures Cleaned(ds) == ds
  {
    CleanedKeepsAll(ds);
  }

  function Pow10(k: nat): (p: nat)
    ensures p >= 1
  {
    if k == 0 then 1 else 10 * Pow10(k - 1)
  }

  /** The digits after a leading dot, up to the next non-digit. */
  function FractionDigits(rest: string): (frac: string)
    ensures AllDigits(frac)
  {
    if rest != [] && rest[0] == '.' then rest[1..][..LeadingDigits(rest[1..])] else ""
  }

  /** The number the digits "whole.frac" denote. */
  function DecimalValue(whole: string, frac: string): (v: real)
    requires AllDigits(whole) && AllDigits(frac)
    ensures v >= 0.0
  {
    DigitsValue(whole) as real + DigitsValue(frac) as real / Pow10(|frac|) as real
  }

  /**
   * `parseFloat` of text made of digits and dots: the leading digits, then
   * a dot and the digits after it; NaN (`None`) when neither part has a digit.
   */
  function ParseDecimal(t: string): (r: Option<real>)
    ensures t == [] ==> r.None?
    ensures t != [] && IsDigit(t[0]) ==> r.Some?
    ensures r.Some? ==> r.value >= 0.0
  {
    var n := LeadingDigits(t);
    var frac := FractionDigits(t[n..]);
    if n == 0 && frac == "" then None else Some(DecimalValue(t[..n], frac))
  }

  /** `parseValue` of a string: cleaned, parsed, and 0 when nothing parses. */
  function ParseValue(value: string): (r: real)
    ensures r >= 0.0
  {
    ParseDecimal(Cleaned(value)).GetOr(0.0)
  }

  /** Thousands separators never change the value read. */
  lemma CommaIgnored(a: string, b: string)
    ensures ParseValue(a + "," + b) == ParseValue(a + b)
  {
    CleanedAppend(a + ",", b);
    CleanedAppend(a, ",");
    CleanedAppend(a, b);
    CleanedOfUnit(",");
    assert Cleaned(a) + "" == Cleaned(a);
  }

  /** The amount text "Rs.500" reads as 0.5: the currency's dot is taken as the decimal point. */
  lemma RupeeTextReadsAsHalf()
    ensures ParseValue("Rs.500") == 0.5
  {
    CleanedRupee();
    ParseHalf();
  }

  lemma CleanedRupee()
    ensures Cleaned("Rs.500") == ".500"
  {
    var unit, rest := "Rs", ".500";
    assert Cleaned(unit) == "" by { CleanedOfUnit(unit); }
    assert Cleaned(rest) == rest by { CleanedKeepsAll(rest); }
    assert "Rs.500" == unit + rest;
    CleanedAppend(unit, rest);
    assert "" + rest == rest;
  }

  lemma ParseHalf()
    ensures ParseDecimal(".500") == Some(0.5)
  {
    assert LeadingDigits(".500") == 0;
    assert ".500"[0..] == ".500" && ".500"[..0] == "";
    assert ".500"[1..] == "500" + "";
    LeadingDigitsOfPrinted("500", "");
    assert FractionDigits(".500") == "500";
    assert DigitsValue("500") == 500 by {
      assert "500"[..2] == "50";
      assert "50"[..1] == "5";
      assert "5"[..0] == "";
    }
    assert Pow10(3) == 1000;
    assert DecimalValue("", "500") == 0.5;
  }

  /** `num.toFixed(d)` split into its sign, integer digits and `d` fraction digits. */
  datatype Fixed = Fixed(negative: bool, whole: string, frac: string)

  /** `toFixed` rounds to the nearest multiple of 10^-d, halves away from zero. */
  function Rounded(x: real, d: nat): (n: nat) {
    var magnitude := if x < 0.0 then -x else x;
    (magnitude * Pow10(d) as real + 0.5).Floor
  }

  function Zeros(k: nat): (z: string)
    ensures |z| == k && AllDigits(z)
  {
    seq(k, _ => '0')
  }

  /** Digits left-padded with zeros to at least d+1 of them. */
  function Pad(ds: string, d: nat): (p: string)
    requires AllDigits(ds)
    ensures |p| >= d + 1 && AllDigits(p)
  {
    if |ds| < d + 1 then Zeros(d + 1 - |ds|) + ds else ds
  }

  /** The digits of `Rounded(x, d)`, padded, the last d after the point. */
  function ToFixed(x: real, d: nat): (f: Fixed)
    ensures AllDigits(f.whole) && |f.whole| >= 1 && AllDigits(f.frac) && |f.frac| == d
    ensures f.negative <==> x < 0.0
  {
    var p := Pad(NatToString(Rounded(x, d)), d);
    Fixed(x < 0.0, p[..|p| - d], p[|p| - d..])
  }

  lemma {:induction false} DigitsValueAppend(a: string, b: string)
    requires AllDigits(a) && AllDigits(b)
    ensures DigitsValue(a + b) == DigitsValue(a) * Pow10(|b|) + DigitsValue(b)
    decreases |b|
  {
    if b == [] {
      assert a + b == a;
    } else {
      var b' := b[..|b| - 1];
      assert (a + b)[..|a + b| - 1] == a + b';
      assert (a + b)[|a + b| - 1] == b[|b| - 1];
      DigitsValueAppend(a, b');
      ShiftDigit(DigitsValue(a), Pow10(|b'|), DigitsValue(b'), DigitValue(b[|b| - 1]));
    }
  }

  lemma ShiftDigit(x: nat, p: nat, y: nat, d: nat)
    ensures (x * p + y) * 10 + d == x * (10 * p) + (y * 10 + d)
  {
  }

  lemma {:induction false} ZerosValue(k: nat)
    ensures DigitsValue(Zeros(k)) == 0
  {
    if k > 0 {
      assert Zeros(k)[..k - 1] == Zeros(k - 1);
      ZerosValue(k - 1);
    }
  }

  /** 10^k is the number written as a one followed by k zeros. */
  lemma Pow10Written(k: nat)
    ensures DigitsValue("1" + Zeros(k)) == Pow10(k)
  {
    assert DigitsValue("1") == 1 by { assert "1"[..0] == ""; }
    DigitsValueAppend("1", Zeros(k));
    ZerosValue(k);
  }

  /** Leading zeros do not change the value. */
  lemma LeadingZeros(k: nat, ds: string)
    requires AllDigits(ds)
    ensures DigitsValue(Zeros(k) + ds) == DigitsValue(ds)
  {
    var z := Zeros(k);
    DigitsValueAppend(z, ds);
    ZerosValue(k);
    var v := DigitsValue(z);
    assert v * Pow10(|ds|) == 0;
  }

  /** The digits `toFixed` prints denote the rounded value: whole·10^d + frac. */
  lemma ToFixedValue(x: real, d: nat)
    ensures var f := ToFixed(x, d);
            DigitsValue(f.whole) * Pow10(d) + DigitsValue(f.frac) == Rounded(x, d)
  {
    var ds := NatToString(Rounded(x, d));
    var p := Pad(ds, d);
    if |ds| < d + 1 {
      LeadingZeros(d + 1 - |ds|, ds);
    }
    assert DigitsValue(p) == Rounded(x, d);
    var f := ToFixed(x, d);
    assert p == f.whole + f.frac;
    DigitsValueAppend(f.whole, f.frac);
  }

  /**
   * The regular expression `\B(?=(\d{3})+(?!\d))` on one run of digits: a
   * comma before every position followed by a positive multiple of three
   * digits, except at the run's start.
   */
  function Group(ds: string): (r: string)
    ensures |ds| <= 3 ==> r == ds
    decreases |ds|
  {
    if |ds| <= 3 then ds else Group(ds[..|ds| - 3]) + "," + ds[|ds| - 3..]
  }

  /** Removing the separators gives back the digits. */
  lemma {:induction false} CleanedGroup(ds: string)
    requires AllDigits(ds)
    ensures Cleaned(Group(ds)) == ds
    decreases |ds|
  {
    if |ds| <= 3 {
      CleanedDigits(ds);
    } else {
      var a, b := ds[..|ds| - 3], ds[|ds| - 3..];
      CleanedGroup(a);
      CleanedAppend(Group(a) + ",", b);
      CleanedAppend(Group(a), ",");
      CleanedOfUnit(",");
      CleanedDigits(b);
      assert a + b == ds;
    }
  }

  function SignText(f: Fixed): string {
    if f.negative then "-" else ""
  }

  /** The digits with their point, as `toFixed` prints them after the sign. */
  function PointText(whole: string, frac: string): string {
    whole + (if frac == "" then "" else "." + frac)
  }

  /** `toFixed`'s text. */
  function Plain(f: Fixed): string {
    SignText(f) + PointText(f.whole, f.frac)
  }

  /**
   * The text after the separator rule: the regular expression sees the
   * integer digits and the fraction digits as two separate runs.
   */
  function Grouped(f: Fixed): string {
    SignText(f) + PointText(Group(f.whole), Group(f.frac))
  }

  /** `formatNumber`: `toFixed(decimals)`, separators when the target is at least 1000, then prefix and suffix. */
  function FormatNumber(num: real, decimals: nat, target: real, prefix: string, suffix: string): (r: string)
    ensures |r| > |prefix| + |suffix|
    ensures r[..|prefix|] == prefix && r[|r| - |suffix|..] == suffix
  {
    var f := ToFixed(num, decimals);
    prefix + (if target >= 1000.0 then Grouped(f) else Plain(f)) + suffix
  }

  /** Five-digit fractions are grouped as well: 1234.56789 with five decimals prints "1,234.56,789". */
  lemma FractionIsGrouped(f: Fixed)
    requires |f.frac| == 5
    ensures Grouped(f) == SignText(f) + Group(f.whole) + "." + f.frac[..2] + "," + f.frac[2..]
  {
  }

  /** What `Cleaned` keeps of the digits and point: all of it. */
  lemma CleanedPointText(w: string, fr: string, whole: string, frac: string)
    requires Cleaned(w) == whole && Cleaned(fr) == frac
    requires fr == "" <==> frac == ""
    ensures Cleaned(PointText(w, fr)) == PointText(whole, frac)
  {
    if fr != "" {
      CleanedAppend(w, "." + fr);
      CleanedAppend(".", fr);
    } else {
      assert PointText(w, fr) == w;
    }
  }

  /** Both spellings of a non-negative number clean to its digits and point. */
  lemma CleanedBody(f: Fixed, grouped: bool)
    requires !f.negative && AllDigits(f.whole) && AllDigits(f.frac)
    ensures Cleaned(if grouped then Grouped(f) else Plain(f)) == PointText(f.whole, f.frac)
  {
    if grouped {
      CleanedGroup(f.whole);
      CleanedGroup(f.frac);
      assert Grouped(f) == PointText(Group(f.whole), Group(f.frac));
      CleanedPointText(Group(f.whole), Group(f.frac), f.whole, f.frac);
    } else {
      CleanedDigits(f.whole);
      CleanedDigits(f.frac);
      assert Plain(f) == PointText(f.whole, f.frac);
      CleanedPointText(f.whole, f.frac, f.whole, f.frac);
    }
  }

  /** `parseFloat` of "w.f" (or of "w" when there are no fraction digits). */
  lemma ParseFixedDigits(whole: string, frac: string)
    requires whole != [] && AllDigits(whole) && AllDigits(frac)
    ensures ParseDecimal(PointText(whole, frac)) == Some(DecimalValue(whole, frac))
  {
    var rest := if frac == "" then "" else "." + frac;
    var t := PointText(whole, frac);
    assert t == whole + rest;
    LeadingDigitsOfPrinted(whole, rest);
    assert t[..|whole|] == whole;
    assert t[|whole|..] == rest;
    if frac != "" {
      assert rest[1..] == frac + "";
      LeadingDigitsOfPrinted(frac, "");
      assert frac[..|frac|] == frac;
      assert FractionDigits(rest) == frac;
    }
  }

  /** w + f / p == r / p when w·p + f == r. */
  lemma DivSplit(w: nat, f: nat, p: nat, r: nat)
    requires p >= 1 && w * p + f == r
    ensures w as real + f as real / p as real == r as real / p as real
  {
    assert r as real == w as real * p as real + f as real;
  }

  /** Cleaning a formatted number leaves its digits and point. */
  lemma CleanedFormatted(num: real, decimals: nat, target: real, prefix: string, suffix: string)
    requires num >= 0.0
    requires forall i :: 0 <= i < |prefix| ==> !NumberChar(prefix[i])
    requires forall i :: 0 <= i < |suffix| ==> !NumberChar(suffix[i])
    ensures var f := ToFixed(num, decimals);
            Cleaned(FormatNumber(num, decimals, target, prefix, suffix)) == PointText(f.whole, f.frac)
  {
    var f := ToFixed(num, decimals);
    var body := if target >= 1000.0 then Grouped(f) else Plain(f);
    assert FormatNumber(num, decimals, target, prefix, suffix) == prefix + body + suffix;
    assert Cleaned(body) == PointText(f.whole, f.frac) by { CleanedBody(f, target >= 1000.0); }
    assert Cleaned(prefix + body) == Cleaned(body) by {
      CleanedAppend(prefix, body);
      CleanedOfUnit(prefix);
      assert "" + Cleaned(body) == Cleaned(body);
    }
    assert Cleaned(prefix + body + suffix) == Cleaned(prefix + body) by {
      CleanedAppend(prefix + body, suffix);
      CleanedOfUnit(suffix);
      assert Cleaned(prefix + body) + "" == Cleaned(prefix + body);
    }
  }

  /**
   * Reading back what `formatNumber` printed gives the rounded value, as
   * long as the prefix and suffix hold no digit and no dot.
   */
  lemma ParseFormatted(num: real, decimals: nat, target: real, prefix: string, suffix: string)
    requires num >= 0.0
    requires forall i :: 0 <= i < |prefix| ==> !NumberChar(prefix[i])
    requires forall i :: 0 <= i < |suffix| ==> !NumberChar(suffix[i])
    ensures ParseValue(FormatNumber(num, decimals, target, prefix, suffix)) ==
            Rounded(num, decimals) as real / Pow10(decimals) as real
  {
    var f := ToFixed(num, decimals);
    CleanedFormatted(num, decimals, target, prefix, suffix);
    ParseFixedDigits(f.whole, f.frac);
    ToFixedValue(num, decimals);
    DivSplit(DigitsValue(f.whole), DigitsValue(f.frac), Pow10(decimals), Rounded(num, decimals));
  }

  /** A whole number prints and reads back unchanged (no decimals, affixes without digits or dots). */
  lemma WholeNumberRoundTrip(n: nat, target: real, prefix: string, suffix: string)
    requires forall i :: 0 <= i < |prefix| ==> !NumberChar(prefix[i])
    requires forall i :: 0 <= i < |suffix| ==> !NumberChar(suffix[i])
    ensures ParseValue(FormatNumber(n as real, 0, target, prefix, suffix)) == n as real
  {
    ParseFormatted(n as real, 0, target, prefix, suffix);
    RoundedWhole(n);
    DivByOne(n as real, Pow10(0));
  }

  lemma DivByOne(x: real, p: nat)
    requires p == 1
    ensures x / p as real == x
  {
  }

  lemma RoundedWhole(n: nat)
    ensures Rounded(n as real, 0) == n
  {
    assert Pow10(0) == 1;
    assert n as real * Pow10(0) as real + 0.5 == n as real + 0.5;
    assert (n as real + 0.5).Floor == n;
  }

  /** The options a counter is created with; a missing option is `None`. */
  datatype CounterOptions = CounterOptions(duration: Option<int>, delay: Option<int>, decimals: Option<nat>,
                                           suffix: Option<string>, prefix: Option<string>)

  /** `options.x || fallback`: a missing or zero number falls back. */
  function NumberOr(x: Option<int>, fallback: int): int {
    if x.Some? && x.value != 0 then x.value else fallback
  }

  /** One counter over a stat element. */
  class AnimatedCounter {
    const element: Element
    var targetValue: real
    var duration: int
    var delay: int
    var decimals: nat
    var suffix: string
    var prefix: string
    var animated: bool
    var startValue: real

    /** The target is read with `parseValue`; missing options default to 2000 ms, no delay, no decimals, no affixes. */
    constructor (element: Element, targetValue: string, options: CounterOptions)
      ensures this.element == element && this.targetValue == ParseValue(targetValue)
      ensures duration == NumberOr(options.duration, 2000) && delay == NumberOr(options.delay, 0)
      ensures decimals == options.decimals.GetOr(0)
      ensures suffix == options.suffix.GetOr("") && prefix == options.prefix.GetOr("")
      ensures !animated && startValue == 0.0
    {
      this.element := element;
      this.targetValue := ParseValue(targetValue);
      duration := NumberOr(options.duration, 2000);
      delay := NumberOr(options.delay, 0);
      decimals := options.decimals.GetOr(0);
      suffix := options.suffix.GetOr("");
      prefix := options.prefix.GetOr("");
      animated := false;
      startValue := 0.0;
    }

    /** The counter's final text. */
    function FinalText(): string
      reads this
    {
      FormatNumber(targetValue, decimals, targetValue, prefix, suffix)
    }

    /**
     * `animate`: the first call marks the counter animated and adds the
     * `animating` class; every later call returns at once.
     */
    method Animate()
      modifies this`animated, element`classes
      ensures animated
      ensures old(animated) ==> element.classes == old(element.classes)
      ensures !old(animated) ==> element.classes == old(element.classes) + {"animating"}
    {
      if animated {
        return;
      }
      animated := true;
      element.classes := element.classes + {"animating"};
    }

    /** The last frame: the element shows the formatted target and `animating` gives way to `counted`. */
    method Complete()
      requires animated
      modifies element`innerHTML, element`classes
      ensures element.innerHTML == FinalText()
      ensures element.classes == old(element.classes) - {"animating"} + {"counted"}
    {
      element.innerHTML := FormatNumber(targetValue, decimals, targetValue, prefix, suffix);
      element.classes := element.classes - {"animating"};
      element.classes := element.classes + {"counted"};
    }
  }

  /** The unit detected in a stat's text: (suffix, prefix). */
  function DetectAffixes(text: string): (r: (string, string))
    ensures Contains(text, "g") ==> r == ("g", "")
    ensures !Contains(text, "g") && Contains(text, "cal") ==> r == (" cal", "")
    ensures !Contains(text, "g") && !Contains(text, "cal") ==> r.0 == ""
    ensures r.1 != "" ==> r.1 == "Rs." && !Contains(text, "g") && !Contains(text, "cal") && Contains(text, "Rs.")
  {
    if Contains(text, "g") then ("g", "")
    else if Contains(text, "cal") then (" cal", "")
    else if Contains(text, "glasses") then ("", "")
    else if Contains(text, "Rs.") then ("", "Rs.")
    else ("", "")
  }

  /** Text mentioning glasses always contains 'g', so the glasses test is never the one that decides. */
  lemma GlassesMeansGrams(text: string)
    requires Contains(text, "glasses")
    ensures DetectAffixes(text) == ("g", "")
  {
    ContainsIffOccurs(text, "glasses");
    var i :| OccursAt(text, "glasses", i);
    assert text[i..i + 7] == "glasses";
    assert text[i] == 'g';
    assert text[i..i + 1] == "g";
    ContainsAt(text, "g", i);
  }

  /** Without a 'g' or "cal", text holding "Rs." gets the rupee prefix. */
  lemma RupeePrefixDetected(text: string)
    requires !Contains(text, "g") && !Contains(text, "cal") && Contains(text, "Rs.")
    ensures DetectAffixes(text) == ("", "Rs.")
  {
    if Contains(text, "glasses") {
      GlassesMeansGrams(text);
    }
  }

  /** `!statNumber.dataset.animated`: the element has not been claimed by a counter. */
  predicate Claimed(e: ElementState) {
    "animated" in e.dataset && e.dataset["animated"] != ""
  }

  /** The target text: a non-empty `data-target` attribute, otherwise the trimmed text. */
  function TargetText(e: ElementState): (t: string)
    ensures "data-target" in e.attributes && e.attributes["data-target"] != "" ==> t == e.attributes["data-target"]
    ensures !("data-target" in e.attributes && e.attributes["data-target"] != "") ==> t == Trim(e.TextContent())
  {
    if "data-target" in e.attributes && e.attributes["data-target"] != "" then e.attributes["data-target"]
    else Trim(e.TextContent())
  }

  /** The stat containers' classes that receive `visible`. */
  predicate IsStatContainer(classes: set<string>) {
    "stat-item" in classes || "stat-card" in classes || "social-stat" in classes
  }

  /** The observer's handling of a container coming into view: a stat container becomes visible. */
  method ContainerVisible(container: Element)
    modifies container`classes
    ensures IsStatContainer(old(container.classes)) ==> container.classes == old(container.classes) + {"visible"}
    ensures !IsStatContainer(old(container.classes)) ==> container.classes == old(container.classes)
  {
    if IsStatContainer(container.classes) {
      container.classes := container.classes + {"visible"};
    }
  }

  /**
   * The observer's handling of the stat number found in that container:
   * an unclaimed number is claimed and a counter started with the target,
   * unit and delay (100 ms per container position) it gets from the page.
   * A claimed number is left as it is, so each number is animated at most
   * once however often the counters are set up again.
   */
  method ClaimStatNumber(statNumber: Element, index: int) returns (counter: AnimatedCounter?)
    modifies statNumber`dataset, statNumber`classes
    ensures Claimed(old(statNumber.State())) ==>
              counter == null && statNumber.dataset == old(statNumber.dataset) && statNumber.classes == old(statNumber.classes)
    ensures !Claimed(old(statNumber.State())) ==>
              && statNumber.dataset == old(statNumber.dataset)["animated" := "true"]
              && Claimed(statNumber.State())
              && statNumber.classes == old(statNumber.classes) + {"animating"}
              && counter != null && fresh(counter) && counter.element == statNumber && counter.animated
              && counter.targetValue == ParseValue(TargetText(old(statNumber.State())))
              && (counter.suffix, counter.prefix) == DetectAffixes(Trim(old(statNumber.TextContent())))
              && counter.delay == NumberOr(Some(index * 100), 0) && counter.decimals == 0 && counter.duration == 2000
  {
    counter := null;
    if !Claimed(statNumber.State()) {
      statNumber.dataset := statNumber.dataset["animated" := "true"];
      var target := TargetText(statNumber.State());
      var affixes := DetectAffixes(Trim(statNumber.TextContent()));
      counter := new AnimatedCounter(statNumber, target,
                                     CounterOptions(Some(2000), Some(index * 100), Some(0), Some(affixes.0), Some(affixes.1)));
      counter.Animate();
    }
  }

  /** `window.animateCounter`: a counter started on the element when it exists. */
  method AnimateCounter(element: Element?, targetValue: string, options: CounterOptions) returns (counter: AnimatedCounter?)
    modifies element
    ensures element == null ==> counter == null
    ensures element != null ==>
              && counter != null && fresh(counter) && counter.element == element && counter.animated
              && counter.targetValue == ParseValue(targetValue)
              && element.State() == old(element.State()).(classes := old(element.classes) + {"animating"})
  {
    counter := null;
    if element != null {
      counter := new AnimatedCounter(element, targetValue, options);
      counter.Animate();
    }
  }
}
