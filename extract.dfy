/**
 * The two text-to-number extractors of the controller
 * (Controllers/BierController.cs, ExtractDoubleValueFromStringPricePerUnitText
 * and ExtractIntValueFromshortDescription). Each regular expression is a
 * small scanner over the text, proved against a declarative statement of
 * what the pattern matches. Only ASCII digits count as digits.
 */
module Extract {
  import opened Wrappers

  /** Largest value of a C# `int`; `int.Parse` throws above it. */
  const Int32Max: int := 0x7FFF_FFFF

  /** What must follow the captured number in `\(([\d,]+) €/Liter\)`. */
  const PriceSuffix: string := " €/Liter)"

  predicate IsDigit(c: char) { '0' <= c <= '9' }

  /** The character class `[\d,]`. */
  predicate IsPriceChar(c: char) { IsDigit(c) || c == ',' }

  predicate AllDigits(s: string) { forall k | 0 <= k < |s| :: IsDigit(s[k]) }

  /** Value of a decimal numeral, most significant digit first. */
  function DigitsValue(ds: string): (v: nat)
    requires AllDigits(ds)
  {
    if ds == [] then 0 else 10 * DigitsValue(ds[..|ds| - 1]) + (ds[|ds| - 1] as int - '0' as int)
  }

  function Pow10(n: nat): (r: nat)
    ensures r > 0
  {
    if n == 0 then 1 else 10 * Pow10(n - 1)
  }

  /** Length of the maximal run of characters in `inClass` starting at position `i`. */
  function Run(s: string, i: nat, inClass: char -> bool): (n: nat)
    requires i <= |s|
    decreases |s| - i
    ensures i + n <= |s|
    ensures forall k | i <= k < i + n :: inClass(s[k])
    ensures i + n < |s| ==> !inClass(s[i + n])
  {
    if i == |s| || !inClass(s[i]) then 0 else 1 + Run(s, i + 1, inClass)
  }

  /** A run is determined by its end: a stretch of class characters followed by
      a non-class character (or the end of the text) is the maximal run. */
  lemma RunIsStretch(s: string, i: nat, n: nat, inClass: char -> bool)
    requires i + n <= |s|
    requires forall k | i <= k < i + n :: inClass(s[k])
    requires i + n < |s| ==> !inClass(s[i + n])
    ensures Run(s, i, inClass) == n
  {
  }

  // ---------------------------------------------------------------------
  // ExtractIntValueFromshortDescription: `^\d+`, then int.Parse

  /** The text the anchored pattern `^\d+` matches (empty when it fails). */
  function LeadingDigits(s: string): (ds: string)
    ensures AllDigits(ds)
  {
    s[..Run(s, 0, IsDigit)]
  }

  /** `int.Parse` succeeds on the matched digits: their value fits a C# `int`. */
  predicate CountFits(s: string) {
    DigitsValue(LeadingDigits(s)) <= Int32Max
  }

  /** The leading bottle count of a short description, or 0 when it does not
      start with a digit. */
  function ExtractIntValueFromShortDescription(input: string): (r: int)
    requires CountFits(input)
    ensures 0 <= r <= Int32Max
    ensures (input == [] || !IsDigit(input[0])) ==> r == 0
  {
    var ds := LeadingDigits(input);
    if ds == [] then 0 else DigitsValue(ds)
  }

  /** Decimal numeral of `n`, without leading zeros. */
  function NatToDigits(n: nat): (s: string)
    ensures AllDigits(s) && s != []
  {
    if n < 10 then [('0' as int + n) as char]
    else NatToDigits(n / 10) + [('0' as int + n % 10) as char]
  }

  lemma {:induction false} DigitsValueOfNatToDigits(n: nat)
    ensures DigitsValue(NatToDigits(n)) == n
  {
    var s := NatToDigits(n);
    if n >= 10 {
      assert s[..|s| - 1] == NatToDigits(n / 10);
      DigitsValueOfNatToDigits(n / 10);
    }
  }

  /** Round trip: a description that starts with the numeral of `n` and goes on
      with a non-digit yields `n`. */
  lemma {:induction false} BottleCountRoundTrip(n: nat, rest: string)
    requires n <= Int32Max
    requires rest == [] || !IsDigit(rest[0])
    ensures CountFits(NatToDigits(n) + rest)
    ensures ExtractIntValueFromShortDescription(NatToDigits(n) + rest) == n
  {
    var ds := NatToDigits(n);
    var s := ds + rest;
    RunIsStretch(s, 0, |ds|, IsDigit);
    assert LeadingDigits(s) == ds;
    DigitsValueOfNatToDigits(n);
  }

  /** The count is the value of the maximal leading digit run. */
  lemma LeadingCountIsMaximalRun(s: string, n: nat)
    requires 0 < n <= |s| && AllDigits(s[..n]) && (n < |s| ==> !IsDigit(s[n]))
    requires DigitsValue(s[..n]) <= Int32Max
    ensures CountFits(s)
    ensures ExtractIntValueFromShortDescription(s) == DigitsValue(s[..n])
  {
    RunIsStretch(s, 0, n, IsDigit);
  }

  // ---------------------------------------------------------------------
  // ExtractDoubleValueFromStringPricePerUnitText: `\(([\d,]+) €/Liter\)`,
  // commas to periods, then double.TryParse

  /** `w` occurs in `s` at position `i`. */
  ghost predicate Occurs(s: string, i: int, w: string) {
    0 <= i && i + |w| <= |s| && s[i..i + |w|] == w
  }

  lemma OccursSplit(s: string, i: int, a: string, b: string)
    ensures Occurs(s, i, a + b) <==> Occurs(s, i, a) && Occurs(s, i + |a|, b)
  {
    if 0 <= i && i + |a| + |b| <= |s| {
      assert s[i..i + |a| + |b|] == s[i..i + |a|] + s[i + |a|..i + |a| + |b|];
      if s[i..i + |a| + |b|] == a + b {
        assert s[i..i + |a|] == (a + b)[..|a|] == a;
        assert s[i + |a|..i + |a| + |b|] == (a + b)[|a|..] == b;
      }
    }
  }

  lemma OccursIn(a: string, w: string, b: string)
    ensures Occurs(a + w + b, |a|, w)
  {
    assert (a + w + b)[|a|..|a| + |w|] == w;
  }

  /** The pattern `\(([\d,]+) €/Liter\)` matches `s` at position `i` with group 1 equal to `cap`. */
  ghost predicate PriceMatchAt(s: string, i: int, cap: string) {
    cap != [] && IsPriceText(cap) && Occurs(s, i, "(" + cap + PriceSuffix)
  }

  /** Matched digits and commas only. */
  predicate IsPriceText(cap: string) { forall k | 0 <= k < |cap| :: IsPriceChar(cap[k]) }

  /** What a match at `i` forces on the text: an opening parenthesis, the
      group as the maximal run of digits and commas after it (the suffix
      starts with a blank, which is not in the class), then the suffix. */
  lemma MatchShape(s: string, i: int, cap: string)
    ensures PriceMatchAt(s, i, cap) ==>
              0 <= i < |s| && s[i] == '(' && Run(s, i + 1, IsPriceChar) == |cap|
              && s[i + 1..i + 1 + |cap|] == cap
              && Occurs(s, i + 1 + |cap|, PriceSuffix)
  {
    if PriceMatchAt(s, i, cap) {
      OccursSplit(s, i, "(" + cap, PriceSuffix);
      OccursSplit(s, i, "(", cap);
      assert s[i] == s[i..i + 1][0] == '(';
      forall k | i + 1 <= k < i + 1 + |cap|
        ensures IsPriceChar(s[k])
      {
        assert s[k] == s[i + 1..i + 1 + |cap|][k - i - 1] == cap[k - i - 1];
      }
      assert s[i + 1 + |cap|] == s[i + 1 + |cap|..i + 1 + |cap| + |PriceSuffix|][0] == ' ';
      RunIsStretch(s, i + 1, |cap|, IsPriceChar);
    }
  }

  /** The pattern's shape, checked at one position with the scanner. */
  predicate ShapeAt(s: string, i: nat)
    requires i <= |s|
  {
    i < |s| && s[i] == '('
    && var n := Run(s, i + 1, IsPriceChar);
    n > 0 && i + 1 + n + |PriceSuffix| <= |s| && s[i + 1 + n..i + 1 + n + |PriceSuffix|] == PriceSuffix
  }

  lemma MatchFromShape(s: string, i: nat)
    requires i <= |s| && ShapeAt(s, i)
    ensures PriceMatchAt(s, i, s[i + 1..i + 1 + Run(s, i + 1, IsPriceChar)])
  {
    var n := Run(s, i + 1, IsPriceChar);
    var cap := s[i + 1..i + 1 + n];
    assert IsPriceText(cap) by {
      forall k | 0 <= k < n ensures IsPriceChar(cap[k]) { assert cap[k] == s[i + 1 + k]; }
    }
    assert s[i..i + 1] == "(";
    OccursJoin(s, i, cap);
  }

  lemma OccursJoin(s: string, i: int, cap: string)
    requires Occurs(s, i, "(") && Occurs(s, i + 1, cap) && Occurs(s, i + 1 + |cap|, PriceSuffix)
    ensures Occurs(s, i, "(" + cap + PriceSuffix)
  {
    OccursSplit(s, i, "(", cap);
    OccursSplit(s, i, "(" + cap, PriceSuffix);
  }

  lemma NoMatchWithoutShape(s: string, i: nat)
    requires i <= |s| && !ShapeAt(s, i)
    ensures forall cap :: !PriceMatchAt(s, i, cap)
  {
    forall cap ensures !PriceMatchAt(s, i, cap) {
      MatchShape(s, i, cap);
    }
  }

  /** The pattern tried at one position: the group when it matches there. */
  function CaptureAt(s: string, i: nat): (r: Option<string>)
    requires i <= |s|
    ensures r.Some? ==> PriceMatchAt(s, i, r.value)
    ensures r.None? ==> forall cap :: !PriceMatchAt(s, i, cap)
  {
    if ShapeAt(s, i) then
      MatchFromShape(s, i);
      Some(s[i + 1..i + 1 + Run(s, i + 1, IsPriceChar)])
    else
      NoMatchWithoutShape(s, i);
      None
  }

  /** Regex.Match: the group of the leftmost position at or after `from` where the pattern matches. */
  function LeftmostPriceCapture(s: string, from: nat): (r: Option<string>)
    requires from <= |s|
    decreases |s| - from
    ensures r.None? ==> forall i, cap | from <= i :: !PriceMatchAt(s, i, cap)
    ensures r.Some? ==> exists i | from <= i :: PriceMatchAt(s, i, r.value)
                          && forall j, cap | from <= j < i :: !PriceMatchAt(s, j, cap)
  {
    if from == |s| then
      assert forall i, cap | from <= i :: !PriceMatchAt(s, i, cap) by {
        forall i, cap | from <= i ensures !PriceMatchAt(s, i, cap) { MatchShape(s, i, cap); }
      }
      None
    else
      match CaptureAt(s, from)
      case Some(cap) => Some(cap)
      case None => LeftmostPriceCapture(s, from + 1)
  }

  /** `Replace(",", ".")`. */
  function CommasToPoints(s: string): (r: string)
    ensures |r| == |s|
    ensures forall k | 0 <= k < |s| :: r[k] == (if s[k] == ',' then '.' else s[k])
  {
    seq(|s|, k requires 0 <= k < |s| => if s[k] == ',' then '.' else s[k])
  }

  /** The exact value of the numeral `whole.frac`. */
  function DecimalValue(whole: string, frac: string): (v: real)
    requires AllDigits(whole) && AllDigits(frac)
  {
    DigitsValue(whole) as real + DigitsValue(frac) as real / Pow10(|frac|) as real
  }

  predicate IsPointText(t: string) { forall k | 0 <= k < |t| :: IsDigit(t[k]) || t[k] == '.' }

  lemma {:induction false} NoPointIffAllDigits(t: string)
    requires IsPointText(t)
    ensures multiset(t)['.'] == 0 <==> AllDigits(t)
  {
    if t != [] {
      assert t == [t[0]] + t[1..];
      NoPointIffAllDigits(t[1..]);
    }
  }

  /** `double.TryParse(text, NumberStyles.Any, CultureInfo.InvariantCulture, ...)`
      on a text of digits and periods: the period is the decimal point, the
      digits before it are the whole part and those after it the fraction. */
  function ParseDecimal(t: string): (r: Option<real>)
    requires IsPointText(t)
    ensures r.Some? ==> r.value >= 0.0
  {
    var w := Run(t, 0, IsDigit);
    if w == |t| then
      if w > 0 then Some(DigitsValue(t) as real) else None
    else
      var frac := t[w + 1..];
      if AllDigits(frac) && (w > 0 || frac != []) then
        assert AllDigits(t[..w]);
        Some(DecimalValue(t[..w], frac))
      else None
  }

  /** The parse succeeds exactly when there is at most one period and at least one digit. */
  lemma ParseDecimalSucceeds(t: string)
    requires IsPointText(t)
    ensures ParseDecimal(t).Some? <==> multiset(t)['.'] <= 1 && exists k | 0 <= k < |t| :: IsDigit(t[k])
  {
    var w := Run(t, 0, IsDigit);
    NoPointIffAllDigits(t);
    if w < |t| {
      var frac := t[w + 1..];
      assert t == t[..w] + [t[w]] + frac;
      assert t[w] == '.';
      assert AllDigits(t[..w]);
      NoPointIffAllDigits(t[..w]);
      NoPointIffAllDigits(frac);
      assert multiset(t)['.'] == 1 + multiset(frac)['.'];
      assert w > 0 ==> IsDigit(t[0]);
      assert frac != [] && AllDigits(frac) ==> IsDigit(t[w + 1]);
    }
  }

  /** The group of a match, commas turned into periods, then parsed. */
  function ParsePriceText(cap: string): (r: Option<real>)
    requires IsPriceText(cap)
  {
    ParseDecimal(CommasToPoints(cap))
  }

  /** The per-litre price stated in the text, or 0 when the pattern does not
      occur or its number does not parse. */
  function ExtractDoubleValueFromStringPricePerUnitText(input: string): (r: real)
    ensures r >= 0.0
    ensures (forall i, cap :: !PriceMatchAt(input, i, cap)) ==> r == 0.0
  {
    match LeftmostPriceCapture(input, 0)
    case None => 0.0
    case Some(cap) =>
      assert IsPriceText(cap);
      match ParsePriceText(cap)
      case Some(v) => v
      case None => 0.0
  }

  /** The result is decided by the leftmost match: its number when that parses, 0 otherwise. */
  lemma PriceFromLeftmostMatch(s: string, i: nat, cap: string)
    requires PriceMatchAt(s, i, cap)
    requires forall j, c | 0 <= j < i :: !PriceMatchAt(s, j, c)
    ensures IsPriceText(cap)
    ensures ParsePriceText(cap).Some? ==> ExtractDoubleValueFromStringPricePerUnitText(s) == ParsePriceText(cap).value
    ensures ParsePriceText(cap).None? ==> ExtractDoubleValueFromStringPricePerUnitText(s) == 0.0
  {
    LeftmostIs(s, i, cap);
  }

  /** The leftmost match has a single group: the scan returns it. */
  lemma LeftmostIs(s: string, i: nat, cap: string)
    requires PriceMatchAt(s, i, cap)
    requires forall j, c | 0 <= j < i :: !PriceMatchAt(s, j, c)
    ensures LeftmostPriceCapture(s, 0) == Some(cap)
  {
    var r := LeftmostPriceCapture(s, 0);
    assert r.Some?;
    var i' :| 0 <= i' && PriceMatchAt(s, i', r.value) && forall j, c | 0 <= j < i' :: !PriceMatchAt(s, j, c);
    assert i' == i;
    MatchShape(s, i, cap);
    MatchShape(s, i, r.value);
  }

  lemma ParseDecimalWithPoint(whole: string, frac: string)
    requires AllDigits(whole) && AllDigits(frac) && whole != []
    ensures IsPointText(whole + "." + frac)
    ensures ParseDecimal(whole + "." + frac) == Some(DecimalValue(whole, frac))
  {
    var t := whole + "." + frac;
    RunIsStretch(t, 0, |whole|, IsDigit);
    assert t[..|whole|] == whole;
    assert t[|whole| + 1..] == frac;
  }

  /** A stated price `(whole,frac €/Liter)` with no parenthesis before it reads as `whole.frac`. */
  lemma PriceOfStatedNumber(pre: string, whole: string, frac: string, post: string)
    requires forall k | 0 <= k < |pre| :: pre[k] != '('
    requires AllDigits(whole) && AllDigits(frac) && whole != []
    ensures ExtractDoubleValueFromStringPricePerUnitText(pre + "(" + whole + "," + frac + PriceSuffix + post)
            == DecimalValue(whole, frac)
  {
    var cap := whole + "," + frac;
    var w := "(" + cap + PriceSuffix;
    var s := pre + w + post;
    assert s == pre + "(" + whole + "," + frac + PriceSuffix + post;
    assert IsPriceText(cap) by {
      forall k | 0 <= k < |cap| ensures IsPriceChar(cap[k]) {
        if k < |whole| { assert cap[k] == whole[k]; }
        else if k > |whole| { assert cap[k] == frac[k - |whole| - 1]; }
      }
    }
    OccursIn(pre, w, post);
    forall j, c | 0 <= j < |pre| ensures !PriceMatchAt(s, j, c) {
      MatchShape(s, j, c);
      assert s[j] == pre[j];
    }
    assert CommasToPoints(cap) == whole + "." + frac;
    ParseDecimalWithPoint(whole, frac);
    PriceFromLeftmostMatch(s, |pre|, cap);
  }

  /** A leftmost group with two or more commas fails to parse, so the result is 0 (e.g. `(1,2,3 €/Liter)`). */
  lemma PriceWithSeveralCommasIsZero(s: string, i: nat, cap: string)
    requires PriceMatchAt(s, i, cap)
    requires forall j, c | 0 <= j < i :: !PriceMatchAt(s, j, c)
    requires multiset(cap)[','] >= 2
    ensures ExtractDoubleValueFromStringPricePerUnitText(s) == 0.0
  {
    PriceFromLeftmostMatch(s, i, cap);
    CommasBecomePoints(cap);
    ParseDecimalSucceeds(CommasToPoints(cap));
  }

  lemma {:induction false} CommasBecomePoints(cap: string)
    requires IsPriceText(cap)
    ensures multiset(CommasToPoints(cap))['.'] == multiset(cap)[',']
  {
    if cap != [] {
      var t := CommasToPoints(cap);
      assert t[1..] == CommasToPoints(cap[1..]);
      assert multiset(t) == multiset{t[0]} + multiset(t[1..]) by { assert t == [t[0]] + t[1..]; }
      assert multiset(cap) == multiset{cap[0]} + multiset(cap[1..]) by { assert cap == [cap[0]] + cap[1..]; }
      CommasBecomePoints(cap[1..]);
    }
  }
}
