/**
 Numbers as they are written: what the gate registers for one amount in lakh, crore or per cent, one
 amount of money or one plain number in a calm text, by the digits and words that are there.
 */
module TokenScan {
  import opened Options
  import opened Digits
  import opened NumberPatterns
  import opened NumberExtraction
  import opened FigureScan
  import opened MoneyFormat

  // ----- the written number ---------------------------------------------------------------------

  function NumStr(whole: string, frac: string): string { whole + if frac == "" then "" else "." + frac }

  predicate IsNumber(whole: string, frac: string) { AllDigits(whole) && whole != "" && AllDigits(frac) }

  /** n / den, rounded half up. */
  predicate IsHalfUp(n: nat, den: nat, v: int) { 2 * den * v <= 2 * n + den < 2 * den * v + 2 * den }

  /** whole.frac times scale, rounded half up; exact without a fraction. */
  predicate IsTimes(whole: string, frac: string, scale: nat, v: int)
    requires IsNumber(whole, frac)
  {
    IsHalfUp(Value(whole + frac) * scale, Pow10(|frac|), v)
  }

  /** No digit, nor a point and a digit. */
  predicate NoMoreNumber(r: string) {
    r == "" || (!IsDigit(r[0]) && (r[0] == '.' ==> |r| == 1 || !IsDigit(r[1])))
  }

  lemma NumberHere(whole: string, frac: string, r: string)
    requires IsNumber(whole, frac) && NoMoreNumber(r)
    ensures
      var s := NumStr(whole, frac) + r;
      && NumberRun(s) == |NumStr(whole, frac)| && DigitRun(s) == |whole| && FractionRun(s, |whole|) == |frac|
      && s[..|whole|] == whole && (frac != "" ==> s[|whole| + 1..|whole| + 1 + |frac|] == frac)
  {
    if frac == "" {
      assert NumStr(whole, frac) == whole;
      WholeHere(whole, r);
    } else {
      PointHere(whole, frac, r);
      hide DigitRun;
    }
  }

  lemma WholeHere(whole: string, r: string)
    requires AllDigits(whole) && whole != "" && NoMoreNumber(r)
    ensures DigitRun(whole + r) == |whole| && FractionRun(whole + r, |whole|) == 0 && (whole + r)[..|whole|] == whole
  {
    var s := whole + r;
    DigitsRun(whole, r);
    if r != "" && r[0] == '.' {
      assert s[|whole| + 1..] == r[1..];
      NoDigitRun(r[1..]);
    }
    hide DigitRun;
    assert r != "" ==> s[|whole|] == r[0];
  }

  lemma PointHere(whole: string, frac: string, r: string)
    requires AllDigits(whole) && whole != "" && AllDigits(frac) && frac != "" && NoMoreNumber(r)
    ensures
      var s := NumStr(whole, frac) + r;
      && DigitRun(s) == |whole| && FractionRun(s, |whole|) == |frac|
      && s[..|whole|] == whole && s[|whole| + 1..|whole| + 1 + |frac|] == frac
  {
    hide DigitRun, GroupRun;
    var s, tail := NumStr(whole, frac) + r, frac + r;
    assert s == whole + ("." + tail);
    DigitsRun(whole, "." + tail);
    DigitsRun(frac, r);
    BehindPoint(whole, tail, |frac|);
    assert tail[..|frac|] == frac;
  }

  lemma BehindPoint(whole: string, tail: string, n: nat)
    requires n <= |tail|
    ensures
      var s, m := whole + ("." + tail), |whole|;
      s[..m] == whole && s[m] == '.' && s[m + 1..] == tail && s[m + 1..m + 1 + n] == tail[..n]
  {
  }

  lemma NoDigitRun(s: string)
    requires s == "" || !IsDigit(s[0])
    ensures DigitRun(s) == 0
  {
  }

  lemma ScaledHere(whole: string, frac: string, r: string, scale: nat)
    requires IsNumber(whole, frac) && NoMoreNumber(r)
    ensures IsTimes(whole, frac, scale, ScaledToBigint(NumStr(whole, frac) + r, scale))
  {
    NumberHere(whole, frac, r);
    hide Value, DigitRun, FractionRun, NumStr;
    if frac == "" {
      assert whole + frac == whole;
      OneIsPow10();
    } else {
      HalfUp(Value(whole + frac), scale, Pow10(|frac|));
    }
  }

  lemma OneIsPow10()
    ensures Pow10(0) == 1
  {
  }

  lemma HalfUp(v: nat, scale: nat, den: nat)
    requires den > 0
    ensures IsHalfUp(v * scale, den, RoundScaled(v, scale, den))
  {
    var n, d := 2 * (v * scale) + den, 2 * den;
    var q := n / d;
    assert n == q * d + n % d;
    assert q * d == 2 * den * q;
  }

  // ----- what is written around it --------------------------------------------------------------

  predicate IsSignStr(s: string) { s == "" || s == "-" || s == "−" }

  predicate IsApprox(s: string) {
    s == "" || s == "~" || s == "approx " || s == "approx. " || s == "approximately "
  }

  predicate IsCurrency(s: string) { s == "₹" || s == "Rs" || s == "Rs." || s == "INR" || s == "INR " }

  /** A word that multiplies by scale, and the pattern that knows it. */
  predicate IsUnit(p: Pattern, unit: string, scale: nat) {
    match p
    case LakhPattern => scale == 100_000 && unit in {"L", "l", "Lakh", "lakh", "Lakhs", "lakhs"}
    case CrorePattern => scale == 10_000_000 && unit in {"Cr", "cr", "Crore", "crore", "Crores", "crores"}
    case PercentPattern => scale == 100 && unit == "%"
    case _ => false
  }

  lemma UnitHere(p: Pattern, unit: string, scale: nat, k: string)
    requires IsUnit(p, unit, scale) && NoLetterFirst(k)
    ensures UnitLength(p, unit + k) == |unit| && Scale(p) == scale && unit != ""
    ensures !IsSpace(unit[0]) && !IsDigit(unit[0]) && unit[0] != '.'
  {
    var s := unit + k;
    assert k != "" ==> s[|unit|] == k[0];
    assert s[|unit|..] == k;
    if p.LakhPattern? { LakhHere(unit, k); }
    if p.CrorePattern? { CroreHere(unit, k); }
  }

  lemma LakhHere(unit: string, k: string)
    requires unit in {"L", "l", "Lakh", "lakh", "Lakhs", "lakhs"} && NoLetterFirst(k)
    ensures LakhUnit(unit + k) == |unit|
  {
    var s := unit + k;
    assert s[1..] == unit[1..] + k && s[|unit|..] == k;
    assert k != "" ==> s[|unit|] == k[0];
    if |unit| == 4 { assert |s| > 4 ==> s[4..][0] == k[0]; }
  }

  lemma CroreHere(unit: string, k: string)
    requires unit in {"Cr", "cr", "Crore", "crore", "Crores", "crores"} && NoLetterFirst(k)
    ensures CroreUnit(unit + k) == |unit|
  {
    var s := unit + k;
    assert s[1..] == unit[1..] + k && s[|unit|..] == k;
    assert k != "" ==> s[|unit|] == k[0];
  }

  predicate StartsWithDigit(s: string) { s != "" && IsDigit(s[0]) }

  lemma ApproxHere(ap: string, cur: string, rest: string)
    requires IsApprox(ap) && (cur == "" || IsCurrency(cur)) && StartsWithDigit(rest)
    ensures ApproxRun(ap + (cur + rest)) == |ap| && !IsSpace((ap + (cur + rest))[0]) && !IsSign((ap + (cur + rest))[0])
    ensures CurrencyRun(cur + rest, false) == |cur|
  {
    CurrencyHere(cur, rest, false);
    var r := cur + rest;
    assert r[0] == if cur == "" then rest[0] else cur[0];
    if ap == "" {
      assert ap + r == r;
      NoApproxHere(r);
    } else {
      hide CurrencyRun;
      ApproxWord(ap, r);
    }
  }

  lemma ApproxWord(ap: string, r: string)
    requires IsApprox(ap) && ap != "" && r != "" && !IsSpace(r[0])
    ensures ApproxRun(ap + r) == |ap|
  {
    var s := ap + r;
    assert forall i | 0 <= i < |ap| :: s[i] == ap[i];
    NoSpaces(r);
    match ap
    case "~" => assert s[0] == '~' && s[1..] == r;
    case "approx " =>
      assert s[6..] == " " + r && s[6] == ' ';
      OneSpace(r);
    case "approx. " =>
      assert s[7..] == " " + r && s[6] == '.';
      OneSpace(r);
    case "approximately " =>
      assert s[13..] == " " + r;
      OneSpace(r);
    case _ =>
  }

  lemma NoSpaces(r: string)
    requires r != "" && !IsSpace(r[0])
    ensures SpaceRun(r) == 0
  {
  }

  lemma OneSpace(r: string)
    requires r != "" && !IsSpace(r[0])
    ensures SpaceRun(" " + r) == 1
  {
    assert (" " + r)[1..] == r;
  }

  lemma CurrencyHere(cur: string, rest: string, anyCase: bool)
    requires (cur == "" || IsCurrency(cur)) && StartsWithDigit(rest)
    ensures CurrencyRun(cur + rest, anyCase) == |cur|
  {
    var s := cur + rest;
    assert forall i | 0 <= i < |cur| :: s[i] == cur[i];
    assert s[|cur|] == rest[0] && s[|cur|..] == rest;
    NoSpaces(rest);
    match cur
    case "INR" => assert s[3..] == rest;
    case "INR " =>
      assert s[3..] == " " + rest;
      OneSpace(rest);
    case _ =>
  }

  /** What stands in front of the digits: an optional space or an optional sign, and the words. */
  predicate IsFront(p: Pattern, lead: string, sign: string, ap: string, cur: string) {
    && IsLead(lead) && IsSignStr(sign) && IsApprox(ap) && (cur == "" || IsCurrency(cur))
    && (p.PercentPattern? ==> ap == "" && cur == "")
  }

  /** Behind the sign, or the space when there is no sign, the pattern's prefix ends at the digits. */
  lemma PrefixHere(p: Pattern, t: string, sign: string, ap: string, cur: string, rest: string)
    requires IsFront(p, t, sign, ap, cur) && StartsWithDigit(rest) && (t == "" || sign == "")
    ensures
      var s := t + (sign + (ap + (cur + rest)));
      var n := |t| + |sign| + |ap| + |cur|;
      && SignRun(s) == |sign| && n <= |s| && s[n..] == rest
      && n == if p.PercentPattern? then SignRun(s) + SpaceRun(s[SignRun(s)..]) else PrefixRun(s)
  {
    hide *;
    FrontParts(p, t, sign, ap, cur);
    ApproxHere(ap, cur, rest);
    var words := ap + (cur + rest);
    var s, a := t + (sign + words), |t| + |sign|;
    WordsNotEmpty(ap, cur, rest);
    SignHere(t, sign, words);
    WordsThen(s, a, ap, cur, rest);
  }

  lemma FrontParts(p: Pattern, t: string, sign: string, ap: string, cur: string)
    requires IsFront(p, t, sign, ap, cur)
    ensures IsLead(t) && IsSignStr(sign) && IsApprox(ap) && (cur == "" || IsCurrency(cur))
    ensures p.PercentPattern? ==> |ap| == 0 && |cur| == 0
  {
  }

  lemma WordsNotEmpty(ap: string, cur: string, rest: string)
    requires StartsWithDigit(rest)
    ensures ap + (cur + rest) != ""
  {
  }

  lemma SignHere(t: string, sign: string, words: string)
    requires IsLead(t) && IsSignStr(sign) && (t == "" || sign == "")
    requires words != "" && !IsSpace(words[0]) && !IsSign(words[0])
    ensures
      var s := t + (sign + words);
      var a := |t| + |sign|;
      SignRun(s) == |sign| && a == SignRun(s) + SpaceRun(s[SignRun(s)..]) && a <= |s| && s[a..] == words
  {
    var s := t + (sign + words);
    NoSpaces(words);
    if sign != "" {
      assert s == sign + words && s[1..] == words && s[0] == sign[0];
    } else if t == " " {
      assert s == " " + words && s[0] == ' ' && s[0..] == s && s[1..] == words;
      OneSpace(words);
    } else {
      assert s == words && s[0..] == s;
    }
  }

  lemma BehindWords(s: string, a: nat, ap: string, cur: string, rest: string)
    requires a <= |s| && s[a..] == ap + (cur + rest)
    ensures a + |ap| + |cur| <= |s| && s[a + |ap|..] == cur + rest && s[a + |ap| + |cur|..] == rest
  {
    SliceTwice(s, a, ap, cur + rest);
    SliceTwice(s, a + |ap|, cur, rest);
  }

  lemma WordsThen(s: string, a: nat, ap: string, cur: string, rest: string)
    requires a <= |s| && s[a..] == ap + (cur + rest) && a == SignRun(s) + SpaceRun(s[SignRun(s)..])
    requires ApproxRun(ap + (cur + rest)) == |ap| && CurrencyRun(cur + rest, false) == |cur|
    ensures
      var n := a + |ap| + |cur|;
      n <= |s| && s[n..] == rest && PrefixRun(s) == n
  {
    hide *;
    BehindWords(s, a, ap, cur, rest);
    PrefixParts(s, a, |ap|, |cur|);
  }

  lemma PrefixParts(s: string, a: nat, ap: nat, cur: nat)
    requires a == SignRun(s) + SpaceRun(s[SignRun(s)..]) && a <= |s| && ApproxRun(s[a..]) == ap
    requires a + ap <= |s| && CurrencyRun(s[a + ap..], false) == cur
    ensures PrefixRun(s) == a + ap + cur
  {
    hide SignRun, SpaceRun, ApproxRun, CurrencyRun;
  }

  // ----- a number with its unit -----------------------------------------------------------------

  predicate IsGap(gap: string) { gap == "" || gap == " " }

  function UnitTail(gap: string, unit: string, k: string): string { gap + (unit + k) }

  lemma UnitBehindNumber(p: Pattern, gap: string, unit: string, scale: nat, k: string)
    requires IsGap(gap) && IsUnit(p, unit, scale) && NoLetterFirst(k)
    ensures
      var r := UnitTail(gap, unit, k);
      && NoMoreNumber(r) && r != "" && SpaceRun(r) == |gap| && UnitLength(p, r[|gap|..]) == |unit| && Scale(p) == scale
  {
    UnitHere(p, unit, scale, k);
    hide UnitLength, IsUnit;
    var u := unit + k;
    assert u[0] == unit[0];
    if gap == "" {
      assert gap + u == u && u[0..] == u;
      NoSpaces(u);
    } else {
      assert (gap + u)[0] == ' ' && (gap + u)[1..] == u;
      OneSpace(u);
    }
  }

  /** The pattern takes the whole of it, with the value it says. */
  lemma UnitTokenAt(
    p: Pattern, prev: Option<char>, t: string, sign: string, ap: string, cur: string, whole: string, frac: string,
    gap: string, unit: string, scale: nat, k: string) returns (v: int)
    requires IsFront(p, t, sign, ap, cur) && (t == "" || sign == "") && IsNumber(whole, frac)
    requires IsGap(gap) && IsUnit(p, unit, scale) && NoLetterFirst(k)
    ensures IsTimes(whole, frac, scale, v)
    ensures
      var s := t + (sign + (ap + (cur + (NumStr(whole, frac) + UnitTail(gap, unit, k)))));
      At(p, prev, s) == Some(Hit(if sign == "" then v else 0 - v, |t| + |sign| + |ap| + |cur| +
                                 |NumStr(whole, frac)| + |gap| + |unit|))
  {
    hide *;
    var r, num := UnitTail(gap, unit, k), NumStr(whole, frac);
    v := ScaledToBigint(num + r, scale);
    UnitBehindNumber(p, gap, unit, scale, k);
    NumberHere(whole, frac, r);
    ScaledHere(whole, frac, r, scale);
    FirstDigit(whole, frac, r);
    PrefixHere(p, t, sign, ap, cur, num + r);
    NumberIsThere(whole, frac);
    NotOther(p, unit, scale);
    var s := t + (sign + (ap + (cur + (num + r))));
    UnitTokenParts(p, s, |t| + |sign| + |ap| + |cur|, num, r, |gap|, |unit|);
    AtIsUnitAt(p, prev, s);
    FrontParts(p, t, sign, ap, cur);
    SignLength(sign, v);
  }

  lemma UnitTokenParts(p: Pattern, s: string, a: nat, num: string, r: string, gap: nat, unit: nat)
    requires a <= |s| && s[a..] == num + r && |num| > 0 && NumberRun(num + r) == |num|
    requires SpaceRun(r) == gap && UnitLength(p, r[gap..]) == unit && unit > 0
    requires a == if p.PercentPattern? then SignRun(s) + SpaceRun(s[SignRun(s)..]) else PrefixRun(s)
    requires !p.CurrencyPattern? && !p.PlainPattern?
    ensures UnitAt(p, s) ==
            Some(Hit(Negated(SignRun(s) == 1, ScaledToBigint(num + r, Scale(p))), a + |num| + gap + unit))
  {
    hide *;
    SliceTwice(s, a, num, r);
    TailSlice(s, a + |num|, r, gap);
    UnitAtParts(p, s, a);
  }

  lemma TailSlice(s: string, a: nat, r: string, n: nat)
    requires a <= |s| && s[a..] == r && n <= |r|
    ensures a + n <= |s| && s[a + n..] == r[n..]
  {
  }

  lemma FirstDigit(whole: string, frac: string, r: string)
    requires IsNumber(whole, frac)
    ensures StartsWithDigit(NumStr(whole, frac) + r)
  {
  }

  lemma NumberIsThere(whole: string, frac: string)
    requires IsNumber(whole, frac)
    ensures |NumStr(whole, frac)| > 0
  {
  }

  lemma NotOther(p: Pattern, unit: string, scale: nat)
    requires IsUnit(p, unit, scale)
    ensures !p.CurrencyPattern? && !p.PlainPattern? && unit != ""
  {
  }

  lemma AtIsUnitAt(p: Pattern, prev: Option<char>, s: string)
    requires !p.CurrencyPattern? && !p.PlainPattern?
    ensures At(p, prev, s) == UnitAt(p, s)
  {
    hide UnitAt;
  }

  lemma SignLength(sign: string, v: int)
    requires IsSignStr(sign)
    ensures Negated(|sign| == 1, v) == if sign == "" then v else 0 - v
  {
  }

  // ----- money and plain numbers ----------------------------------------------------------------

  /** A digit, then digits and separators. */
  predicate IsGroup(g: string) { g != "" && IsDigit(g[0]) && forall i | 0 <= i < |g| :: IsDigit(g[i]) || g[i] == ',' }

  function FracStr(frac: string): string { if frac == "" then "" else "." + frac }

  /** No digit or separator, nor a point and a digit. */
  predicate NoMoreGroup(r: string) { NoMoreNumber(r) && (r == "" || r[0] != ',') }

  lemma {:induction false} CommasStripped(g: string)
    requires forall i | 0 <= i < |g| :: IsDigit(g[i]) || g[i] == ','
    ensures WithoutCommas(g) == StripCommas(g)
    decreases |g|
  {
    if g != "" { CommasStripped(g[1..]); }
  }

  lemma GroupHere(g: string, frac: string, k: string)
    requires IsGroup(g) && AllDigits(frac) && NoMoreGroup(k)
    ensures
      var s := g + (FracStr(frac) + k);
      && GroupRun(s) == |g| && s[..|g|] == g && FractionRun(s, |g|) == |frac| && s[|g| + |FracStr(frac)|..] == k
      && |FracStr(frac)| == Pointed(|frac|)
  {
    hide GroupRun, FractionRun, IsGroup;
    FracFirst(frac, k);
    GroupFirst(g, FracStr(frac) + k);
    BehindGroup(g, FracStr(frac), k);
    if frac == "" {
      assert FracStr(frac) + k == k;
      NoFraction(g, k);
    } else {
      SomeFraction(g, frac, k);
    }
  }

  lemma FracFirst(frac: string, k: string)
    requires NoMoreGroup(k)
    ensures var r := FracStr(frac) + k; r == "" || (!IsDigit(r[0]) && r[0] != ',')
  {
  }

  lemma GroupFirst(g: string, r: string)
    requires IsGroup(g) && (r == "" || (!IsDigit(r[0]) && r[0] != ','))
    ensures GroupRun(g + r) == |g| && (g + r)[..|g|] == g
  {
    var s := g + r;
    assert r != "" ==> s[|g|] == r[0];
    assert forall i | 0 <= i < |g| :: s[i] == g[i];
    GroupStops(s, |g|);
  }

  lemma BehindGroup(g: string, f: string, k: string)
    ensures (g + (f + k))[|g| + |f|..] == k
  {
  }

  lemma NoFraction(g: string, k: string)
    requires NoMoreNumber(k)
    ensures FractionRun(g + k, |g|) == 0
  {
    var s := g + k;
    if k != "" && k[0] == '.' {
      assert s[|g| + 1..] == k[1..];
      NoDigitRun(k[1..]);
    }
    hide DigitRun;
    assert k != "" ==> s[|g|] == k[0];
  }

  lemma SomeFraction(g: string, frac: string, k: string)
    requires AllDigits(frac) && frac != "" && NoMoreNumber(k)
    ensures FractionRun(g + (FracStr(frac) + k), |g|) == |frac|
  {
    hide DigitRun, GroupRun;
    var tail := frac + k;
    assert FracStr(frac) + k == "." + tail;
    DigitsRun(frac, k);
    BehindPoint(g, tail, |frac|);
  }

  lemma GroupStops(s: string, n: nat)
    requires n <= |s| && (forall i | 0 <= i < n :: IsDigit(s[i]) || s[i] == ',')
    requires n < |s| ==> !IsDigit(s[n]) && s[n] != ','
    ensures GroupRun(s) == n
  {
  }

  predicate IsAnyCurrency(c: string) {
    c in {"₹", "Rs", "rs", "RS", "Rs.", "rs.", "RS.", "INR", "inr", "Inr", "INR ", "inr "}
  }

  lemma AnyCurrencyHere(cur: string, rest: string)
    requires IsAnyCurrency(cur) && StartsWithDigit(rest)
    ensures CurrencyRun(cur + rest, true) == |cur| && !IsSpace((cur + rest)[0]) && !IsSign((cur + rest)[0])
  {
    var s := cur + rest;
    assert forall i | 0 <= i < |cur| :: s[i] == cur[i];
    assert s[|cur|] == rest[0] && s[|cur|..] == rest;
    NoSpaces(rest);
    if |cur| == 3 && cur[1] != 's' && cur[1] != 'S' { assert s[3..] == rest; }
    if |cur| == 4 {
      assert s[3..] == " " + rest;
      OneSpace(rest);
    }
  }

  /** Money: the currency pattern takes all of it, and registers the digits that are there, cut off at the point. */
  lemma MoneyTokenAt(
    prev: Option<char>, t: string, sign: string, cur: string, g: string, frac: string, w: string, k: string)
    requires IsLead(t) && IsSignStr(sign) && (t == "" || sign == "") && IsAnyCurrency(cur)
    requires IsGroup(g) && AllDigits(frac) && NoMoreGroup(k) && AllDigits(w) && StripCommas(g) == w
    ensures
      At(CurrencyPattern, prev, t + (sign + (cur + (g + (FracStr(frac) + k))))) ==
      Some(Hit(if sign == "" then Value(w) else 0 - Value(w), |t| + |sign| + |cur| + |g| + |FracStr(frac)|))
  {
    hide *;
    var rest := g + (FracStr(frac) + k);
    GroupStarts(g, FracStr(frac) + k);
    AnyCurrencyHere(cur, rest);
    CurNotEmpty(cur, rest);
    var s := t + (sign + (cur + rest));
    SignHere(t, sign, cur + rest);
    GroupReads(g, frac, w, k);
    MoneyBehind(s, |t| + |sign|, cur, rest);
    SignLength(sign, Value(w));
    AtIsCurrencyAt(prev, s);
  }

  lemma MoneyBehind(s: string, a: nat, cur: string, rest: string)
    requires a <= |s| && s[a..] == cur + rest && a == SignRun(s) + SpaceRun(s[SignRun(s)..])
    requires CurrencyRun(cur + rest, true) == |cur| > 0 && StartsWithDigit(rest)
    ensures
      var n := GroupRun(rest);
      CurrencyAt(s) == Some(Hit(Negated(SignRun(s) == 1, Value(WithoutCommas(rest[..n]))),
                                a + |cur| + n + Pointed(FractionRun(rest, n))))
  {
    hide *;
    SliceTwice(s, a, cur, rest);
    MoneyParts(s, a, |cur|, rest);
  }

  /** The digits of the group, and where number and decimals end. */
  lemma GroupReads(g: string, frac: string, w: string, k: string)
    requires IsGroup(g) && AllDigits(frac) && NoMoreGroup(k) && AllDigits(w) && StripCommas(g) == w
    ensures
      var rest := g + (FracStr(frac) + k);
      var n := GroupRun(rest);
      && n == |g| > 0 && Value(WithoutCommas(rest[..n])) == Value(w)
      && Pointed(FractionRun(rest, n)) == |FracStr(frac)|
      && n + |FracStr(frac)| <= |rest| && rest[n + |FracStr(frac)|..] == k
  {
    GroupHere(g, frac, k);
    GroupIsStripped(g);
    hide GroupRun, FractionRun, WithoutCommas, StripCommas, Value, FracStr;
  }

  lemma GroupStarts(g: string, r: string)
    requires IsGroup(g)
    ensures StartsWithDigit(g + r)
  {
  }

  lemma CurNotEmpty(cur: string, rest: string)
    requires IsAnyCurrency(cur)
    ensures cur + rest != "" && |cur| > 0
  {
  }

  lemma GroupIsStripped(g: string)
    requires IsGroup(g)
    ensures forall i | 0 <= i < |g| :: IsDigit(g[i]) || g[i] == ','
    ensures WithoutCommas(g) == StripCommas(g)
  {
    CommasStripped(g);
  }

  lemma MoneyParts(s: string, a: nat, c: nat, rest: string)
    requires a <= |s| && a == SignRun(s) + SpaceRun(s[SignRun(s)..]) && CurrencyRun(s[a..], true) == c > 0
    requires a + c <= |s| && s[a + c..] == rest && StartsWithDigit(rest)
    ensures
      var n := GroupRun(rest);
      CurrencyAt(s) == Some(Hit(Negated(SignRun(s) == 1, Value(WithoutCommas(rest[..n]))),
                                a + c + n + Pointed(FractionRun(rest, n))))
  {
    hide CurrencyRun, SpaceRun, SignRun, GroupRun, FractionRun, WithoutCommas, Value;
  }

  lemma AtIsCurrencyAt(prev: Option<char>, s: string)
    ensures At(CurrencyPattern, prev, s) == CurrencyAt(s)
  {
    hide CurrencyAt;
  }

  /** Not behind a rupee sign or a word. */
  predicate OnItsOwn(prev: Option<char>) { prev.Some? ==> prev.value != '₹' && !IsWordChar(prev.value) }

  /** A plain number, signed or not, with no unit behind it: its own digits, cut off at the point, never negative. */
  lemma PlainTokenAt(prev: Option<char>, sign: string, g: string, frac: string, w: string, k: string)
    requires OnItsOwn(prev) && IsSignStr(sign) && IsGroup(g) && AllDigits(frac) && NoMoreGroup(k) && !UnitFollows(k)
    requires AllDigits(w) && StripCommas(g) == w
    ensures At(PlainPattern, prev, sign + (g + (FracStr(frac) + k))) ==
            Some(Hit(Value(w), |sign| + |g| + |FracStr(frac)|))
  {
    hide *;
    var rest := g + (FracStr(frac) + k);
    GroupStarts(g, FracStr(frac) + k);
    GroupReads(g, frac, w, k);
    SignFirst(sign, rest);
    PlainEndHere(rest, |g|, |FracStr(frac)|);
    PlainParts(prev, sign + rest, rest);
    TwiceNegated(|sign| == 1, Value(w));
  }

  lemma SignFirst(sign: string, rest: string)
    requires IsSignStr(sign) && StartsWithDigit(rest)
    ensures SignRun(sign + rest) == |sign| && (sign + rest)[|sign|..] == rest
  {
  }

  /** With no unit behind the number nothing is given back. */
  lemma PlainEndHere(s: string, g: nat, d: nat)
    requires StartsWithDigit(s) && GroupRun(s) == g && Pointed(FractionRun(s, g)) == d && g + d <= |s|
    requires !UnitFollows(s[g + d..]) && g > 0
    ensures PlainEnd(s) == g + d
  {
    hide GroupRun, UnitFollows;
  }

  lemma PlainParts(prev: Option<char>, s: string, rest: string)
    requires OnItsOwn(prev) && SignRun(s) <= |s| && s[SignRun(s)..] == rest && StartsWithDigit(rest)
    requires PlainEnd(rest) >= GroupRun(rest) > 0
    ensures
      At(PlainPattern, prev, s) ==
      Some(Hit(Negated(SignRun(s) == 1, Negated(SignRun(s) == 1, Value(WithoutCommas(rest[..GroupRun(rest)])))),
               SignRun(s) + PlainEnd(rest)))
  {
    hide GroupRun, PlainEnd, SignRun, WithoutCommas, Value;
  }

  lemma TwiceNegated(negative: bool, v: int)
    ensures Negated(negative, Negated(negative, v)) == v
  {
  }
}
