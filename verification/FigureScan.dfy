/**
 What the five patterns find in a text of prose, single digits and printed figures: the figures, and
 besides them only pieces of figures.
 */
module FigureScan {
  import opened Options
  import opened Arithmetic
  import opened Digits
  import opened NumberPatterns
  import opened NumberExtraction

  // ----- printing -------------------------------------------------------------------------------

  /** Math.round(lakhs * 10): the rupee amount in tenths of a lakh, halves up. */
  function LakhTenths(rupee: int): int { (rupee + 5000) / 10000 }

  /** A number of tenths as JavaScript prints it: no decimal point for whole numbers. */
  function ShowTenths(t: nat): string {
    if t % 10 == 0 then Show(t / 10) else Show(t / 10) + "." + [Digit(t % 10)]
  }

  function LakhStr(rupee: int): string {
    var t := LakhTenths(rupee);
    "₹" + (if t < 0 then "-" else "") + ShowTenths(Abs(t)) + "L"
  }

  function PercentOf(bp: int): nat { (Abs(bp) + 50) / 100 }

  /** (bp / 100).toFixed(0): halves away from zero, and the sign kept even on zero. */
  function PercentStr(bp: int): string {
    (if bp < 0 then "-" else "") + Show(PercentOf(bp)) + "%"
  }

  // ----- numbers at the head of a text ----------------------------------------------------------

  /** What may follow the digits of a printed figure. */
  predicate EndsNumber(r: string) { r != "" && !IsDigit(r[0]) && r[0] != '.' && r[0] != ',' }

  lemma DigitsRun(w: string, r: string)
    requires AllDigits(w) && (r == "" || !IsDigit(r[0]))
    ensures DigitRun(w + r) == |w|
    ensures r == "" || r[0] != ',' ==> GroupRun(w + r) == |w|
  {
    var s := w + r;
    assert forall i | 0 <= i < |w| :: s[i] == w[i];
    assert r != "" ==> s[|w|] == r[0];
  }

  lemma WholeNumber(w: string, r: string, scale: nat)
    requires AllDigits(w) && w != "" && EndsNumber(r)
    ensures NumberRun(w + r) == |w| && GroupRun(w + r) == |w| && FractionRun(w + r, |w|) == 0
    ensures ScaledToBigint(w + r, scale) == Value(w) * scale
  {
    hide Value;
    DigitsRun(w, r);
    assert (w + r)[|w|] == r[0] && (w + r)[..|w|] == w;
  }

  lemma PointedRuns(w: string, d: char, r: string)
    requires AllDigits(w) && w != "" && IsDigit(d) && EndsNumber(r)
    ensures
      var s := (w + "." + [d]) + r;
      && DigitRun(s) == GroupRun(s) == |w| && FractionRun(s, |w|) == 1 && |s| >= |w| + 2
      && s[..|w|] == w && s[|w| + 1..|w| + 2] == [d]
  {
    hide DigitRun, GroupRun;
    var s := (w + "." + [d]) + r;
    var tail := [d] + r;
    assert s == w + ("." + tail) && s[|w| + 1..] == tail;
    DigitsRun(w, "." + tail);
    DigitsRun([d], r);
  }

  lemma PointedNumber(w: string, d: char, r: string, scale: nat)
    requires AllDigits(w) && w != "" && IsDigit(d) && EndsNumber(r)
    ensures
      var s := (w + "." + [d]) + r;
      && NumberRun(s) == |w| + 2 && GroupRun(s) == |w| && FractionRun(s, |w|) == 1
      && ScaledToBigint(s, scale) == RoundScaled(Value(w + [d]), scale, 10)
  {
    hide Value, RoundScaled, DigitRun, GroupRun, FractionRun;
    PointedRuns(w, d, r);
    assert Pow10(1) == 10 * Pow10(0);
  }

  lemma TenthsExact(v: nat, scale: nat)
    requires scale % 10 == 0
    ensures RoundScaled(v, scale, 10) == v * (scale / 10)
  {
    Associate(v, scale / 10, 10);
    assert v * scale == (v * (scale / 10)) * 10;
  }

  lemma OneMoreDigit(w: string, f: nat)
    requires AllDigits(w) && f < 10
    ensures AllDigits(w + [Digit(f)]) && Value(w + [Digit(f)]) == Value(w) * 10 + f
  {
    assert (w + [Digit(f)])[..|w|] == w;
  }

  /** A printed number of tenths is one number, and is read back as that many tenths of the unit. */
  lemma TenthsNumber(t: nat, r: string, scale: nat)
    requires EndsNumber(r) && scale % 10 == 0
    ensures
      var g := ShowTenths(t);
      && g != "" && IsDigit(g[0]) && NumberRun(g + r) == |g|
      && GroupRun(g + r) + Pointed(FractionRun(g + r, GroupRun(g + r))) == |g|
      && ScaledToBigint(g + r, scale) == t * (scale / 10)
  {
    var w := Show(t / 10);
    ValueOfShow(t / 10);
    hide ScaledToBigint, Value, Show, NumberRun, GroupRun, FractionRun, RoundScaled;
    assert IsDigit(w[0]);
    if t % 10 == 0 {
      WholeNumber(w, r, scale);
      Associate(t / 10, 10, scale / 10);
    } else {
      var d := Digit(t % 10);
      PointedNumber(w, d, r, scale);
      OneMoreDigit(w, t % 10);
      TenthsExact(Value(w) * 10 + t % 10, scale);
      assert Value(w) * 10 + t % 10 == t;
      assert (w + "." + [d])[0] == w[0];
    }
  }

  // ----- prose ----------------------------------------------------------------------------------

  /** At place i there is no digit or per cent sign, and no currency or approximation begins. */
  predicate QuietAt(s: string, i: nat)
    requires i < |s|
  {
    && !IsDigit(s[i]) && s[i] != '₹' && s[i] != '~' && s[i] != '%'
    && !((s[i] == 'R' || s[i] == 'r') && i + 1 < |s| && (s[i + 1] == 's' || s[i + 1] == 'S'))
    && (i + 2 < |s| ==> !BeginsInr(s, i) && !BeginsApp(s, i))
  }

  predicate BeginsInr(s: string, i: nat)
    requires i + 2 < |s|
  {
    (s[i + 2] == 'R' || s[i + 2] == 'r') && (s[i + 1] == 'N' || s[i + 1] == 'n') && (s[i] == 'I' || s[i] == 'i')
  }

  predicate BeginsApp(s: string, i: nat)
    requires i + 2 < |s|
  {
    s[i] == 'a' && s[i + 1] == 'p' && s[i + 2] == 'p'
  }

  predicate QuietFrom(s: string, i: nat)
    decreases |s| - i
  {
    i >= |s| || (QuietAt(s, i) && (i + 1 == |s| || (QuietAt(s, i + 1) && QuietFrom(s, i + 2))))
  }

  predicate Quiet(s: string) { QuietFrom(s, 0) }

  lemma {:induction false} QuietFromOn(s: string, i: nat)
    requires QuietFrom(s, i)
    ensures forall j: nat | i <= j < |s| :: QuietAt(s, j)
    decreases |s| - i
  {
    hide QuietAt;
    if i + 2 < |s| { QuietFromOn(s, i + 2); }
  }

  lemma {:induction false} QuietFromIf(s: string, i: nat)
    requires forall j: nat | i <= j < |s| :: QuietAt(s, j)
    ensures QuietFrom(s, i)
    decreases |s| - i
  {
    hide QuietAt;
    if i + 2 < |s| { QuietFromIf(s, i + 2); }
  }

  lemma QuietEverywhere(s: string)
    ensures Quiet(s) <==> forall j: nat | j < |s| :: QuietAt(s, j)
  {
    hide QuietAt, QuietFrom;
    if Quiet(s) { QuietFromOn(s, 0); }
    if forall j: nat | j < |s| :: QuietAt(s, j) { QuietFromIf(s, 0); }
  }

  /** It ends in neither a space nor a sign. */
  predicate Ends(s: string) { s != "" && !IsSpace(s[|s| - 1]) && !IsSign(s[|s| - 1]) }

  predicate NoLetterFirst(k: string) { k == "" || !IsLetter(k[0]) }

  /** A sign and the spaces behind it end inside the prose, at a character that is no space. */
  lemma SpacesEndInside(w: string, k: string)
    requires Ends(w)
    ensures
      var s := w + k;
      var a := SignRun(s) + SpaceRun(s[SignRun(s)..]);
      SignRun(s) < |w| && a < |w| && s[a] == w[a] && s[SignRun(s)] == w[SignRun(s)]
  {
    var s, e := w + k, |w| - 1;
    assert s[e] == w[e] && s[0] == w[0];
    var a := SignRun(s);
    assert s[a..][e - a] == s[e];
    SpacesStop(s[a..], e - a);
  }

  lemma SpacesStop(s: string, j: nat)
    requires j < |s| && !IsSpace(s[j])
    ensures SpaceRun(s) <= j
  {
  }

  lemma NoApproxInside(w: string, k: string, a: nat)
    requires Quiet(w) && NoLetterFirst(k) && a < |w|
    ensures ApproxRun((w + k)[a..]) == 0
  {
    var s := (w + k)[a..];
    QuietEverywhere(w);
    hide Quiet;
    assert QuietAt(w, a) && s[0] == w[a] && w[a] != '~';
    if |s| >= 3 && s[0] == 'a' && s[1] == 'p' && s[2] == 'p' {
      LetterBehind(w, k, a);
    }
    NoApproxHere(s);
  }

  lemma NoApproxHere(s: string)
    requires s != "" && s[0] != '~' && !(|s| >= 3 && s[0] == 'a' && s[1] == 'p' && s[2] == 'p')
    ensures ApproxRun(s) == 0
  {
  }

  /** A run of letters that begins in the prose stays in it. */
  lemma LetterBehind(w: string, k: string, a: nat)
    requires NoLetterFirst(k) && a < |w|
    ensures
      var s := (w + k)[a..];
      && (|s| >= 2 && IsLetter(s[1]) ==> a + 1 < |w| && s[1] == w[a + 1])
      && (|s| >= 3 && IsLetter(s[1]) && IsLetter(s[2]) ==> a + 2 < |w| && s[2] == w[a + 2])
  {
    var s := (w + k)[a..];
    assert |s| >= 2 ==> s[1] == (w + k)[a + 1];
    assert |s| >= 3 ==> s[2] == (w + k)[a + 2];
  }

  lemma NoCurrencyInside(w: string, k: string, a: nat, anyCase: bool)
    requires Quiet(w) && NoLetterFirst(k) && a < |w|
    ensures CurrencyRun((w + k)[a..], anyCase) == 0
  {
    var s := (w + k)[a..];
    QuietEverywhere(w);
    hide Quiet;
    assert QuietAt(w, a) && s[0] == w[a];
    LetterBehind(w, k, a);
  }

  lemma NoNumberHere(s: string)
    requires s == "" || !IsDigit(s[0])
    ensures NumberRun(s) == 0
  {
  }

  /** No pattern matches inside prose. */
  lemma QuietNone(p: Pattern, prev: Option<char>, w: string, k: string)
    requires Quiet(w) && Ends(w) && NoLetterFirst(k)
    ensures At(p, prev, w + k) == None
  {
    var s := w + k;
    SpacesEndInside(w, k);
    QuietEverywhere(w);
    hide Quiet;
    var a := SignRun(s) + SpaceRun(s[SignRun(s)..]);
    assert QuietAt(w, a);
    NoApproxInside(w, k, a);
    NoCurrencyInside(w, k, a, false);
    NoCurrencyInside(w, k, a, true);
    assert s[a..][0] == w[a];
    NoNumberHere(s[a..]);
    hide ApproxRun, CurrencyRun, NumberRun, SpaceRun;
    assert s[a..][0..] == s[a..];
    assert PrefixRun(s) == a;
  }

  lemma QuietTail(w: string)
    requires Quiet(w) && Ends(w) && |w| > 1
    ensures Quiet(w[1..]) && Ends(w[1..])
  {
    var t := w[1..];
    QuietEverywhere(w);
    QuietEverywhere(t);
    hide Quiet;
    assert forall i | 0 <= i < |t| :: t[i] == w[i + 1];
    forall j: nat | j < |t| ensures QuietAt(t, j) { assert QuietAt(w, j + 1); }
  }

  lemma {:induction false} SkipsProse(p: Pattern, prev: Option<char>, w: string, k: string, at: nat)
    requires Quiet(w) && Ends(w) && NoLetterFirst(k)
    ensures Scan(p, prev, w + k, at) == Scan(p, Some(w[|w| - 1]), k, at + |w|)
    decreases |w|
  {
    hide *;
    NotEmpty(w);
    QuietNone(p, prev, w, k);
    HeadAndTail(w, k);
    ScanNone(p, prev, w[0], w[1..] + k, at);
    if |w| > 1 {
      QuietTail(w);
      SkipsProse(p, Some(w[0]), w[1..], k, at + 1);
    }
  }

  lemma NotEmpty(w: string)
    requires Ends(w)
    ensures w != ""
  {
  }

  lemma HeadAndTail(w: string, k: string)
    requires w != ""
    ensures w + k == [w[0]] + (w[1..] + k)
    ensures if |w| == 1 then w[1..] + k == k && w[|w| - 1] == w[0] else w[1..][|w[1..]| - 1] == w[|w| - 1]
    ensures |w[1..]| == |w| - 1
  {
  }

  lemma ScanNone(p: Pattern, prev: Option<char>, c: char, rest: string, at: nat)
    requires At(p, prev, [c] + rest) == None
    ensures Scan(p, prev, [c] + rest, at) == Scan(p, Some(c), rest, at + 1)
  {
    hide At;
    assert ([c] + rest)[1..] == rest;
  }

  lemma ScanSome(p: Pattern, prev: Option<char>, w: string, rest: string, at: nat, v: int)
    requires w != "" && At(p, prev, w + rest) == Some(Hit(v, |w|))
    ensures Scan(p, prev, w + rest, at) == [Found(v, at, at + |w|)] + Scan(p, Some(w[|w| - 1]), rest, at + |w|)
  {
    hide At;
    assert (w + rest)[|w|..] == rest && (w + rest)[|w| - 1] == w[|w| - 1];
  }

  // ----- a digit behind a word ------------------------------------------------------------------

  /** What may follow such a digit: no more of a number, and no unit. */
  predicate FollowsDigit(k: string) {
    && (k == "" || (!IsDigit(k[0]) && k[0] != '.' && k[0] != ','))
    && !UnitFollows(k)
  }

  lemma UnitNeedsLetter(p: Pattern, s: string)
    requires !UnitFollows(s)
    ensures UnitLength(p, s[SpaceRun(s)..]) == 0
  {
    var n := SpaceRun(s);
    assert n < |s| ==> s[n..][0] == s[n];
  }

  lemma DigitIsPlain(c: char, k: string)
    requires IsDigit(c)
    ensures
      var s := [c] + k;
      && SignRun(s) == 0 && SpaceRun(s) == 0 && ApproxRun(s) == 0
      && CurrencyRun(s, false) == 0 && CurrencyRun(s, true) == 0
  {
    var s := [c] + k;
    assert s[0] == c && !IsSpace(c);
    NoApproxHere(s);
  }

  /** CM2 and CM3 are no numbers to any pattern. */
  lemma SkipsDigit(p: Pattern, prev: char, c: char, k: string, at: nat)
    requires IsDigit(c) && IsWordChar(prev) && FollowsDigit(k)
    ensures Scan(p, Some(prev), [c] + k, at) == Scan(p, Some(c), k, at + 1)
  {
    var s := [c] + k;
    DigitIsPlain(c, k);
    DigitsRun([c], k);
    assert s[0..] == s && s[1..] == k && [c] + k == s;
    assert NumberRun(s) == 1;
    UnitNeedsLetter(p, k);
    hide ApproxRun, CurrencyRun, NumberRun, SpaceRun, UnitLength, ScaledToBigint, UnitFollows;
    assert At(p, Some(prev), s) == None;
    ScanNone(p, Some(prev), c, k, at);
  }

  // ----- printed figures ------------------------------------------------------------------------

  /** A figure comes behind nothing or behind one space. */
  predicate IsLead(t: string) { t == "" || t == " " }

  lemma LeadRuns(t: string, s: string)
    requires IsLead(t) && s != "" && !IsSpace(s[0])
    ensures SignRun(t + s) == (if t == "" then SignRun(s) else 0)
    ensures SpaceRun(t + s) == |t| && (t + s)[|t|..] == s
  {
    if t == "" { assert t + s == s; } else { assert (t + s)[1..] == s && (t + s)[0] == ' '; }
  }

  /** A number, its unit, and no letter behind. */
  lemma UnitHit(p: Pattern, s: string, a: nat, g: string, z: char, k: string)
    requires p.LakhPattern? || p.PercentPattern?
    requires z == (if p.LakhPattern? then 'L' else '%') && NoLetterFirst(k)
    requires a <= |s| && s[a..] == g + ([z] + k) && g != "" && NumberRun(g + ([z] + k)) == |g|
    requires a == if p.PercentPattern? then SignRun(s) + SpaceRun(s[SignRun(s)..]) else PrefixRun(s)
    ensures UnitAt(p, s) ==
            Some(Hit(Negated(SignRun(s) == 1, ScaledToBigint(g + ([z] + k), Scale(p))), a + |g| + 1))
  {
    hide *;
    var rest := [z] + k;
    SliceTwice(s, a, g, rest);
    UnitIsNext(z, k);
    UnitOfOne(p, z, k);
    UnitAtParts(p, s, a);
    assert rest[0..] == rest;
  }

  lemma SliceTwice(s: string, a: nat, g: string, rest: string)
    requires a <= |s| && s[a..] == g + rest
    ensures a + |g| <= |s| && s[a + |g|..] == rest
  {
    assert s[a..][|g|..] == s[a + |g|..];
  }

  lemma UnitIsNext(z: char, k: string)
    requires z == 'L' || z == '%'
    ensures SpaceRun([z] + k) == 0
  {
    assert ([z] + k)[0] == z && !IsSpace(z);
  }

  /** The pattern spelled out for the place a behind its prefix. */
  lemma UnitAtParts(p: Pattern, s: string, a: nat)
    requires a == if p.PercentPattern? then SignRun(s) + SpaceRun(s[SignRun(s)..]) else PrefixRun(s)
    requires !p.CurrencyPattern? && !p.PlainPattern? && a <= |s|
    ensures
      var n := NumberRun(s[a..]);
      var b := a + n + SpaceRun(s[a + n..]);
      var u := UnitLength(p, s[b..]);
      UnitAt(p, s) ==
      if n == 0 || u == 0 then None
      else Some(Hit(Negated(SignRun(s) == 1, ScaledToBigint(s[a..], Scale(p))), b + u))
  {
    hide NumberRun, PrefixRun, ScaledToBigint, SpaceRun, SignRun, UnitLength;
  }

  lemma UnitOfOne(p: Pattern, z: char, k: string)
    requires (p.LakhPattern? && z == 'L') || (p.PercentPattern? && z == '%')
    requires NoLetterFirst(k)
    ensures UnitLength(p, [z] + k) == 1
  {
    var rest := [z] + k;
    assert rest[0] == z && rest[1..] == k;
  }

  /** Behind a number's head there is neither sign, space, approximation nor currency. */
  lemma NumberHasNoPrefix(g: string, k: string)
    requires g != "" && IsDigit(g[0])
    ensures
      var s := g + k;
      SignRun(s) == 0 && SpaceRun(s) == 0 && PrefixRun(s) == 0 && CurrencyRun(s, true) == 0
  {
    var s := g + k;
    assert s == [g[0]] + (g[1..] + k);
    DigitIsPlain(g[0], g[1..] + k);
    assert s[0..] == s;
  }

  lemma RupeePrefix(t: string, s: string)
    requires IsLead(t) && s != ""
    ensures
      var text := t + (['₹'] + s);
      && SignRun(text) == 0 && SpaceRun(text) == |t| && text[|t|..] == ['₹'] + s && text[|t| + 1..] == s
      && PrefixRun(text) == |t| + 1 && CurrencyRun(['₹'] + s, true) == 1
  {
    var r := ['₹'] + s;
    assert r[0] == '₹' && !IsSpace('₹') && r[1..] == s;
    LeadRuns(t, r);
    NoApproxHere(r);
    assert (t + r)[0..] == t + r && (t + r)[|t| + 1..] == s;
  }

  /** A sign, a number and its unit. */
  lemma SignedHit(p: Pattern, g: string, z: char, k: string)
    requires p.LakhPattern? || p.PercentPattern?
    requires z == (if p.LakhPattern? then 'L' else '%') && NoLetterFirst(k)
    requires g != "" && IsDigit(g[0]) && NumberRun(g + ([z] + k)) == |g|
    ensures UnitAt(p, ['-'] + (g + ([z] + k))) ==
            Some(Hit(0 - ScaledToBigint(g + ([z] + k), Scale(p)), |g| + 2))
  {
    hide NumberRun, ScaledToBigint, UnitAt, SpaceRun, CurrencyRun, ApproxRun;
    var rest := g + ([z] + k);
    var s := ['-'] + rest;
    assert s[0] == '-' && s[1..] == rest && rest[0..] == rest && s[1 + 0..] == rest;
    NumberHasNoPrefix(g, [z] + k);
    assert PrefixRun(s) == 1 + PrefixRun(rest) by { PrefixBehindSign(rest); }
    UnitHit(p, s, 1, g, z, k);
  }

  lemma PrefixBehindSign(rest: string)
    requires SignRun(rest) == 0
    ensures PrefixRun(['-'] + rest) == 1 + PrefixRun(rest)
  {
    hide SpaceRun, ApproxRun, CurrencyRun;
    var s := ['-'] + rest;
    assert s[1..] == rest && rest[0..] == rest;
    var a := SpaceRun(rest);
    assert s[1 + a..] == rest[a..];
    var b := a + ApproxRun(rest[a..]);
    assert s[1 + b..] == rest[b..];
  }

  // ----- pieces of figures ----------------------------------------------------------------------

  predicate FigureChar(c: char) { IsDigit(c) || c == '.' || c == '-' || c == '₹' }

  /** The rest of a printed figure: its characters, a space only in front, and the unit at the end. */
  predicate Inner(w: string) {
    && w != "" && (w[|w| - 1] == 'L' || w[|w| - 1] == '%')
    && forall i | 0 <= i < |w| - 1 :: FigureChar(w[i]) || (i == 0 && w[i] == ' ')
  }

  lemma InnerTail(w: string)
    requires Inner(w) && |w| > 1
    ensures Inner(w[1..]) && w[1..][|w[1..]| - 1] == w[|w| - 1]
  {
    var t := w[1..];
    assert forall i | 0 <= i < |t| :: t[i] == w[i + 1];
  }

  lemma InnerEnds(w: string)
    requires Inner(w)
    ensures Ends(w) && forall i | 0 < i < |w| :: !IsSpace(w[i])
  {
  }

  /** At a character of a figure no approximation starts, and no currency but ₹. */
  lemma InnerHead(w: string, k: string, a: nat)
    requires Inner(w) && a < |w| && !IsSpace(w[a])
    ensures
      var s := (w + k)[a..];
      && s != "" && s[0] == w[a] && ApproxRun(s) == 0
      && CurrencyRun(s, false) == CurrencyRun(s, true) == (if w[a] == '₹' then 1 else 0)
      && (w[a] == '₹' ==> a + 1 < |w|)
  {
    var s := (w + k)[a..];
    assert s[0] == w[a];
    NoApproxHere(s);
  }

  /** Sign and spaces end at or in front of the unit; no approximation follows, no currency but ₹. */
  lemma InnerPrefix(w: string, k: string)
    requires Inner(w)
    ensures
      var s := w + k;
      var a := SignRun(s) + SpaceRun(s[SignRun(s)..]);
      && a < |w| && ApproxRun(s[a..]) == 0 && s[a..][0] == w[a]
      && CurrencyRun(s[a..], false) == CurrencyRun(s[a..], true) == (if w[a] == '₹' then 1 else 0)
      && (w[a] == '₹' ==> a + 1 < |w|)
  {
    hide Inner, ApproxRun, CurrencyRun, SignRun;
    InnerEnds(w);
    SpacesEndInside(w, k);
    var s := w + k;
    var a := SignRun(s) + SpaceRun(s[SignRun(s)..]);
    NoSpaceBehind(s[SignRun(s)..]);
    if SpaceRun(s[SignRun(s)..]) < |s[SignRun(s)..]| { assert s[SignRun(s)..][a - SignRun(s)] == s[a]; }
    InnerHead(w, k, a);
  }

  lemma NoSpaceBehind(t: string)
    ensures SpaceRun(t) < |t| ==> !IsSpace(t[SpaceRun(t)])
  {
  }

  lemma NumberStops(t: string, j: nat)
    requires j < |t| && !IsDigit(t[j]) && t[j] != '.'
    ensures NumberRun(t) <= j
  {
    var d := DigitRun(t);
    DigitsStop(t, j);
    if FractionRun(t, d) > 0 {
      assert t[d] == '.' && d < j;
      assert t[d + 1..][j - d - 1] == t[j];
      DigitsStop(t[d + 1..], j - d - 1);
    }
  }

  lemma DigitsStop(s: string, j: nat)
    requires j < |s| && !IsDigit(s[j])
    ensures DigitRun(s) <= j
  {
  }

  /** A number in it ends at or in front of the unit, at a character that is no space. */
  lemma InnerNumber(w: string, k: string, a: nat)
    requires Inner(w) && a < |w|
    ensures
      var n := NumberRun((w + k)[a..]);
      a + n < |w| && (n > 0 ==> !IsSpace((w + k)[a + n]) && (w + k)[a + n] == w[a + n])
  {
    hide NumberRun;
    var s, e := w + k, |w| - 1;
    assert s[a..][e - a] == w[e] && !IsDigit(w[e]) && w[e] != '.';
    NumberStops(s[a..], e - a);
    InnerEnds(w);
    hide Inner;
    var n := NumberRun(s[a..]);
    assert s[a + n] == w[a + n];
  }

  /** Whether z is the first character of a unit of p. */
  predicate IsUnitOf(p: Pattern, z: char) {
    match p
    case LakhPattern => z == 'L'
    case CrorePattern => false
    case _ => z == '%'
  }

  lemma InnerHasNoUnit(p: Pattern, w: string, k: string, b: nat)
    requires Inner(w) && b < |w| && (b == 0 ==> w[0] != ' ')
    requires !p.CurrencyPattern? && !p.PlainPattern? && !IsUnitOf(p, w[|w| - 1])
    ensures UnitLength(p, (w + k)[b..]) == 0
  {
    var s := (w + k)[b..];
    assert s[0] == w[b];
  }

  lemma InnerNone(p: Pattern, w: string, k: string)
    requires Inner(w) && !p.CurrencyPattern? && !p.PlainPattern? && !IsUnitOf(p, w[|w| - 1])
    ensures UnitAt(p, w + k) == None
  {
    hide NumberRun, ApproxRun, CurrencyRun, SpaceRun, UnitLength, ScaledToBigint, Inner, SignRun, IsUnitOf;
    var s := w + k;
    InnerPrefix(w, k);
    var sign := SignRun(s);
    var a0 := sign + SpaceRun(s[sign..]);
    assert s[a0 + 0..] == s[a0..];
    var a := if p.PercentPattern? then a0 else PrefixRun(s);
    assert a == a0 || (a == a0 + 1 && w[a0] == '₹');
    InnerNumber(w, k, a);
    UnitAtParts(p, s, a);
    var n := NumberRun(s[a..]);
    if n > 0 {
      SpacesStop(s[a + n..], 0);
      assert s[a + n + 0..] == s[a + n..];
      InnerHasNoUnit(p, w, k, a + n);
    }
  }

  /** No currency sign stands in front of a digit. */
  predicate NoRupees(w: string) { forall i | 0 <= i < |w| - 1 :: w[i] == '₹' ==> !IsDigit(w[i + 1]) }

  lemma InnerNoCurrency(w: string, k: string)
    requires Inner(w) && NoRupees(w)
    ensures CurrencyAt(w + k) == None
  {
    InnerPrefix(w, k);
    var s := w + k;
    var a := SignRun(s) + SpaceRun(s[SignRun(s)..]);
    assert w[a] == '₹' ==> s[a + 1..][0] == w[a + 1];
    hide CurrencyRun, SpaceRun, SignRun, ApproxRun, GroupRun, FractionRun;
  }

  predicate NeverMatches(p: Pattern, w: string, k: string) {
    forall i | 0 <= i < |w| :: At(p, None, w[i..] + k) == None
  }

  lemma {:induction false} SkipsAll(p: Pattern, prev: Option<char>, w: string, k: string, at: nat)
    requires !p.PlainPattern? && w != "" && NeverMatches(p, w, k)
    ensures Scan(p, prev, w + k, at) == Scan(p, Some(w[|w| - 1]), k, at + |w|)
    decreases |w|
  {
    hide *;
    FirstNone(p, prev, w, k);
    HeadAndTail(w, k);
    ScanNone(p, prev, w[0], w[1..] + k, at);
    if |w| > 1 {
      NeverTail(p, w, k);
      SkipsAll(p, Some(w[0]), w[1..], k, at + 1);
    }
  }

  lemma FirstNone(p: Pattern, prev: Option<char>, w: string, k: string)
    requires !p.PlainPattern? && w != "" && NeverMatches(p, w, k)
    ensures At(p, prev, w + k) == None
  {
    hide UnitAt, CurrencyAt;
    assert w[0..] == w && At(p, None, w[0..] + k) == None;
  }

  lemma NeverTail(p: Pattern, w: string, k: string)
    requires w != "" && NeverMatches(p, w, k)
    ensures NeverMatches(p, w[1..], k)
  {
    hide At;
    forall i | 0 <= i < |w[1..]| ensures At(p, None, w[1..][i..] + k) == None {
      assert w[1..][i..] == w[i + 1..];
    }
  }

  lemma {:induction false} InnerNever(p: Pattern, w: string, k: string)
    requires Inner(w)
    requires if p.CurrencyPattern? then NoRupees(w) else !p.PlainPattern? && !IsUnitOf(p, w[|w| - 1])
    ensures NeverMatches(p, w, k)
    decreases |w|
  {
    hide UnitAt, CurrencyAt, Inner, IsUnitOf;
    if p.CurrencyPattern? { InnerNoCurrency(w, k); } else { InnerNone(p, w, k); }
    assert w[0..] == w;
    if |w| > 1 {
      InnerTail(w);
      assert p.CurrencyPattern? ==> NoRupees(w[1..]) by {
        assert forall i | 0 <= i < |w[1..]| :: w[1..][i] == w[i + 1];
      }
      InnerNever(p, w[1..], k);
      forall i | 0 <= i < |w| ensures At(p, None, w[i..] + k) == None {
        if i > 0 { assert w[1..][i - 1..] == w[i..]; }
      }
    } else {
      OneChar(w);
    }
  }

  lemma OneChar(w: string)
    requires Inner(w)
    ensures |w| >= 1
  {
  }
}
