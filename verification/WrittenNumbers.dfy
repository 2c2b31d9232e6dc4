/**
 What the gate registers for a number as people write it: lakh, crore and per cent with their units, money
 with its separators, and plain numbers, each somewhere in calm prose.
 */
module WrittenNumbers {
  import opened Options
  import opened Digits
  import opened MoneyFormat
  import opened NumberPatterns
  import opened NumberExtraction
  import opened FigureScan
  import opened TextScan
  import opened TokenScan
  import opened TokenText

  // ----- with a unit ----------------------------------------------------------------------------

  predicate ByUnit(p: Pattern) { p.LakhPattern? || p.CrorePattern? || p.PercentPattern? }

  function Other(p: Pattern): Pattern { if p.LakhPattern? then CrorePattern else LakhPattern }

  function UnitToken(
    lead: string, sign: string, ap: string, cur: string, whole: string, frac: string, gap: string, unit: string): string
  {
    lead + (sign + (ap + (cur + (NumStr(whole, frac) + (gap + unit)))))
  }

  lemma TokenThen(lead: string, sign: string, ap: string, cur: string, num: string, gap: string, unit: string,
                  k: string)
    ensures (lead + (sign + (ap + (cur + (num + (gap + unit)))))) + k ==
            lead + (sign + (ap + (cur + (num + UnitTail(gap, unit, k)))))
    ensures |lead + (sign + (ap + (cur + (num + (gap + unit)))))| ==
      |lead| + |sign| + |ap| + |cur| + |num| + |gap| + |unit|
  {
    Shift(gap, unit, k);
    Shift(num, gap + unit, k);
    Shift(cur, num + (gap + unit), k);
    Shift(ap, cur + (num + (gap + unit)), k);
    Shift(sign, ap + (cur + (num + (gap + unit))), k);
    Shift(lead, sign + (ap + (cur + (num + (gap + unit)))), k);
  }

  lemma Shift(a: string, b: string, c: string)
    ensures (a + b) + c == a + (b + c)
  {
  }

  /** Behind a sign of its own the space in front is no part of the match. */
  lemma SpaceBeforeSign(p: Pattern, prev: Option<char>, sign: string, rest: string, at: nat)
    requires IsSignStr(sign) && sign != "" && !p.PlainPattern?
    ensures Scan(p, prev, " " + (sign + rest), at) == Scan(p, Some(' '), sign + rest, at + 1)
  {
    var r := sign + rest;
    assert r[0] == sign[0] && [' '] + r == " " + r;
    SpaceOnly(p, r);
    PrevNeverMatters(p, prev, " " + r);
    ScanNone(p, prev, ' ', r, at);
  }

  lemma SpaceOnly(p: Pattern, r: string)
    requires r != "" && IsSign(r[0]) && !p.PlainPattern?
    ensures At(p, None, " " + r) == None
  {
    LeadRuns(" ", r);
    var s := " " + r;
    assert s[0..] == s && s[1..] == r;
    NoApproxHere(r);
    NoCurrencyHere(r);
    NoCurrencyAnyCase(r);
    NoNumberHere(r);
    hide SpaceRun, SignRun, ApproxRun, CurrencyRun, NumberRun, UnitLength, ScaledToBigint, GroupRun, FractionRun;
    if !p.CurrencyPattern? { SpacePrefix(p, s); }
  }

  lemma NoCurrencyAnyCase(r: string)
    requires r != "" && r[0] !in {'₹', 'R', 'r', 'I', 'i'}
    ensures CurrencyRun(r, false) == 0
  {
  }

  lemma SpacePrefix(p: Pattern, s: string)
    requires !p.PlainPattern? && !p.CurrencyPattern? && |s| > 1 && SignRun(s) == 0 && SpaceRun(s) == 1
    requires s[0..] == s && ApproxRun(s[1..]) == 0 && CurrencyRun(s[1..], false) == 0 && NumberRun(s[1..]) == 0
    ensures UnitAt(p, s) == None
  {
    hide SpaceRun, SignRun, ApproxRun, CurrencyRun, NumberRun, UnitLength, ScaledToBigint;
    assert s[1 + 0..] == s[1..];
    assert PrefixRun(s) == 1;
    UnitAtParts(p, s, 1);
  }

  /** Behind the first digit of such a token stand digits, a point, a space and its own unit. */
  lemma UnitTokenChars(
    p: Pattern, q: Pattern, lead: string, sign: string, ap: string, cur: string, whole: string, frac: string,
    gap: string, unit: string, scale: nat)
    requires ByUnit(q) && q != p && IsFront(p, lead, sign, ap, cur) && IsNumber(whole, frac)
    requires IsGap(gap) && IsUnit(p, unit, scale)
    ensures
      var w := UnitToken(lead, sign, ap, cur, whole, frac, gap, unit);
      Unspelt(q, w) && w != "" && !IsSpace(w[|w| - 1]) && !IsDigit(w[|w| - 1]) && w[|w| - 1] !in {',', '.'}
  {
    var front, back := lead + (sign + (ap + cur)), NumStr(whole, frac) + (gap + unit);
    var w := UnitToken(lead, sign, ap, cur, whole, frac, gap, unit);
    NumChars(whole, frac);
    FrontChars(p, lead, sign, ap, cur);
    UnitChars(p, q, unit, scale);
    hide IsFront, IsUnit, NumStr, UnitChar, IsNumber;
    Flat(lead, sign, ap, cur, back);
    assert w == front + back && w[|w| - 1] == unit[|unit| - 1];
    forall d: nat, j: nat | d < j < |w| && IsDigit(w[d]) ensures !UnitChar(q, w[j]) {
      assert d >= |front| && w[j] == back[j - |front|];
      BackChars(NumStr(whole, frac), gap, unit, j - |front|);
    }
  }

  lemma Flat(lead: string, sign: string, ap: string, cur: string, back: string)
    ensures lead + (sign + (ap + (cur + back))) == (lead + (sign + (ap + cur))) + back
  {
    Shift(ap, cur, back);
    Shift(sign, ap + cur, back);
    Shift(lead, sign + (ap + cur), back);
  }

  lemma BackChars(num: string, gap: string, unit: string, j: nat)
    requires j < |num + (gap + unit)|
    ensures
      var c := (num + (gap + unit))[j];
      (j < |num| && c == num[j]) || (c in gap) || (c in unit)
  {
  }

  lemma NumChars(whole: string, frac: string)
    requires IsNumber(whole, frac)
    ensures var num := NumStr(whole, frac); num != "" && forall i | 0 <= i < |num| :: IsDigit(num[i]) || num[i] == '.'
  {
  }

  lemma FrontChars(p: Pattern, lead: string, sign: string, ap: string, cur: string)
    requires IsFront(p, lead, sign, ap, cur)
    ensures var front := lead + (sign + (ap + cur)); forall i | 0 <= i < |front| :: !IsDigit(front[i])
  {
    var front := lead + (sign + (ap + cur));
    assert forall i | 0 <= i < |ap| :: !IsDigit(ap[i]);
    assert forall i | 0 <= i < |cur| :: !IsDigit(cur[i]);
    assert forall i | 0 <= i < |sign| :: !IsDigit(sign[i]);
    assert forall i | 0 <= i < |lead| :: !IsDigit(lead[i]);
  }

  lemma UnitChars(p: Pattern, q: Pattern, unit: string, scale: nat)
    requires ByUnit(q) && q != p && IsUnit(p, unit, scale)
    ensures unit != "" && forall c | c in unit :: !UnitChar(q, c) && !IsDigit(c) && !IsSpace(c) && c != ',' && c != '.'
    ensures forall c | c in {' ', '.'} || IsDigit(c) :: !UnitChar(q, c)
  {
  }

  /** Its own pattern finds it once: all of it, or all from its sign on. */
  lemma UnsignedFound(
    p: Pattern, prev: Option<char>, lead: string, ap: string, cur: string, whole: string, frac: string,
    gap: string, unit: string, scale: nat, k: string, at: nat) returns (v: int)
    requires IsFront(p, lead, "", ap, cur) && IsNumber(whole, frac)
    requires IsGap(gap) && IsUnit(p, unit, scale) && NoLetterFirst(k)
    ensures IsTimes(whole, frac, scale, v)
    ensures
      var w := UnitToken(lead, "", ap, cur, whole, frac, gap, unit);
      Scan(p, prev, w + k, at) == [Found(v, at, at + |w|)] + Scan(p, LastOr(prev, w), k, at + |w|)
  {
    hide *;
    var num := NumStr(whole, frac);
    var w := UnitToken(lead, "", ap, cur, whole, frac, gap, unit);
    UnitPatterns(p, unit, scale);
    TokenIs(lead, "", ap, cur, whole, frac, gap, unit);
    TokenThen(lead, "", ap, cur, num, gap, unit, k);
    UnitTokenChars(p, Other(p), lead, "", ap, cur, whole, frac, gap, unit, scale);
    v := UnitTokenAt(p, prev, lead, "", ap, cur, whole, frac, gap, unit, scale, k);
    ScanSome(p, prev, w, k, at, v);
    LastIs(prev, w);
  }

  lemma SignedFound(
    p: Pattern, prev: Option<char>, sign: string, ap: string, cur: string, whole: string, frac: string,
    gap: string, unit: string, scale: nat, k: string, at: nat) returns (v: int)
    requires IsFront(p, "", sign, ap, cur) && sign != "" && IsNumber(whole, frac)
    requires IsGap(gap) && IsUnit(p, unit, scale) && NoLetterFirst(k)
    ensures IsTimes(whole, frac, scale, v)
    ensures
      var w := UnitToken("", sign, ap, cur, whole, frac, gap, unit);
      Scan(p, prev, w + k, at) == [Found(0 - v, at, at + |w|)] + Scan(p, LastOr(prev, w), k, at + |w|)
  {
    hide *;
    var num := NumStr(whole, frac);
    var w := UnitToken("", sign, ap, cur, whole, frac, gap, unit);
    UnitPatterns(p, unit, scale);
    TokenIs("", sign, ap, cur, whole, frac, gap, unit);
    TokenThen("", sign, ap, cur, num, gap, unit, k);
    UnitTokenChars(p, Other(p), "", sign, ap, cur, whole, frac, gap, unit, scale);
    v := UnitTokenAt(p, prev, "", sign, ap, cur, whole, frac, gap, unit, scale, k);
    ScanSome(p, prev, w, k, at, 0 - v);
    LastIs(prev, w);
  }

  lemma UnitTokenFound(
    p: Pattern, prev: Option<char>, lead: string, sign: string, ap: string, cur: string, whole: string, frac: string,
    gap: string, unit: string, scale: nat, k: string, at: nat) returns (v: int, f: Found)
    requires IsFront(p, lead, sign, ap, cur) && IsNumber(whole, frac)
    requires IsGap(gap) && IsUnit(p, unit, scale) && NoLetterFirst(k)
    ensures IsTimes(whole, frac, scale, v)
    ensures
      var w := UnitToken(lead, sign, ap, cur, whole, frac, gap, unit);
      && f == Found(if sign == "" then v else 0 - v, at + (if sign == "" then 0 else |lead|), at + |w|)
      && Scan(p, prev, w + k, at) == [f] + Scan(p, LastOr(prev, w), k, at + |w|)
  {
    hide *;
    var w := UnitToken(lead, sign, ap, cur, whole, frac, gap, unit);
    if sign == "" {
      v := UnsignedFound(p, prev, lead, ap, cur, whole, frac, gap, unit, scale, k, at);
      f := Found(v, at, at + |w|);
    } else {
      FrontWithoutLead(p, lead, sign, ap, cur);
      BareToken(lead, sign, ap, cur, whole, frac, gap, unit);
      var bare := UnitToken("", sign, ap, cur, whole, frac, gap, unit);
      if lead == "" {
        v := SignedFound(p, prev, sign, ap, cur, whole, frac, gap, unit, scale, k, at);
      } else {
        v := SignedFound(p, Some(' '), sign, ap, cur, whole, frac, gap, unit, scale, k, at + 1);
        UnitPatterns(p, unit, scale);
        SpaceSkipped(p, prev, sign, ap, cur, whole, frac, gap, unit, k, at);
        SameLast(prev, bare);
      }
      f := Found(0 - v, at + |lead|, at + |w|);
    }
  }

  lemma BareToken(
    lead: string, sign: string, ap: string, cur: string, whole: string, frac: string, gap: string, unit: string)
    requires sign != ""
    ensures
      var bare := UnitToken("", sign, ap, cur, whole, frac, gap, unit);
      && bare != "" && UnitToken(lead, sign, ap, cur, whole, frac, gap, unit) == lead + bare
      && (lead == "" ==> lead + bare == bare)
  {
    hide NumStr;
    var tail := sign + (ap + (cur + (NumStr(whole, frac) + (gap + unit))));
    assert "" + tail == tail;
  }

  lemma SpaceSkipped(
    p: Pattern, prev: Option<char>, sign: string, ap: string, cur: string, whole: string, frac: string, gap: string,
    unit: string, k: string, at: nat)
    requires IsSignStr(sign) && sign != "" && !p.PlainPattern?
    ensures
      var bare := UnitToken("", sign, ap, cur, whole, frac, gap, unit);
      Scan(p, prev, (" " + bare) + k, at) == Scan(p, Some(' '), bare + k, at + 1)
  {
    hide *;
    var words := ap + (cur + (NumStr(whole, frac) + (gap + unit)));
    var bare := UnitToken("", sign, ap, cur, whole, frac, gap, unit);
    TokenIs("", sign, ap, cur, whole, frac, gap, unit);
    Nothing(sign + words);
    Shift(sign, words, k);
    Shift(" ", bare, k);
    SpaceBeforeSign(p, prev, sign, words + k, at);
  }

  lemma Nothing(s: string)
    ensures "" + s == s
  {
  }

  lemma UnitPatterns(p: Pattern, unit: string, scale: nat)
    requires IsUnit(p, unit, scale)
    ensures ByUnit(p) && !p.CurrencyPattern? && !p.PlainPattern? && ByUnit(Other(p)) && Other(p) != p
  {
  }

  lemma ByUnitOnly(p: Pattern)
    requires ByUnit(p)
    ensures !p.CurrencyPattern? && !p.PlainPattern?
  {
  }

  lemma TokenIs(
    lead: string, sign: string, ap: string, cur: string, whole: string, frac: string, gap: string, unit: string)
    ensures UnitToken(lead, sign, ap, cur, whole, frac, gap, unit) ==
            lead + (sign + (ap + (cur + (NumStr(whole, frac) + (gap + unit)))))
  {
  }

  lemma FrontWithoutLead(p: Pattern, lead: string, sign: string, ap: string, cur: string)
    requires IsFront(p, lead, sign, ap, cur)
    ensures IsFront(p, "", sign, ap, cur) && IsSignStr(sign) && (lead == "" || lead == " ")
  {
  }

  lemma LastIs(prev: Option<char>, w: string)
    requires w != ""
    ensures LastOr(prev, w) == Some(w[|w| - 1])
  {
  }

  lemma SameLast(prev: Option<char>, bare: string)
    requires bare != ""
    ensures LastOr(Some(' '), bare) == LastOr(prev, " " + bare) && |" " + bare| == |bare| + 1
  {
  }

  /** A text of calm prose around w. */
  function Whole(before: string, w: string, after: string): string { before + (w + after) }

  predicate IsAround(before: string, lead: string, after: string) {
    IsCalm(before) && IsCalm(after) && NoLetterFirst(after) && (before != "" ==> lead == " ")
  }

  /**
   A number with its unit, signed or not, behind an approximation and a currency or not: in calm prose the
   gate registers it and nothing else, as the number written times 100,000 for a lakh, 10,000,000 for a
   crore and 100 for a per cent, rounded half up.
   */
  lemma UnitTokenRegisters(
    p: Pattern, before: string, lead: string, sign: string, ap: string, cur: string, whole: string, frac: string,
    gap: string, unit: string, scale: nat, after: string) returns (v: int, f: Found)
    requires IsFront(p, lead, sign, ap, cur) && IsNumber(whole, frac)
    requires IsGap(gap) && IsUnit(p, unit, scale) && IsAround(before, lead, after)
    ensures IsTimes(whole, frac, scale, v) && f.value == if sign == "" then v else 0 - v
    ensures
      var w := UnitToken(lead, sign, ap, cur, whole, frac, gap, unit);
      Chosen(Candidates(Whole(before, w, after))) == [f]
  {
    hide *;
    var w := UnitToken(lead, sign, ap, cur, whole, frac, gap, unit);
    var text, prev, at := Whole(before, w, after), LastOr(None, before), |before|;
    AroundParts(before, lead, after);
    WholeIs(before, w, after);
    TokenStarts(before, lead, sign, ap, cur, whole, frac, gap, unit, after);
    v, f := UnitTokenFound(p, prev, lead, sign, ap, cur, whole, frac, gap, unit, scale, after, at);
    Around(p, before, w, after, [f]);
    UnitPatterns(p, unit, scale);
    forall q: Pattern | ByUnit(q) && q != p ensures Scan(q, None, text, 0) == [] {
      UnitTokenChars(p, q, lead, sign, ap, cur, whole, frac, gap, unit, scale);
      ByUnitOnly(q);
      UnitNever(q, w, after);
      NeverFinds(q, prev, w, after, at);
      NothingMore(q, LastOr(prev, w), after, at + |w|);
      Around(q, before, w, after, []);
    }
    UnitTokenChars(p, Other(p), lead, sign, ap, cur, whole, frac, gap, unit, scale);
    LetterCloses(w, after);
    var skip := if sign == "" then 0 else |lead|;
    FrontWithoutLead(p, lead, sign, ap, cur);
    LeadIsFirst(lead, sign, ap, cur, whole, frac, gap, unit);
    var d := OthersOverlap(CurrencyPattern, prev, w, after, at, |w| - 1, skip, f);
    Around(CurrencyPattern, before, w, after, d);
    var e := OthersOverlap(PlainPattern, prev, w, after, at, |w| - 1, skip, f);
    Around(PlainPattern, before, w, after, e);
    Ordering(text, p, f, d, e);
  }

  lemma AroundParts(before: string, lead: string, after: string)
    requires IsAround(before, lead, after)
    ensures IsCalm(before) && IsCalm(after) && NoLetterFirst(after) && (before != "" ==> lead == " ")
  {
  }

  lemma WholeIs(before: string, w: string, after: string)
    ensures Whole(before, w, after) == before + (w + after)
  {
  }

  lemma TokenStarts(
    before: string, lead: string, sign: string, ap: string, cur: string, whole: string, frac: string,
    gap: string, unit: string, after: string)
    requires before != "" ==> lead == " "
    ensures
      var w := UnitToken(lead, sign, ap, cur, whole, frac, gap, unit);
      before != "" ==> NoLetterFirst(w + after)
  {
  }

  lemma NothingMore(p: Pattern, prev: Option<char>, after: string, at: nat)
    ensures [] + Scan(p, prev, after, at) == Scan(p, prev, after, at)
  {
    hide Scan;
  }

  /** A last character that is neither digit, separator nor point closes the number. */
  lemma LetterCloses(w: string, k: string)
    requires w != "" && !IsDigit(w[|w| - 1]) && w[|w| - 1] !in {',', '.'} && IsCalm(k)
    ensures Closes(w + k, |w| - 1)
  {
    CalmHasNoDigit(k);
    hide IsCalm;
    var s, n := w + k, |w| - 1;
    assert s[n..][0] == w[n];
    forall i | n <= i < |s| ensures !IsDigit(s[i]) { assert s[i] == if i == n then w[n] else k[i - |w|]; }
  }

  lemma LeadIsFirst(
    lead: string, sign: string, ap: string, cur: string, whole: string, frac: string, gap: string, unit: string)
    requires lead == "" || lead == " "
    ensures
      var w := UnitToken(lead, sign, ap, cur, whole, frac, gap, unit);
      (lead != "" ==> w != "" && w[0] == ' ') && (sign != "" ==> |lead| < |w|)
  {
  }

  lemma Ordering(text: string, p: Pattern, f: Found, d: seq<Found>, e: seq<Found>)
    requires ByUnit(p) && Scan(p, None, text, 0) == [f]
    requires forall q: Pattern | ByUnit(q) && q != p :: Scan(q, None, text, 0) == []
    requires Scan(CurrencyPattern, None, text, 0) == d && Scan(PlainPattern, None, text, 0) == e
    requires (forall x | x in d :: Overlap(x, f)) && forall x | x in e :: Overlap(x, f)
    ensures Chosen(Candidates(text)) == [f]
  {
    hide Scan, Overlap, Chosen, Candidates;
    assert PATTERNS[3] == CurrencyPattern && PATTERNS[4] == PlainPattern;
    var m: nat := if p.LakhPattern? then 0 else if p.CrorePattern? then 1 else 2;
    forall i | m < i < |PATTERNS| ensures forall x | x in Scan(PATTERNS[i], None, text, 0) :: Overlap(x, f) {
      if i < 3 { assert ByUnit(PATTERNS[i]) && PATTERNS[i] != p; }
    }
    forall i | 0 <= i < m ensures Scan(PATTERNS[i], None, text, 0) == [] {
      assert ByUnit(PATTERNS[i]) && PATTERNS[i] != p;
    }
    Alone(text, m, f);
  }
}
