/**
 Whole texts of prose, single digits behind words, and printed figures: what the gate registers in
 them is what their figures read back as, and nothing else.
 */
module TextScan {
  import opened Options
  import opened Arithmetic
  import opened Digits
  import opened NumberPatterns
  import opened NumberExtraction
  import opened FigureScan

  datatype Figure = Lakh(rupee: int) | Percent(bp: int)

  function FigureStr(f: Figure): string {
    match f
    case Lakh(rupee) => LakhStr(rupee)
    case Percent(bp) => PercentStr(bp)
  }

  /** What the gate reads in a printed figure. */
  function ReadBack(f: Figure): int {
    match f
    case Lakh(rupee) => LakhTenths(rupee) * 10000
    case Percent(bp) => Negated(bp < 0, PercentOf(bp) * 100)
  }

  predicate Negative(f: Figure) {
    match f
    case Lakh(rupee) => LakhTenths(rupee) < 0
    case Percent(bp) => bp < 0
  }

  /** Where the figure behind the lead t, at place at, is found: its sign, or else all of it. */
  function FindOf(t: string, f: Figure, at: nat): Found {
    var skipped := if !Negative(f) then 0 else if f.Lakh? then |t| + 1 else |t|;
    Found(ReadBack(f), at + skipped, at + |t + FigureStr(f)|)
  }

  /** The digits of a figure. */
  function Group(f: Figure): string {
    match f
    case Lakh(rupee) => ShowTenths(Abs(LakhTenths(rupee)))
    case Percent(bp) => Show(PercentOf(bp))
  }

  function Unit(f: Figure): char { if f.Lakh? then 'L' else '%' }

  function OwnPattern(f: Figure): Pattern { if f.Lakh? then LakhPattern else PercentPattern }

  /** What is printed in front of the digits. */
  function Front(t: string, f: Figure): string {
    t + (if f.Lakh? then ['₹'] else []) + (if Negative(f) then ['-'] else [])
  }

  lemma FigureText(t: string, f: Figure, k: string)
    ensures (t + FigureStr(f)) + k == Front(t, f) + (Group(f) + ([Unit(f)] + k))
    ensures |t + FigureStr(f)| == |Front(t, f)| + |Group(f)| + 1
    ensures (t + FigureStr(f))[|t + FigureStr(f)| - 1] == Unit(f)
  {
  }

  /** The digits are one number, and read back as the figure's magnitude. */
  lemma GroupReads(f: Figure, k: string)
    requires NoLetterFirst(k)
    ensures
      var g, r := Group(f), [Unit(f)] + k;
      && g != "" && IsDigit(g[0]) && NumberRun(g + r) == |g|
      && GroupRun(g + r) + Pointed(FractionRun(g + r, GroupRun(g + r))) == |g|
      && Negated(Negative(f), ScaledToBigint(g + r, Scale(OwnPattern(f)))) == ReadBack(f)
  {
    hide NumberRun, GroupRun, FractionRun, ScaledToBigint, Show, Value, ShowTenths;
    var r := [Unit(f)] + k;
    assert EndsNumber(r);
    match f
    case Lakh(rupee) =>
      TenthsNumber(Abs(LakhTenths(rupee)), r, LAKH);
    case Percent(bp) =>
      var g := Show(PercentOf(bp));
      ValueOfShow(PercentOf(bp));
      WholeNumber(g, r, 100);
      assert IsDigit(g[0]);
  }

  // ----- the figure's own pattern ---------------------------------------------------------------

  /** Not negative: the match is the whole figure, the space in front included. */
  lemma OwnHit(t: string, f: Figure, k: string)
    requires IsLead(t) && NoLetterFirst(k) && !Negative(f)
    ensures At(OwnPattern(f), None, (t + FigureStr(f)) + k) == Some(Hit(ReadBack(f), |t + FigureStr(f)|))
  {
    hide UnitAt, FigureStr, Group, ReadBack;
    FigureText(t, f, k);
    UnsignedFront(t, f, Group(f) + ([Unit(f)] + k));
    if f.Lakh? { OwnLakhHit(t, f, k); } else { OwnPercentHit(t, f, k); }
  }

  lemma UnsignedFront(t: string, f: Figure, rest: string)
    requires !Negative(f)
    ensures Front(t, f) + rest == if f.Lakh? then t + (['₹'] + rest) else t + rest
    ensures |Front(t, f)| == if f.Lakh? then |t| + 1 else |t|
  {
  }

  lemma OwnLakhHit(t: string, f: Figure, k: string)
    requires IsLead(t) && NoLetterFirst(k) && f.Lakh? && !Negative(f)
    ensures UnitAt(LakhPattern, t + (['₹'] + (Group(f) + (['L'] + k)))) == Some(Hit(ReadBack(f), |t| + |Group(f)| + 2))
  {
    hide *;
    OwnUnit(f);
    GroupReads(f, k);
    GroupIsNumber(f);
    RupeePrefix(t, Group(f) + (['L'] + k));
    UnitHit(LakhPattern, t + (['₹'] + (Group(f) + (['L'] + k))), |t| + 1, Group(f), 'L', k);
    NoSign(ScaledToBigint(Group(f) + (['L'] + k), Scale(LakhPattern)));
  }

  lemma OwnPercentHit(t: string, f: Figure, k: string)
    requires IsLead(t) && NoLetterFirst(k) && f.Percent? && !Negative(f)
    ensures UnitAt(PercentPattern, t + (Group(f) + (['%'] + k))) == Some(Hit(ReadBack(f), |t| + |Group(f)| + 1))
  {
    hide *;
    OwnUnit(f);
    GroupReads(f, k);
    GroupIsNumber(f);
    var rest := Group(f) + (['%'] + k);
    DigitsFirst(Group(f), ['%'] + k);
    LeadRuns(t, rest);
    SpacesBehindLead(t, rest);
    UnitHit(PercentPattern, t + rest, |t|, Group(f), '%', k);
    NoSign(ScaledToBigint(rest, Scale(PercentPattern)));
  }

  lemma OwnUnit(f: Figure)
    ensures Unit(f) == (if f.Lakh? then 'L' else '%')
    ensures OwnPattern(f) == if f.Lakh? then LakhPattern else PercentPattern
  {
  }

  lemma GroupIsNumber(f: Figure)
    ensures Group(f) != "" && IsDigit(Group(f)[0])
  {
    GroupReads(f, "");
  }

  lemma NoSign(v: int)
    ensures Negated(false, v) == v
  {
  }

  lemma DigitsFirst(g: string, r: string)
    requires g != "" && IsDigit(g[0])
    ensures (g + r)[0] == g[0] && !IsSpace((g + r)[0]) && SignRun(g + r) == 0
  {
  }

  lemma SpacesBehindLead(t: string, s: string)
    requires IsLead(t) && s != "" && !IsSpace(s[0]) && SignRun(s) == 0
    ensures var text := t + s; SignRun(text) + SpaceRun(text[SignRun(text)..]) == |t|
  {
    LeadRuns(t, s);
    assert (t + s)[0..] == t + s;
  }

  /** Negative: nothing matches in front of the sign. */
  lemma OwnSkipsFront(f: Figure, t: string, rest: string)
    requires IsLead(t) && rest != "" && rest[0] == '-'
    requires t + (if f.Lakh? then ['₹'] else []) != ""
    ensures NeverMatches(OwnPattern(f), t + (if f.Lakh? then ['₹'] else []), rest)
  {
    hide UnitAt;
    var w := t + if f.Lakh? then ['₹'] else [];
    forall i | 0 <= i < |w| ensures At(OwnPattern(f), None, w[i..] + rest) == None {
      if f.Lakh? {
        assert w[i..] + rest == t[i..] + (['₹'] + rest) && IsLead(t[i..]);
        RupeeThenSign(t[i..], rest);
      } else {
        assert w[i..] + rest == " " + rest;
        SpaceThenSign(rest);
      }
    }
  }

  lemma RupeeThenSign(t: string, rest: string)
    requires IsLead(t) && rest != "" && rest[0] == '-'
    ensures UnitAt(LakhPattern, t + (['₹'] + rest)) == None
  {
    hide PrefixRun, SpaceRun, ScaledToBigint, UnitLength;
    RupeePrefix(t, rest);
    UnitAtParts(LakhPattern, t + (['₹'] + rest), |t| + 1);
    NoNumberHere(rest);
  }

  lemma SpaceThenSign(rest: string)
    requires rest != "" && rest[0] == '-'
    ensures UnitAt(PercentPattern, " " + rest) == None
  {
    LeadRuns(" ", rest);
    var s := " " + rest;
    assert s[0..] == s && s[1..] == rest;
    NoNumberHere(rest);
    hide PrefixRun, SpaceRun, ScaledToBigint, UnitLength, NumberRun;
    UnitAtParts(PercentPattern, s, 1);
  }

  lemma OwnSignedHit(f: Figure, k: string)
    requires NoLetterFirst(k) && Negative(f)
    ensures
      var g, r := Group(f), [Unit(f)] + k;
      At(OwnPattern(f), None, ['-'] + (g + r)) == Some(Hit(ReadBack(f), |g| + 2))
  {
    hide UnitAt, NumberRun, GroupRun, FractionRun, ScaledToBigint;
    GroupReads(f, k);
    SignedHit(OwnPattern(f), Group(f), Unit(f), k);
  }

  lemma PrevNeverMatters(p: Pattern, prev: Option<char>, s: string)
    requires !p.PlainPattern?
    ensures At(p, prev, s) == At(p, None, s)
  {
    hide UnitAt, CurrencyAt;
  }

  /** Its own pattern finds a figure, once, with the value it reads back as. */
  lemma OwnScan(prev: Option<char>, t: string, f: Figure, k: string, at: nat)
    requires IsLead(t) && NoLetterFirst(k)
    ensures
      var w := t + FigureStr(f);
      Scan(OwnPattern(f), prev, w + k, at) ==
      [FindOf(t, f, at)] + Scan(OwnPattern(f), Some(w[|w| - 1]), k, at + |w|)
  {
    hide Scan, At, FigureStr, ReadBack, NeverMatches, Negative;
    var p, w := OwnPattern(f), t + FigureStr(f);
    FigureText(t, f, k);
    if !Negative(f) {
      OwnHit(t, f, k);
      PrevNeverMatters(p, prev, w + k);
      ScanSome(p, prev, w, k, at, ReadBack(f));
    } else {
      SignedScan(prev, t, f, k, at);
    }
  }

  lemma SignedScan(prev: Option<char>, t: string, f: Figure, k: string, at: nat)
    requires IsLead(t) && NoLetterFirst(k) && Negative(f)
    ensures
      var w := t + FigureStr(f);
      Scan(OwnPattern(f), prev, w + k, at) ==
      [FindOf(t, f, at)] + Scan(OwnPattern(f), Some(w[|w| - 1]), k, at + |w|)
  {
    hide Scan, At, FigureStr, ReadBack, NeverMatches, Group;
    var p, w := OwnPattern(f), t + FigureStr(f);
    var front := t + if f.Lakh? then ['₹'] else [];
    var signed := ['-'] + (Group(f) + [Unit(f)]);
    FigureText(t, f, k);
    var rest := signed + k;
    assert rest == ['-'] + (Group(f) + ([Unit(f)] + k)) && w + k == front + rest && rest[0] == '-';
    var before := if front == "" then prev else Some(front[|front| - 1]);
    if front == "" {
      assert front + rest == rest;
    } else {
      OwnSkipsFront(f, t, rest);
      SkipsAll(p, prev, front, rest, at);
    }
    OwnSignedHit(f, k);
    PrevNeverMatters(p, before, rest);
    ScanSome(p, before, signed, k, at + |front|, ReadBack(f));
    assert signed[|signed| - 1] == Unit(f);
  }

  // ----- the other patterns ---------------------------------------------------------------------

  lemma FigureIsInner(t: string, f: Figure)
    requires IsLead(t)
    ensures Inner(t + FigureStr(f))
    ensures Negative(f) || f.Percent? ==> NoRupees(t + FigureStr(f))
  {
    var g := Group(f);
    GroupChars(f);
    FigureText(t, f, "");
    hide Group, FigureStr, LakhTenths, PercentOf;
    var w, front := t + FigureStr(f), Front(t, f);
    assert w + "" == w && [Unit(f)] + "" == [Unit(f)];
    assert w == front + (g + [Unit(f)]);
    forall i | 0 <= i < |w| - 1 ensures FigureChar(w[i]) || (i == 0 && w[i] == ' ') {
      if i < |front| { assert w[i] == front[i]; } else { assert w[i] == g[i - |front|]; }
    }
    if Negative(f) || f.Percent? {
      forall i | 0 <= i < |w| - 1 ensures w[i] == '₹' ==> !IsDigit(w[i + 1]) {
        if i < |front| { assert w[i] == front[i]; } else { assert w[i] == g[i - |front|]; }
        if i + 1 < |front| { assert w[i + 1] == front[i + 1]; }
      }
    }
  }

  lemma GroupChars(f: Figure)
    ensures forall i | 0 <= i < |Group(f)| :: IsDigit(Group(f)[i]) || Group(f)[i] == '.'
  {
    hide Show;
  }

  /** A unit pattern that is not the figure's own finds nothing in it. */
  lemma ForeignScan(p: Pattern, prev: Option<char>, t: string, f: Figure, k: string, at: nat)
    requires IsLead(t) && !p.CurrencyPattern? && !p.PlainPattern? && p != OwnPattern(f)
    ensures
      var w := t + FigureStr(f);
      Scan(p, prev, w + k, at) == Scan(p, Some(w[|w| - 1]), k, at + |w|)
  {
    hide Scan, FigureStr, NeverMatches, Inner;
    var w := t + FigureStr(f);
    FigureText(t, f, k);
    FigureIsInner(t, f);
    InnerNever(p, w, k);
    SkipsAll(p, prev, w, k, at);
  }

  /** The currency pattern takes ₹ and digits, up to the L. */
  lemma CurrencyHit(t: string, f: Figure, k: string) returns (v: int)
    requires IsLead(t) && NoLetterFirst(k) && f.Lakh? && !Negative(f)
    ensures CurrencyAt(Front(t, f) + (Group(f) + (['L'] + k))) == Some(Hit(v, |t| + 1 + |Group(f)|))
  {
    hide *;
    var rest := Group(f) + (['L'] + k);
    OwnUnit(f);
    GroupReads(f, k);
    GroupIsNumber(f);
    DigitsFirst(Group(f), ['L'] + k);
    RupeePrefix(t, rest);
    UnsignedFront(t, f, rest);
    SignAndSpaces(t + (['₹'] + rest));
    CurrencyParts(t + (['₹'] + rest), |t|, rest);
    v := Value(WithoutCommas(rest[..GroupRun(rest)]));
    NoSign(v);
  }

  lemma SignAndSpaces(s: string)
    ensures s[0..] == s
  {
  }

  lemma CurrencyParts(s: string, a: nat, rest: string)
    requires a == SignRun(s) + SpaceRun(s[SignRun(s)..]) && a + 1 <= |s| && CurrencyRun(s[a..], true) == 1
    requires s[a + 1..] == rest && rest != "" && IsDigit(rest[0])
    ensures
      var n := GroupRun(rest);
      CurrencyAt(s) == Some(Hit(Negated(SignRun(s) == 1, Value(WithoutCommas(rest[..n]))),
                                a + 1 + n + Pointed(FractionRun(rest, n))))
  {
    hide CurrencyRun, SpaceRun, SignRun, GroupRun, FractionRun, WithoutCommas, Value;
  }

  /** What the currency pattern finds in a figure overlaps what its own pattern found. */
  lemma CurrencyScan(prev: Option<char>, t: string, f: Figure, k: string, at: nat) returns (ms: seq<Found>)
    requires IsLead(t) && NoLetterFirst(k)
    ensures
      var w := t + FigureStr(f);
      Scan(CurrencyPattern, prev, w + k, at) == ms + Scan(CurrencyPattern, Some(w[|w| - 1]), k, at + |w|)
    ensures forall m | m in ms :: Overlap(m, FindOf(t, f, at))
  {
    hide Scan, FigureStr, NeverMatches, Inner, CurrencyAt, Group, NoRupees;
    var p, w := CurrencyPattern, t + FigureStr(f);
    FigureText(t, f, k);
    FigureIsInner(t, f);
    if f.Lakh? && !Negative(f) {
      var v := CurrencyHit(t, f, k);
      var head := Front(t, f) + Group(f);
      assert w + k == head + (['L'] + k) && |head| == |t| + 1 + |Group(f)|;
      ScanSome(p, prev, head, ['L'] + k, at, v);
      LastUnit(p, Some(head[|head| - 1]), k, at + |head|);
      ms := [Found(v, at, at + |head|)];
    } else {
      InnerNever(p, w, k);
      SkipsAll(p, prev, w, k, at);
      ms := [];
      assert Scan(p, prev, w + k, at) == ms + Scan(p, Some(w[|w| - 1]), k, at + |w|);
    }
  }

  lemma LastUnit(p: Pattern, prev: Option<char>, k: string, at: nat)
    requires p.CurrencyPattern?
    ensures Scan(p, prev, ['L'] + k, at) == Scan(p, Some('L'), k, at + 1)
  {
    hide Scan, CurrencyAt, NeverMatches;
    assert Inner("L") && NoRupees("L");
    InnerNever(p, "L", k);
    SkipsAll(p, prev, "L", k, at);
    assert "L" == ['L'];
  }

  predicate PlainChar(c: char) { IsDigit(c) || IsSign(c) || c == ',' || c == '.' }

  /** A plain match begins with a sign or a digit and has only such, commas and a point. */
  lemma PlainChars(prev: Option<char>, s: string)
    requires PlainAt(prev, s).Some?
    ensures IsDigit(s[0]) || IsSign(s[0])
    ensures forall i | 0 <= i < PlainAt(prev, s).value.length :: PlainChar(s[i])
  {
    var a := SignRun(s);
    var rest := s[a..];
    var g := GroupRun(rest);
    var f := FractionRun(rest, g);
    PlainRest(rest);
    hide PlainEnd, GroupRun, FractionRun, WithoutCommas, Value;
    var h := PlainAt(prev, s).value;
    assert h.length == a + PlainEnd(rest);
    forall i | 0 <= i < h.length ensures PlainChar(s[i]) {
      if i >= a { assert rest[i - a] == s[i]; }
    }
    assert rest[0] == s[a];
  }

  lemma PlainRest(s: string)
    requires s != "" && IsDigit(s[0])
    ensures PlainEnd(s) <= |s| && forall i | 0 <= i < PlainEnd(s) :: PlainChar(s[i])
  {
    var g := GroupRun(s);
    var f := FractionRun(s, g);
    if f > 0 {
      var tail := s[g + 1..];
      assert forall i | 0 <= i < f :: IsDigit(tail[i]);
      assert forall i | g + 1 <= i < g + 1 + f :: s[i] == tail[i - g - 1];
    }
  }

  /** Plain matches in a figure lie inside it and begin at its sign or a digit. */
  lemma {:induction false} PlainScan(prev: Option<char>, w: string, k: string, at: nat) returns (ms: seq<Found>)
    requires Inner(w)
    ensures Scan(PlainPattern, prev, w + k, at) == ms + Scan(PlainPattern, Some(w[|w| - 1]), k, at + |w|)
    ensures forall m | m in ms ::
      at <= m.start < m.end < at + |w| && (IsDigit(w[m.start - at]) || IsSign(w[m.start - at]))
    decreases |w|
  {
    hide Scan, PlainAt, Inner;
    var p, s := PlainPattern, w + k;
    OneChar(w);
    HeadAndTail(w, k);
    match At(p, prev, s)
    case None =>
      ScanNone(p, prev, w[0], w[1..] + k, at);
      if |w| == 1 {
        ms := [];
        assert Scan(p, prev, s, at) == [] + Scan(p, Some(w[0]), k, at + 1);
      } else {
        InnerTail(w);
        ms := PlainScan(Some(w[0]), w[1..], k, at + 1);
        assert forall m | m in ms :: w[1..][m.start - (at + 1)] == w[m.start - at];
      }
    case Some(h) =>
      PlainStays(prev, w, k);
      InnerFrom(w, h.length);
      var tail := w[h.length..];
      assert s == w[..h.length] + (tail + k) && s[0] == w[0];
      ScanSome(p, prev, w[..h.length], tail + k, at, h.number);
      var more := PlainScan(Some(w[..h.length][h.length - 1]), tail, k, at + h.length);
      ms := [Found(h.number, at, at + h.length)] + more;
      assert tail[|tail| - 1] == w[|w| - 1];
      assert forall m | m in more :: tail[m.start - (at + h.length)] == w[m.start - at];
      assert Scan(p, prev, s, at) == ms + Scan(p, Some(w[|w| - 1]), k, at + |w|);
  }

  lemma PlainStays(prev: Option<char>, w: string, k: string)
    requires Inner(w) && At(PlainPattern, prev, w + k).Some?
    ensures At(PlainPattern, prev, w + k).value.length < |w| && (IsDigit(w[0]) || IsSign(w[0]))
  {
    var s, e := w + k, |w| - 1;
    PlainChars(prev, s);
    hide PlainAt;
    assert s[e] == w[e] && !PlainChar(w[e]) && s[0] == w[0];
  }

  lemma InnerFrom(w: string, n: nat)
    requires Inner(w) && n < |w|
    ensures Inner(w[n..])
  {
    var t := w[n..];
    assert forall i | 0 <= i < |t| :: t[i] == w[i + n];
    if n > 0 { assert forall i | 0 < i < |w| - 1 :: FigureChar(w[i]); }
  }

  /** So they overlap what the figure's own pattern found. */
  lemma PlainFigure(prev: Option<char>, t: string, f: Figure, k: string, at: nat) returns (ms: seq<Found>)
    requires IsLead(t)
    ensures
      var w := t + FigureStr(f);
      Scan(PlainPattern, prev, w + k, at) == ms + Scan(PlainPattern, Some(w[|w| - 1]), k, at + |w|)
    ensures forall m | m in ms :: Overlap(m, FindOf(t, f, at))
  {
    hide Scan, Inner, FigureStr, Group, ReadBack;
    var w := t + FigureStr(f);
    FigureIsInner(t, f);
    FigureText(t, f, "");
    ms := PlainScan(prev, w, k, at);
    forall m | m in ms ensures Overlap(m, FindOf(t, f, at)) {
      FrontIsNoNumber(t, f, m.start - at);
    }
  }

  lemma FrontIsNoNumber(t: string, f: Figure, i: nat)
    requires IsLead(t) && i < |t + FigureStr(f)|
    requires var c := (t + FigureStr(f))[i]; IsDigit(c) || IsSign(c)
    ensures i >= if f.Lakh? then |t| + 1 else |t|
  {
    if i < |t| || (f.Lakh? && i == |t|) { FrontChar(t, f, i); }
  }

  lemma FrontChar(t: string, f: Figure, i: nat)
    requires IsLead(t) && i < |t + FigureStr(f)| && (i < |t| || (f.Lakh? && i == |t|))
    ensures var c := (t + FigureStr(f))[i]; !IsDigit(c) && !IsSign(c)
  {
    FigureText(t, f, "");
    hide FigureStr, Group;
    var w := t + FigureStr(f);
    assert w + "" == w && w[i] == Front(t, f)[i];
  }
}
