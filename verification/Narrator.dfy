/**
 The grounded narrator of the page: how it prints a signal as lakhs or per cent, its three narrations
 as text, what the gate reads back in them, and when they pass.
 */
module Narrator {
  import opened Options
  import opened Arithmetic
  import opened Digits
  import opened NumberPatterns
  import opened NumberExtraction
  import opened FigureScan
  import opened TextScan
  import opened PieceScan

  // ----- one figure -----------------------------------------------------------------------------

  /** The signal a figure is printed from. */
  function Meant(f: Figure): int {
    match f
    case Lakh(rupee) => rupee
    case Percent(bp) => bp
  }

  predicate Clean(f: Figure) {
    match f
    case Lakh(rupee) => rupee % 10000 == 0
    case Percent(bp) => bp % 100 == 0
  }

  /** A lakh token reads back as its signal exactly when that is a multiple of 10,000 rupees. */
  lemma LakhRoundTrip(rupee: int)
    ensures ReadBack(Lakh(rupee)) == rupee <==> rupee % 10000 == 0
    ensures -5000 <= rupee - ReadBack(Lakh(rupee)) < 5000
  {
  }

  /** A per cent token reads back exactly when the rate is a whole number of per cent. */
  lemma PercentRoundTrip(bp: int)
    ensures ReadBack(Percent(bp)) == bp <==> bp % 100 == 0
    ensures -50 <= bp - ReadBack(Percent(bp)) <= 50
  {
  }

  lemma CleanReadsBack(f: Figure)
    ensures ReadBack(f) == Meant(f) <==> Clean(f)
  {
    match f
    case Lakh(rupee) => LakhRoundTrip(rupee);
    case Percent(bp) => PercentRoundTrip(bp);
  }

  /** A figure alone is a whole text: the gate registers one number in it, the one it reads back as. */
  lemma OneFigure(f: Figure)
    ensures FigureStr(f) == Render([Printed("", f)])
    ensures Chosen(Candidates(FigureStr(f))) == [FindOf("", f, 0)] && FindOf("", f, 0).value == ReadBack(f)
  {
    var ps := [Printed("", f)];
    RenderOne(ps[0]);
    assert "" + FigureStr(f) == FigureStr(f);
    FindReads("", f, 0);
    hide Chosen, Candidates, FigureStr, FindOf, ReadBack, Render;
    RegistersFigures(ps);
    assert ps[1..] == [];
    FindsUnfold(LakhPattern, ps, 0);
    FindsUnfold(PercentPattern, ps, 0);
  }

  lemma RenderOne(p: Piece)
    ensures Render([p]) == PieceStr(p)
  {
    hide PieceStr;
    assert [p][1..] == [];
  }

  // ----- a narration ----------------------------------------------------------------------------

  ghost predicate AllKnownIds(signals: seq<Signal>, ids: seq<string>) {
    forall k: nat | k < |ids| :: KnownId(signals, ids[k])
  }

  /** Every figure printed reads back as some signal. */
  ghost predicate AllReadBack(signals: seq<Signal>, ps: seq<Piece>) {
    forall i: nat | i < |ps| && ps[i].Printed? :: Known(signals, ReadBack(ps[i].f))
  }

  lemma {:induction false} FiguresArePrinted(ps: seq<Piece>, k: nat)
    requires k < |Figures(ps)|
    ensures PrintedIn(ps, Figures(ps)[k])
    decreases |ps|
  {
    var own := if ps[0].Printed? then 1 else 0;
    if k >= own {
      FiguresArePrinted(ps[1..], k - own);
      var i: nat :| i < |ps[1..]| && ps[1..][i].Printed? && ps[1..][i].f == Figures(ps)[k];
      assert ps[i + 1] == ps[1..][i];
    }
  }

  ghost predicate PrintedIn(ps: seq<Piece>, f: Figure) {
    exists i: nat :: i < |ps| && ps[i].Printed? && ps[i].f == f
  }

  lemma {:induction false} PrintedAreFigures(ps: seq<Piece>, i: nat)
    requires i < |ps| && ps[i].Printed?
    ensures ps[i].f in Figures(ps)
    decreases |ps|
  {
    if i > 0 { PrintedAreFigures(ps[1..], i - 1); }
  }

  /** A narration passes exactly when its figures read back as signals and its citations are signals. */
  lemma PassesExactly(signals: seq<Signal>, n: Narration, ps: seq<Piece>)
    requires TextOf(n) == Render(ps) && Tidy(ps) && Behind(None, ps)
    ensures Faithful(signals, n) <==> AllReadBack(signals, ps) && AllKnownIds(signals, n.citedIds)
  {
    hide Known, KnownId, ReadBack, Chosen, Candidates, Tidy, Behind, Figures, Render, TextOf, AllFinds;
    RegistersFigures(ps);
    FindsAreFigures(ps, 0);
    var found, figures := AllFinds(ps, 0), Figures(ps);
    if AllReadBack(signals, ps) {
      forall c | c in found ensures Known(signals, c.value) {
        assert ReadsOneOf(c.value, figures);
        var k: nat :| k < |figures| && c.value == ReadBack(figures[k]);
        FiguresArePrinted(ps, k);
      }
    }
    if forall c | c in found :: Known(signals, c.value) {
      forall i: nat | i < |ps| && ps[i].Printed? ensures Known(signals, ReadBack(ps[i].f)) {
        PrintedAreFigures(ps, i);
        var k: nat :| k < |figures| && figures[k] == ps[i].f;
        assert HasValue(found, ReadBack(figures[k]));
        var j: nat :| j < |found| && found[j].value == ReadBack(figures[k]);
        assert found[j] in found;
      }
    }
  }

  // ----- putting texts together -----------------------------------------------------------------

  lemma {:induction false} RenderJoin(a: seq<Piece>, b: seq<Piece>)
    ensures Render(a + b) == Render(a) + Render(b)
    decreases |a|
  {
    hide *;
    if a == [] {
      assert a + b == b;
      RenderNone(b);
    } else {
      RenderJoin(a[1..], b);
      RenderFirst(a);
      RenderFirst(a + b);
      assert (a + b)[1..] == a[1..] + b && (a + b)[0] == a[0];
      Associative(PieceStr(a[0]), Render(a[1..]), Render(b));
    }
  }

  lemma RenderFirst(ps: seq<Piece>)
    requires ps != []
    ensures Render(ps) == PieceStr(ps[0]) + Render(ps[1..])
  {
    hide PieceStr;
  }

  lemma RenderNone(ps: seq<Piece>)
    ensures Render([]) + Render(ps) == Render(ps)
  {
    hide PieceStr;
    EmptyFirst(Render(ps));
  }

  lemma EmptyFirst(t: string)
    ensures "" + t == t
  {
  }

  lemma Associative(a: string, b: string, c: string)
    ensures a + (b + c) == (a + b) + c
  {
  }

  /** Begins and ends with prose, and is tidy. */
  predicate Passage(ps: seq<Piece>) { ps != [] && ps[0].Prose? && ps[|ps| - 1].Prose? && Tidy(ps) }

  lemma PassagesJoin(a: seq<Piece>, b: seq<Piece>)
    requires Passage(a) && Passage(b) && NoLetterFirst(b[0].s)
    ensures Passage(a + b)
  {
    var all := a + b;
    forall i | 0 <= i < |all| - 1 ensures Fits(all[i], all[i + 1]) {
      if i < |a| - 1 { assert Fits(a[i], a[i + 1]); } else if i >= |a| { assert Fits(b[i - |a|], b[i - |a| + 1]); }
    }
  }

  lemma SpaceIsCalm(s: Calm)
    ensures Quiet(" " + s) && Ends(" " + s)
  {
    var t := " " + s;
    QuietEverywhere(s);
    QuietEverywhere(t);
    hide Quiet;
    forall j: nat | j < |t| ensures QuietAt(t, j) {
      if j > 0 { assert QuietAt(s, j - 1); }
      assert forall i: nat | i < |s| :: t[i + 1] == s[i];
    }
  }

  /** The passage behind a space. */
  function Spaced(ps: seq<Piece>): seq<Piece>
    requires Passage(ps)
  {
    SpaceIsCalm(ps[0].s);
    [Prose(" " + ps[0].s)] + ps[1..]
  }

  lemma SpacedIsPassage(ps: seq<Piece>)
    requires Passage(ps)
    ensures Passage(Spaced(ps)) && NoLetterFirst(Spaced(ps)[0].s) && Render(Spaced(ps)) == " " + Render(ps)
  {
    hide *;
    SpacedFits(ps);
    SpacedText(ps);
    SpacedParts(ps);
    SameTail(ps, Spaced(ps));
  }

  lemma SpacedParts(ps: seq<Piece>)
    requires Passage(ps)
    ensures ps != [] && |Spaced(ps)| == |ps| && Spaced(ps)[0].Prose? && NoLetterFirst(Spaced(ps)[0].s)
    ensures forall i | 0 < i < |ps| :: Spaced(ps)[i] == ps[i]
  {
    SpaceIsCalm(ps[0].s);
    hide Quiet, Ends, Fits;
  }

  /** A passage with another first piece, of prose, that fits. */
  lemma SameTail(ps: seq<Piece>, all: seq<Piece>)
    requires Passage(ps) && |all| == |ps| && all[0].Prose? && forall i | 0 < i < |ps| :: all[i] == ps[i]
    requires |ps| > 1 ==> Fits(all[0], ps[1])
    ensures Passage(all)
  {
    hide Quiet, Ends, Fits;
    forall i | 0 <= i < |all| - 1 ensures Fits(all[i], all[i + 1]) {
      assert Fits(ps[i], ps[i + 1]);
    }
  }

  lemma SpacedFits(ps: seq<Piece>)
    requires Passage(ps)
    ensures |ps| > 1 ==> Fits(Spaced(ps)[0], ps[1])
  {
    SpaceIsCalm(ps[0].s);
    LastStays(ps[0].s);
    hide Quiet;
    if |ps| > 1 { assert Fits(ps[0], ps[0 + 1]); }
  }

  lemma SpacedText(ps: seq<Piece>)
    requires Passage(ps)
    ensures Render(Spaced(ps)) == " " + Render(ps)
  {
    SpaceIsCalm(ps[0].s);
    hide Quiet, Ends, Tidy;
    var all := Spaced(ps);
    assert all[1..] == ps[1..];
    Associative(" ", ps[0].s, Render(ps[1..]));
  }

  lemma LastStays(s: string)
    requires s != ""
    ensures (" " + s)[|" " + s| - 1] == s[|s| - 1]
  {
  }

  /** Headline, space and body are one tidy text. */
  lemma TextIsRendered(headline: seq<Piece>, body: seq<Piece>, ids: seq<string>)
    requires Passage(headline) && Passage(body)
    ensures
      var n, ps := Narration(Render(headline), Render(body), ids), headline + Spaced(body);
      TextOf(n) == Render(ps) && Tidy(ps) && Behind(None, ps)
  {
    hide Render, Tidy, Spaced;
    SpacedIsPassage(body);
    PassagesJoin(headline, Spaced(body));
    RenderJoin(headline, Spaced(body));
    assert Render(headline) + (" " + Render(body)) == Render(headline) + " " + Render(body);
  }

  // ----- the page's three narrations ------------------------------------------------------------

  datatype Canonical = Canonical(
    realizedMu: int, cogsMu: int, variableMu: int, adSpendMu: int, miscMu: int, rtoBp: int)

  function Cm1(c: Canonical): int { c.realizedMu - c.cogsMu - c.variableMu }
  function Cm2(c: Canonical): int { Cm1(c) - c.adSpendMu }
  function Cm3(c: Canonical): int { Cm2(c) - c.miscMu }
  function Rupee(paise: int): int { TruncDiv(paise, 100) }

  function PnlSignals(c: Canonical): seq<Signal> {
    [Signal("realized_revenue_mu", Rupee(c.realizedMu)), Signal("cogs_mu", Rupee(c.cogsMu)),
     Signal("total_ad_spend_mu", Rupee(c.adSpendMu)), Signal("cm1_mu", Rupee(Cm1(c))),
     Signal("cm2_mu", Rupee(Cm2(c))), Signal("cm3_mu", Rupee(Cm3(c))), Signal("rto_rate_bp", c.rtoBp)]
  }

  type Word = s: string | Ends(s) && NoLetterFirst(s) && Quiet(s) witness "."

  lemma LongWord()
    ensures Quiet(" Profitability")
  {
  }

  const CM: Calm := "CM"
  const HOLDS_AT: Word := " holds at"
  const AFTER: Word := " after"
  const AD_SPEND: Word := " ad spend"
  const ON: Calm := "On"
  const REALIZED: Word := " realized"
  const REVENUE_COMMA: Word := " revenue,"
  const CONTRIBUTION: Word := " contribution"
  const MARGIN: Word := " margin"
  const AFTER_ADS: Word := " after ads"
  const OPEN_CM: Word := " (CM"
  const CLOSE_IS: Word := ") is"
  const STOP: Word := "."
  const AD_SPEND_OF: Word := " Ad spend of"
  const IS_BEING: Word := " is being"
  const EARNED_BACK: Word := " earned back"
  const DASH_CM: Word := " — CM"
  const STAYS: Word := " stays"
  const POSITIVE: Word := " positive."
  const RTO_AT: Calm := "RTO at"
  const IS: Word := " is"
  const COMPRESSING: Word := " compressing"
  const REVENUE: Word := " revenue"
  const RETURN: Calm := "Return"
  const TO_ORIGIN: Word := "-to-origin"
  const IS_RUNNING: Word := " is running"
  const AT: Word := " at"
  const WHICH: Word := ", which"
  const ALREADY: Word := " already"
  const NETS_OUT_OF: Word := " nets out of"
  const THE: Word := " the"
  const BASE: Word := " base."
  const LOWERING: Word := " Lowering"
  const RTO_FLOWS: Word := " RTO flows"
  const STRAIGHT: Word := " straight"
  const THROUGH: Word := " through"
  const TO_CM: Word := " to CM"
  const OPEN: Word := " ("
  const CLOSE: Word := ")."
  const OF: Word := " of"
  const LEAVES_ROOM: Word := " leaves room"
  const OVERHEADS: Word := " overheads"
  const AFTER_FIXED: Calm := "After fixed"
  const OVERHEADS_COMMA: Word := " overheads,"
  const THREE: Word := " three"
  const CLOSE_TO: Word := " — close to"
  const TWO_OF: Word := " two of"
  const SO: Word := ", so"
  const OVERHEAD: Word := " overhead"
  const DRAG: Word := " drag"
  const IS_MODEST: Word := " is modest."
  const PROFITABILITY: Word := (LongWord(); " Profitability")
  const IS_LED_BY: Word := " is led by"
  const HYPHENED: Word := " after-ads"
  const MARGIN_COMMA: Word := " margin,"
  const NOT_AD: Word := " not ad"
  const EFFICIENCY: Word := " efficiency"
  const ALONE: Word := " alone."

  // CM2 holds.

  function HoldsHeadline(cm2: Figure, ads: Figure): seq<Piece> {
    [Prose(CM), Cipher('2'), Prose(HOLDS_AT), Printed(" ", cm2), Prose(AFTER), Printed(" ", ads),
     Prose(AD_SPEND)]
  }

  function HoldsOn(realized: Figure, cm2: Figure): seq<Piece> {
    [Prose(ON), Printed(" ", realized), Prose(REALIZED), Prose(REVENUE_COMMA), Prose(CONTRIBUTION),
     Prose(MARGIN), Prose(AFTER_ADS), Prose(OPEN_CM), Cipher('2'), Prose(CLOSE_IS), Printed(" ", cm2),
     Prose(STOP)]
  }

  function HoldsSpend(ads: Figure): seq<Piece> {
    [Prose(AD_SPEND_OF), Printed(" ", ads), Prose(IS_BEING), Prose(EARNED_BACK), Prose(DASH_CM), Cipher('2'),
     Prose(STAYS), Prose(POSITIVE)]
  }

  // RTO runs high.

  function RtoHeadline(rto: Figure): seq<Piece> {
    [Prose(RTO_AT), Printed(" ", rto), Prose(IS), Prose(COMPRESSING), Prose(REALIZED), Prose(REVENUE)]
  }

  function RtoRuns(rto: Figure, realized: Figure): seq<Piece> {
    [Prose(RETURN), Prose(TO_ORIGIN), Prose(IS_RUNNING), Prose(AT), Printed(" ", rto), Prose(WHICH),
     Prose(ALREADY), Prose(NETS_OUT_OF), Prose(THE), Printed(" ", realized), Prose(REALIZED), Prose(BASE)]
  }

  function RtoFlows(cm2: Figure): seq<Piece> {
    [Prose(LOWERING), Prose(RTO_FLOWS), Prose(STRAIGHT), Prose(THROUGH), Prose(TO_CM), Cipher('2'),
     Prose(OPEN), Printed("", cm2), Prose(CLOSE)]
  }

  // CM3 leaves room.

  function RoomHeadline(cm3: Figure): seq<Piece> {
    [Prose(CM), Cipher('3'), Prose(OF), Printed(" ", cm3), Prose(LEAVES_ROOM), Prose(AFTER),
     Prose(OVERHEADS)]
  }

  function RoomAfter(cm3: Figure): seq<Piece> {
    [Prose(AFTER_FIXED), Prose(OVERHEADS_COMMA), Prose(CONTRIBUTION), Prose(MARGIN), Prose(THREE),
     Prose(OPEN_CM), Cipher('3'), Prose(CLOSE_IS), Printed(" ", cm3), Prose(CLOSE_TO)]
  }

  function RoomClose(cm2: Figure): seq<Piece> {
    [Prose(CONTRIBUTION), Prose(MARGIN), Prose(TWO_OF), Printed(" ", cm2), Prose(SO), Prose(OVERHEAD),
     Prose(DRAG), Prose(IS_MODEST)]
  }

  function RoomLed(): seq<Piece> {
    [Prose(PROFITABILITY), Prose(IS_LED_BY), Prose(THE), Prose(HYPHENED), Prose(MARGIN_COMMA), Prose(NOT_AD),
     Prose(EFFICIENCY), Prose(ALONE)]
  }

  lemma DigitsFit()
    ensures IsLetter(CM[|CM| - 1]) && IsLetter(OPEN_CM[|OPEN_CM| - 1])
    ensures IsLetter(DASH_CM[|DASH_CM| - 1]) && IsLetter(TO_CM[|TO_CM| - 1])
    ensures FollowsDigit(HOLDS_AT) && FollowsDigit(CLOSE_IS) && FollowsDigit(STAYS) && FollowsDigit(OPEN)
      && FollowsDigit(OF)
  {
    OneSpaceFollows(HOLDS_AT);
    OneSpaceFollows(STAYS);
    OneSpaceFollows(OPEN);
    OneSpaceFollows(OF);
    hide Quiet, Ends, NoLetterFirst;
  }

  lemma OneSpaceFollows(w: string)
    requires |w| > 1 && w[0] == ' ' && !IsSpace(w[1]) && w[1] != '%' && w[1] !in "LlCc"
    ensures FollowsDigit(w)
  {
    SpacesStop(w, 1);
  }

  /** A passage that shows these figures, and no other. */
  ghost predicate Shows(ps: seq<Piece>, fs: set<Figure>) {
    Passage(ps) && forall f :: f in fs <==> PrintedIn(ps, f)
  }

  lemma HoldsHeadlineShows(cm2: Figure, ads: Figure)
    ensures Shows(HoldsHeadline(cm2, ads), {cm2, ads})
  {
    DigitsFit();
    hide Quiet, Ends, NoLetterFirst, FollowsDigit, IsLetter;
    var ps := HoldsHeadline(cm2, ads);
    assert ps[3].f == cm2 && ps[5].f == ads;
  }

  lemma HoldsOnShows(realized: Figure, cm2: Figure)
    ensures Shows(HoldsOn(realized, cm2), {realized, cm2})
  {
    DigitsFit();
    hide Quiet, Ends, NoLetterFirst, FollowsDigit, IsLetter;
    var ps := HoldsOn(realized, cm2);
    assert ps[1].f == realized && ps[10].f == cm2;
  }

  lemma HoldsSpendShows(ads: Figure)
    ensures Shows(HoldsSpend(ads), {ads})
  {
    DigitsFit();
    hide Quiet, Ends, NoLetterFirst, FollowsDigit, IsLetter;
    var ps := HoldsSpend(ads);
    assert ps[1].f == ads;
  }

  lemma RtoHeadlineShows(rto: Figure)
    ensures Shows(RtoHeadline(rto), {rto})
  {
    DigitsFit();
    hide Quiet, Ends, NoLetterFirst, FollowsDigit, IsLetter;
    var ps := RtoHeadline(rto);
    assert ps[1].f == rto;
  }

  lemma RtoRunsShows(rto: Figure, realized: Figure)
    ensures Shows(RtoRuns(rto, realized), {rto, realized})
  {
    DigitsFit();
    hide Quiet, Ends, NoLetterFirst, FollowsDigit, IsLetter;
    var ps := RtoRuns(rto, realized);
    assert ps[4].f == rto && ps[9].f == realized;
  }

  lemma RtoFlowsShows(cm2: Figure)
    ensures Shows(RtoFlows(cm2), {cm2})
  {
    DigitsFit();
    hide Quiet, Ends, NoLetterFirst, FollowsDigit, IsLetter;
    var ps := RtoFlows(cm2);
    assert ps[7].f == cm2;
  }

  lemma RoomHeadlineShows(cm3: Figure)
    ensures Shows(RoomHeadline(cm3), {cm3})
  {
    DigitsFit();
    hide Quiet, Ends, NoLetterFirst, FollowsDigit, IsLetter;
    var ps := RoomHeadline(cm3);
    assert ps[3].f == cm3;
  }

  lemma RoomAfterShows(cm3: Figure)
    ensures Shows(RoomAfter(cm3), {cm3})
  {
    DigitsFit();
    hide Quiet, Ends, NoLetterFirst, FollowsDigit, IsLetter;
    var ps := RoomAfter(cm3);
    assert ps[8].f == cm3;
  }

  lemma RoomCloseShows(cm2: Figure)
    ensures Shows(RoomClose(cm2), {cm2})
  {
    DigitsFit();
    hide Quiet, Ends, NoLetterFirst, FollowsDigit, IsLetter;
    var ps := RoomClose(cm2);
    assert ps[3].f == cm2;
  }

  lemma RoomLedShows()
    ensures Shows(RoomLed(), {})
  {
    DigitsFit();
    hide Quiet, Ends, NoLetterFirst, FollowsDigit, IsLetter;
  }

  lemma ShowsJoin(a: seq<Piece>, b: seq<Piece>, fa: set<Figure>, fb: set<Figure>)
    requires Shows(a, fa) && Shows(b, fb) && NoLetterFirst(b[0].s)
    ensures Shows(a + b, fa + fb)
  {
    hide Passage, NoLetterFirst;
    PassagesJoin(a, b);
    PrintedJoin(a, b);
  }

  lemma PrintedJoin(a: seq<Piece>, b: seq<Piece>)
    ensures forall f :: PrintedIn(a + b, f) <==> PrintedIn(a, f) || PrintedIn(b, f)
  {
    var all := a + b;
    forall f ensures PrintedIn(all, f) <==> PrintedIn(a, f) || PrintedIn(b, f) {
      if PrintedIn(a, f) {
        var i: nat :| i < |a| && a[i].Printed? && a[i].f == f;
        assert all[i] == a[i];
      }
      if PrintedIn(b, f) {
        var i: nat :| i < |b| && b[i].Printed? && b[i].f == f;
        assert all[|a| + i] == b[i];
      }
      if PrintedIn(all, f) {
        var i: nat :| i < |all| && all[i].Printed? && all[i].f == f;
        assert if i < |a| then all[i] == a[i] else all[i] == b[i - |a|];
      }
    }
  }

  lemma SpacedFigures(ps: seq<Piece>)
    requires Passage(ps)
    ensures |Spaced(ps)| == |ps|
    ensures forall i: nat | i < |ps| && (ps[i].Printed? || Spaced(ps)[i].Printed?) :: Spaced(ps)[i] == ps[i]
  {
    SpaceIsCalm(ps[0].s);
    hide Quiet, Ends;
  }

  lemma ShowsSpaced(ps: seq<Piece>, fs: set<Figure>)
    requires Shows(ps, fs)
    ensures Shows(Spaced(ps), fs) && NoLetterFirst(Spaced(ps)[0].s)
  {
    SpacedIsPassage(ps);
    SpacedFigures(ps);
    hide Passage, NoLetterFirst, Quiet, Ends, Spaced;
    var all := Spaced(ps);
    forall f ensures PrintedIn(all, f) <==> PrintedIn(ps, f) {
      if PrintedIn(ps, f) {
        var i: nat :| i < |ps| && ps[i].Printed? && ps[i].f == f;
        assert all[i] == ps[i];
      }
      if PrintedIn(all, f) {
        var i: nat :| i < |all| && all[i].Printed? && all[i].f == f;
        assert all[i] == ps[i];
      }
    }
  }

  // ----- the page -------------------------------------------------------------------------------

  function Ads(c: Canonical): Figure { Lakh(Rupee(c.adSpendMu)) }
  function Realized(c: Canonical): Figure { Lakh(Rupee(c.realizedMu)) }
  function Margin2(c: Canonical): Figure { Lakh(Rupee(Cm2(c))) }
  function Margin3(c: Canonical): Figure { Lakh(Rupee(Cm3(c))) }
  function Rto(c: Canonical): Figure { Percent(c.rtoBp) }

  /** The narrations: 0 about CM2, 1 about returns to origin, 2 about CM3. */
  function Headline(c: Canonical, n: nat): seq<Piece> {
    if n == 0 then HoldsHeadline(Margin2(c), Ads(c))
    else if n == 1 then RtoHeadline(Rto(c))
    else RoomHeadline(Margin3(c))
  }

  function Body(c: Canonical, n: nat): seq<Piece> {
    if n == 0 then HoldsOn(Realized(c), Margin2(c)) + HoldsSpend(Ads(c))
    else if n == 1 then RtoRuns(Rto(c), Realized(c)) + RtoFlows(Margin2(c))
    else RoomAfter(Margin3(c)) + (RoomClose(Margin2(c)) + RoomLed())
  }

  function Cited(n: nat): seq<string> {
    if n == 0 then ["realized_revenue_mu", "cm2_mu", "total_ad_spend_mu"]
    else if n == 1 then ["rto_rate_bp", "realized_revenue_mu", "cm2_mu"]
    else ["cm3_mu", "cm2_mu"]
  }

  function PageNarration(c: Canonical, n: nat): Narration {
    Narration(Render(Headline(c, n)), Render(Body(c, n)), Cited(n))
  }

  /** The figures in the text of narration n. */
  function PageFigures(c: Canonical, n: nat): set<Figure> {
    if n == 0 then {Margin2(c), Ads(c), Realized(c)}
    else if n == 1 then {Rto(c), Realized(c), Margin2(c)}
    else {Margin3(c), Margin2(c)}
  }

  /** The signals of the page, each by its own name, in rupees cut off, and the rate in basis points. */
  lemma SignalsExactly(c: Canonical)
    ensures PnlSignals(c) ==
            [Signal("realized_revenue_mu", TruncDiv(c.realizedMu, 100)), Signal("cogs_mu", TruncDiv(c.cogsMu, 100)),
             Signal("total_ad_spend_mu", TruncDiv(c.adSpendMu, 100)),
             Signal("cm1_mu", TruncDiv(c.realizedMu - c.cogsMu - c.variableMu, 100)),
             Signal("cm2_mu", TruncDiv(c.realizedMu - c.cogsMu - c.variableMu - c.adSpendMu, 100)),
             Signal("cm3_mu", TruncDiv(c.realizedMu - c.cogsMu - c.variableMu - c.adSpendMu - c.miscMu, 100)),
             Signal("rto_rate_bp", c.rtoBp)]
  {
  }

  predicate FigureAt(ps: seq<Piece>, i: nat, f: Figure) { i < |ps| && ps[i].Printed? && ps[i].f == f }

  predicate DigitAt(ps: seq<Piece>, i: nat, d: char) { i < |ps| && ps[i].Cipher? && ps[i].c == d }

  /** The margin after ads. */
  function AfterAds(c: Canonical): Figure { Lakh(TruncDiv(c.realizedMu - c.cogsMu - c.variableMu - c.adSpendMu, 100)) }

  /** The margin after ads and overheads. */
  function AfterOverheads(c: Canonical): Figure {
    Lakh(TruncDiv(c.realizedMu - c.cogsMu - c.variableMu - c.adSpendMu - c.miscMu, 100))
  }

  lemma HoldsHeadlinePlaces(cm2: Figure, ads: Figure)
    ensures
      var ps := HoldsHeadline(cm2, ads);
      |ps| == 7 && DigitAt(ps, 1, '2') && FigureAt(ps, 3, cm2) && FigureAt(ps, 5, ads)
  {
    hide Quiet, Ends;
  }

  lemma HoldsOnPlaces(realized: Figure, cm2: Figure)
    ensures
      var ps := HoldsOn(realized, cm2);
      |ps| == 12 && FigureAt(ps, 1, realized) && DigitAt(ps, 8, '2') && FigureAt(ps, 10, cm2)
  {
    hide Quiet, Ends;
  }

  lemma HoldsSpendPlaces(ads: Figure)
    ensures
      var ps := HoldsSpend(ads);
      |ps| == 8 && FigureAt(ps, 1, ads) && DigitAt(ps, 5, '2')
  {
    hide Quiet, Ends;
  }

  lemma RtoHeadlinePlaces(rto: Figure)
    ensures
      var ps := RtoHeadline(rto);
      |ps| == 6 && FigureAt(ps, 1, rto)
  {
    hide Quiet, Ends;
  }

  lemma RtoRunsPlaces(rto: Figure, realized: Figure)
    ensures
      var ps := RtoRuns(rto, realized);
      |ps| == 12 && FigureAt(ps, 4, rto) && FigureAt(ps, 9, realized)
  {
    hide Quiet, Ends;
  }

  lemma RtoFlowsPlaces(cm2: Figure)
    ensures
      var ps := RtoFlows(cm2);
      |ps| == 9 && DigitAt(ps, 5, '2') && FigureAt(ps, 7, cm2)
  {
    hide Quiet, Ends;
  }

  lemma RoomHeadlinePlaces(cm3: Figure)
    ensures
      var ps := RoomHeadline(cm3);
      |ps| == 7 && DigitAt(ps, 1, '3') && FigureAt(ps, 3, cm3)
  {
    hide Quiet, Ends;
  }

  lemma RoomAfterPlaces(cm3: Figure)
    ensures
      var ps := RoomAfter(cm3);
      |ps| == 10 && DigitAt(ps, 6, '3') && FigureAt(ps, 8, cm3)
  {
    hide Quiet, Ends;
  }

  lemma RoomClosePlaces(cm2: Figure)
    ensures
      var ps := RoomClose(cm2);
      |ps| == 8 && FigureAt(ps, 3, cm2)
  {
    hide Quiet, Ends;
  }

  lemma PlacesJoin(a: seq<Piece>, b: seq<Piece>, i: nat, d: char, f: Figure)
    ensures FigureAt(a, i, f) ==> FigureAt(a + b, i, f)
    ensures DigitAt(a, i, d) ==> DigitAt(a + b, i, d)
    ensures FigureAt(b, i, f) ==> FigureAt(a + b, |a| + i, f)
    ensures DigitAt(b, i, d) ==> DigitAt(a + b, |a| + i, d)
  {
  }

  lemma PageIs(c: Canonical)
    ensures Margin2(c) == AfterAds(c) && Margin3(c) == AfterOverheads(c) && Rto(c) == Percent(c.rtoBp)
    ensures Ads(c) == Lakh(TruncDiv(c.adSpendMu, 100)) && Realized(c) == Lakh(TruncDiv(c.realizedMu, 100))
    ensures Headline(c, 0) == HoldsHeadline(Margin2(c), Ads(c)) && Headline(c, 1) == RtoHeadline(Rto(c))
    ensures Headline(c, 2) == RoomHeadline(Margin3(c))
    ensures Body(c, 0) == HoldsOn(Realized(c), Margin2(c)) + HoldsSpend(Ads(c))
    ensures Body(c, 1) == RtoRuns(Rto(c), Realized(c)) + RtoFlows(Margin2(c))
    ensures Body(c, 2) == RoomAfter(Margin3(c)) + (RoomClose(Margin2(c)) + RoomLed())
  {
    hide TruncDiv, HoldsOn, HoldsSpend, RtoRuns, RtoFlows, RoomAfter, RoomClose, RoomLed, HoldsHeadline, RtoHeadline,
      RoomHeadline;
  }

  /** Which figure stands where in the first text: behind CM2 the margin after ads. */
  lemma HoldsInPlace(c: Canonical)
    ensures
      var h, b, ads := Headline(c, 0), Body(c, 0), Lakh(TruncDiv(c.adSpendMu, 100));
      && DigitAt(h, 1, '2') && FigureAt(h, 3, AfterAds(c)) && FigureAt(h, 5, ads)
      && FigureAt(b, 1, Lakh(TruncDiv(c.realizedMu, 100))) && DigitAt(b, 8, '2') && FigureAt(b, 10, AfterAds(c))
      && FigureAt(b, 13, ads) && DigitAt(b, 17, '2')
  {
    hide *;
    PageIs(c);
    HoldsHeadlinePlaces(Margin2(c), Ads(c));
    HoldsOnPlaces(Realized(c), Margin2(c));
    HoldsSpendPlaces(Ads(c));
    var x, y := HoldsOn(Realized(c), Margin2(c)), HoldsSpend(Ads(c));
    PlacesJoin(x, y, 1, '2', Realized(c));
    PlacesJoin(x, y, 8, '2', Realized(c));
    PlacesJoin(x, y, 10, '2', Margin2(c));
    PlacesJoin(x, y, 1, '2', Ads(c));
    PlacesJoin(x, y, 5, '2', Ads(c));
  }

  /** In the second text: the rate, the revenue it nets out of, and behind CM2 the margin after ads. */
  lemma RtoInPlace(c: Canonical)
    ensures
      var h, b := Headline(c, 1), Body(c, 1);
      && FigureAt(h, 1, Percent(c.rtoBp)) && FigureAt(b, 4, Percent(c.rtoBp))
      && FigureAt(b, 9, Lakh(TruncDiv(c.realizedMu, 100))) && DigitAt(b, 17, '2') && FigureAt(b, 19, AfterAds(c))
  {
    hide *;
    PageIs(c);
    RtoHeadlinePlaces(Rto(c));
    RtoRunsPlaces(Rto(c), Realized(c));
    RtoFlowsPlaces(Margin2(c));
    var x, y := RtoRuns(Rto(c), Realized(c)), RtoFlows(Margin2(c));
    PlacesJoin(x, y, 4, '2', Rto(c));
    PlacesJoin(x, y, 9, '2', Realized(c));
    PlacesJoin(x, y, 5, '2', Margin2(c));
    PlacesJoin(x, y, 7, '2', Margin2(c));
  }

  /** In the third: behind CM3 the margin after overheads, and then the margin after ads. */
  lemma RoomInPlace(c: Canonical)
    ensures
      var h, b := Headline(c, 2), Body(c, 2);
      && DigitAt(h, 1, '3') && FigureAt(h, 3, AfterOverheads(c))
      && DigitAt(b, 6, '3') && FigureAt(b, 8, AfterOverheads(c)) && FigureAt(b, 13, AfterAds(c))
  {
    hide *;
    PageIs(c);
    RoomHeadlinePlaces(Margin3(c));
    RoomAfterPlaces(Margin3(c));
    RoomClosePlaces(Margin2(c));
    var x, y := RoomAfter(Margin3(c)), RoomClose(Margin2(c)) + RoomLed();
    PlacesJoin(RoomClose(Margin2(c)), RoomLed(), 3, '3', Margin2(c));
    PlacesJoin(x, y, 6, '3', Margin3(c));
    PlacesJoin(x, y, 8, '3', Margin3(c));
    PlacesJoin(x, y, 3, '3', Margin2(c));
  }

  lemma HoldsShows(c: Canonical)
    ensures Shows(Headline(c, 0), {Margin2(c), Ads(c)}) && Shows(Body(c, 0), {Realized(c), Margin2(c)} + {Ads(c)})
  {
    hide Shows, Passage, Quiet, Ends, HoldsHeadline, HoldsOn;
    HoldsHeadlineShows(Margin2(c), Ads(c));
    HoldsOnShows(Realized(c), Margin2(c));
    HoldsSpendShows(Ads(c));
    ShowsJoin(HoldsOn(Realized(c), Margin2(c)), HoldsSpend(Ads(c)), {Realized(c), Margin2(c)}, {Ads(c)});
  }

  lemma RtoShows(c: Canonical)
    ensures Shows(Headline(c, 1), {Rto(c)}) && Shows(Body(c, 1), {Rto(c), Realized(c)} + {Margin2(c)})
  {
    hide Shows, Passage, Quiet, Ends, RtoHeadline, RtoRuns;
    RtoHeadlineShows(Rto(c));
    RtoRunsShows(Rto(c), Realized(c));
    RtoFlowsShows(Margin2(c));
    ShowsJoin(RtoRuns(Rto(c), Realized(c)), RtoFlows(Margin2(c)), {Rto(c), Realized(c)}, {Margin2(c)});
  }

  lemma RoomShows(c: Canonical)
    ensures Shows(Headline(c, 2), {Margin3(c)}) && Shows(Body(c, 2), {Margin3(c)} + ({Margin2(c)} + {}))
  {
    hide Shows, Passage, Quiet, Ends, RoomHeadline, RoomAfter;
    RoomHeadlineShows(Margin3(c));
    RoomAfterShows(Margin3(c));
    RoomCloseShows(Margin2(c));
    RoomLedShows();
    ShowsJoin(RoomClose(Margin2(c)), RoomLed(), {Margin2(c)}, {});
    ShowsJoin(RoomAfter(Margin3(c)), RoomClose(Margin2(c)) + RoomLed(), {Margin3(c)}, {Margin2(c)} + {});
  }

  lemma TextShows(c: Canonical, n: nat) returns (ps: seq<Piece>)
    requires n < 3
    ensures Shows(ps, PageFigures(c, n)) && TextOf(PageNarration(c, n)) == Render(ps) && Tidy(ps) && Behind(None, ps)
  {
    FiguresOf(c);
    if n == 0 {
      HoldsShows(c);
      hide *;
      ps := Together(c, 0, {Margin2(c), Ads(c)}, {Realized(c), Margin2(c)} + {Ads(c)});
    } else if n == 1 {
      RtoShows(c);
      hide *;
      ps := Together(c, 1, {Rto(c)}, {Rto(c), Realized(c)} + {Margin2(c)});
    } else {
      RoomShows(c);
      hide *;
      ps := Together(c, 2, {Margin3(c)}, {Margin3(c)} + ({Margin2(c)} + {}));
    }
  }

  lemma FiguresOf(c: Canonical)
    ensures PageFigures(c, 0) == {Margin2(c), Ads(c)} + ({Realized(c), Margin2(c)} + {Ads(c)})
    ensures PageFigures(c, 1) == {Rto(c)} + ({Rto(c), Realized(c)} + {Margin2(c)})
    ensures PageFigures(c, 2) == {Margin3(c)} + ({Margin3(c)} + ({Margin2(c)} + {}))
  {
    hide Margin2, Margin3, Ads, Rto, Realized;
  }

  lemma Together(c: Canonical, n: nat, fh: set<Figure>, fb: set<Figure>) returns (ps: seq<Piece>)
    requires Shows(Headline(c, n), fh) && Shows(Body(c, n), fb)
    ensures Shows(ps, fh + fb) && TextOf(PageNarration(c, n)) == Render(ps) && Tidy(ps) && Behind(None, ps)
  {
    hide *;
    var headline, body := Headline(c, n), Body(c, n);
    ShowsPassage(headline, fh);
    ShowsPassage(body, fb);
    ShowsSpaced(body, fb);
    ShowsJoin(headline, Spaced(body), fh, fb);
    ps := headline + Spaced(body);
    TextIsRendered(headline, body, Cited(n));
    PageNarrationIs(c, n);
  }

  lemma ShowsPassage(ps: seq<Piece>, fs: set<Figure>)
    requires Shows(ps, fs)
    ensures Passage(ps)
  {
  }

  lemma PageNarrationIs(c: Canonical, n: nat)
    ensures PageNarration(c, n) == Narration(Render(Headline(c, n)), Render(Body(c, n)), Cited(n))
  {
    hide Render, Headline, Body, Cited;
  }

  lemma CitationsAreSignals(c: Canonical, n: nat)
    requires n < 3
    ensures AllKnownIds(PnlSignals(c), PageNarration(c, n).citedIds)
  {
    hide Rupee, Cm1, Cm2, Cm3, Headline, Body, Render;
    var s := PnlSignals(c);
    assert s[0].id == "realized_revenue_mu" && s[2].id == "total_ad_spend_mu";
    assert s[4].id == "cm2_mu" && s[5].id == "cm3_mu" && s[6].id == "rto_rate_bp";
  }

  /** A narration of the page passes exactly when each of its figures reads back as some signal. */
  lemma PagePassesExactly(c: Canonical, n: nat)
    requires n < 3
    ensures Faithful(PnlSignals(c), PageNarration(c, n)) <==>
            forall f | f in PageFigures(c, n) :: Known(PnlSignals(c), ReadBack(f))
  {
    hide Faithful, Known, ReadBack, PnlSignals, PageNarration, PageFigures, Passage, Tidy, Behind, AllKnownIds;
    var ps := TextShows(c, n);
    PassesExactly(PnlSignals(c), PageNarration(c, n), ps);
    CitationsAreSignals(c, n);
    PrintedStandForAll(PnlSignals(c), ps, PageFigures(c, n));
  }

  lemma PrintedStandForAll(signals: seq<Signal>, ps: seq<Piece>, fs: set<Figure>)
    requires Shows(ps, fs)
    ensures AllReadBack(signals, ps) <==> forall f | f in fs :: Known(signals, ReadBack(f))
  {
    hide Known, ReadBack, Passage;
    if AllReadBack(signals, ps) {
      forall f | f in fs ensures Known(signals, ReadBack(f)) {
        assert PrintedIn(ps, f);
        var i: nat :| i < |ps| && ps[i].Printed? && ps[i].f == f;
      }
    }
    if forall f | f in fs :: Known(signals, ReadBack(f)) {
      forall i: nat | i < |ps| && ps[i].Printed? ensures Known(signals, ReadBack(ps[i].f)) {
        assert PrintedIn(ps, ps[i].f);
      }
    }
  }

  /** Lakh amounts are whole multiples of 10,000 rupees, and the RTO rate of one per cent. */
  predicate CleanPage(c: Canonical) {
    Clean(Margin2(c)) && Clean(Margin3(c)) && Clean(Ads(c)) && Clean(Realized(c)) && Clean(Rto(c))
  }

  lemma FiguresAreSignals(c: Canonical, n: nat, f: Figure)
    requires f in PageFigures(c, n)
    ensures Known(PnlSignals(c), Meant(f)) && (CleanPage(c) ==> Clean(f))
  {
    hide Rupee, Cm1, Cm2, Cm3, Clean;
    var s := PnlSignals(c);
    assert s[0].canonical == Rupee(c.realizedMu) && s[2].canonical == Rupee(c.adSpendMu);
    assert s[4].canonical == Rupee(Cm2(c)) && s[5].canonical == Rupee(Cm3(c)) && s[6].canonical == c.rtoBp;
  }

  /** On clean numbers every narration of the page passes the gate. */
  lemma NarratorIsFaithful(c: Canonical, n: nat)
    requires CleanPage(c) && n < 3
    ensures Faithful(PnlSignals(c), PageNarration(c, n))
  {
    hide Faithful, Known, Clean, ReadBack, Meant, CleanPage, PageFigures, PnlSignals;
    PagePassesExactly(c, n);
    forall f | f in PageFigures(c, n) ensures Known(PnlSignals(c), ReadBack(f)) {
      FiguresAreSignals(c, n, f);
      CleanReadsBack(f);
    }
  }

  lemma KnownSignals(c: Canonical, x: int)
    ensures Known(PnlSignals(c), x) <==>
            x in {Rupee(c.realizedMu), Rupee(c.cogsMu), Rupee(c.adSpendMu), Rupee(Cm1(c)), Rupee(Cm2(c)),
                  Rupee(Cm3(c)), c.rtoBp}
  {
    hide Rupee, Cm1, Cm2, Cm3;
    var s := PnlSignals(c);
    assert s[0].canonical == Rupee(c.realizedMu) && s[1].canonical == Rupee(c.cogsMu);
    assert s[2].canonical == Rupee(c.adSpendMu) && s[3].canonical == Rupee(Cm1(c));
    assert s[4].canonical == Rupee(Cm2(c)) && s[5].canonical == Rupee(Cm3(c)) && s[6].canonical == c.rtoBp;
  }

  /** The page of a brand with r rupees of revenue and no costs. */
  function RevenueOnly(r: int): Canonical { Canonical(100 * r, 0, 0, 0, 0, 0) }

  lemma RevenueOnlyRupees(r: int)
    ensures
      var c := RevenueOnly(r);
      && Rupee(c.realizedMu) == Rupee(Cm1(c)) == Rupee(Cm2(c)) == Rupee(Cm3(c)) == r
      && Rupee(c.cogsMu) == Rupee(c.adSpendMu) == c.rtoBp == 0
  {
  }

  /**
   Off clean numbers the narrator's own text fails the gate: such a brand's CM2 narration passes
   exactly when the revenue is clean, or prints as zero, which other signals are.
   */
  lemma RevenueOnlyPassesExactly(r: int)
    ensures Faithful(PnlSignals(RevenueOnly(r)), PageNarration(RevenueOnly(r), 0)) <==>
            r % 10000 == 0 || -5000 <= r < 5000
  {
    hide Faithful, PnlSignals, PageNarration, Known, Rupee, Cm1, Cm2, Cm3;
    var c := RevenueOnly(r);
    RevenueOnlyRupees(r);
    PagePassesExactly(c, 0);
    assert PageFigures(c, 0) == {Lakh(r), Lakh(0)};
    KnownSignals(c, ReadBack(Lakh(r)));
    KnownSignals(c, ReadBack(Lakh(0)));
    LakhRoundTrip(r);
    LakhRoundTrip(0);
  }
}
