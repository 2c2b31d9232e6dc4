/**
 Texts put together from prose, digits behind words, and printed figures, scanned from end to end.
 */
module PieceScan {
  import opened Options
  import opened Digits
  import opened NumberPatterns
  import opened NumberExtraction
  import opened FigureScan
  import opened TextScan

  type Calm = s: string | Ends(s) && Quiet(s) witness "."
  type Cardinal = c: char | IsDigit(c) witness '0'
  type Lead = t: string | IsLead(t) witness ""

  /** Prose, a digit behind a word, or a figure and the space in front of it. */
  datatype Piece = Prose(s: Calm) | Cipher(c: Cardinal) | Printed(lead: Lead, f: Figure)

  function PieceStr(p: Piece): string {
    match p
    case Prose(s) => s
    case Cipher(c) => [c]
    case Printed(lead, f) => lead + FigureStr(f)
  }

  function Render(ps: seq<Piece>): string {
    if ps == [] then "" else PieceStr(ps[0]) + Render(ps[1..])
  }

  /** What may stand behind a piece. */
  predicate Fits(p: Piece, next: Piece) {
    match p
    case Prose(s) => (next.Prose? ==> NoLetterFirst(next.s)) && (next.Cipher? ==> IsLetter(s[|s| - 1]))
    case Cipher(_) => next.Prose? && FollowsDigit(next.s)
    case Printed(_, _) => next.Prose? && NoLetterFirst(next.s)
  }

  /** Digits only behind words, and nothing glued to a figure. */
  predicate Tidy(ps: seq<Piece>) { forall i | 0 <= i < |ps| - 1 :: Fits(ps[i], ps[i + 1]) }

  /** A text does not begin with a digit, unless a word is in front. */
  predicate Behind(prev: Option<char>, ps: seq<Piece>) {
    ps != [] && ps[0].Cipher? ==> prev.Some? && IsLetter(prev.value)
  }

  function Figures(ps: seq<Piece>): seq<Figure> {
    if ps == [] then []
    else (if ps[0].Printed? then [ps[0].f] else []) + Figures(ps[1..])
  }

  /** The first piece, when it is a figure that p finds. */
  function Own(p: Pattern, ps: seq<Piece>, at: nat): seq<Found>
    requires ps != []
  {
    if ps[0].Printed? && OwnPattern(ps[0].f) == p then [FindOf(ps[0].lead, ps[0].f, at)] else []
  }

  /** The figures whose own pattern is p, as found in the text. */
  function Finds(p: Pattern, ps: seq<Piece>, at: nat): seq<Found> {
    if ps == [] then []
    else Own(p, ps, at) + Finds(p, ps[1..], at + |PieceStr(ps[0])|)
  }

  lemma TidyTail(ps: seq<Piece>)
    requires Tidy(ps) && ps != []
    ensures Tidy(ps[1..]) && (|ps| > 1 ==> Fits(ps[0], ps[1]) && ps[1..][0] == ps[1])
  {
    hide Fits;
    var t := ps[1..];
    assert forall i | 0 <= i < |t| :: t[i] == ps[i + 1];
  }

  /** A figure begins with no letter. */
  lemma FigureFirst(t: string, f: Figure, k: string)
    requires IsLead(t)
    ensures NoLetterFirst((t + FigureStr(f)) + k)
  {
    GroupIsNumber(f);
    FigureText(t, f, k);
    hide FigureStr, Group;
    var front, rest := Front(t, f), Group(f) + ([Unit(f)] + k);
    assert (front + rest)[0] == if front == "" then rest[0] else front[0];
  }

  /** Units are looked for no further than the prose reaches. */
  lemma FollowsFurther(s: string, k: string)
    requires Ends(s) && FollowsDigit(s)
    ensures FollowsDigit(s + k)
  {
    var n := SpaceRun(s);
    var t := s + k;
    SpacesStop(s, |s| - 1);
    assert t[0] == s[0] && t[n] == s[n] && !IsSpace(s[n]);
    SpacesReach(s, k);
    SpacesStop(t, n);
  }

  lemma SpacesReach(s: string, k: string)
    ensures SpaceRun(s + k) >= SpaceRun(s)
  {
    if s == "" { assert s + k == k; } else { assert (s + k)[1..] == s[1..] + k; }
  }

  /** What follows the first piece is what the scanning lemmas ask for. */
  lemma RestFits(ps: seq<Piece>)
    requires Tidy(ps) && ps != []
    ensures
      var k := Render(ps[1..]);
      match ps[0]
      case Prose(_) => NoLetterFirst(k)
      case Cipher(_) => FollowsDigit(k)
      case Printed(_, _) => NoLetterFirst(k)
  {
    hide FigureStr, FollowsDigit, Quiet, Ends, Tidy;
    TidyTail(ps);
    if |ps| == 1 {
      NothingFollows();
    } else {
      var next, k := ps[1], Render(ps[1..][1..]);
      assert Render(ps[1..]) == PieceStr(next) + k;
      match next
      case Prose(s) =>
        NotEmpty(s);
        if ps[0].Cipher? { FollowsFurther(s, k); }
      case Cipher(c) => assert !IsLetter(c);
      case Printed(lead, f) => FigureFirst(lead, f, k);
    }
  }

  lemma NothingFollows()
    ensures NoLetterFirst("") && FollowsDigit("")
  {
  }

  lemma BehindPiece(ps: seq<Piece>)
    requires Tidy(ps) && ps != []
    ensures PieceStr(ps[0]) != "" && Behind(Some(PieceStr(ps[0])[|PieceStr(ps[0])| - 1]), ps[1..])
  {
    hide FigureStr, Quiet, Tidy;
    TidyTail(ps);
    match ps[0]
    case Prose(_) =>
    case Cipher(_) =>
    case Printed(lead, f) => FigureText(lead, f, "");
  }

  /** The last character of the first piece. */
  function Last(ps: seq<Piece>): Option<char>
    requires ps != []
  {
    var s := PieceStr(ps[0]);
    if s == "" then None else Some(s[|s| - 1])
  }

  /** One piece under a unit pattern: its figure, if that is its own pattern, and nothing else. */
  lemma UnitPiece(p: Pattern, prev: Option<char>, ps: seq<Piece>, at: nat)
    requires !p.CurrencyPattern? && !p.PlainPattern? && Tidy(ps) && ps != [] && Behind(prev, ps)
    ensures Scan(p, prev, Render(ps), at) ==
            Own(p, ps, at) + Scan(p, Last(ps), Render(ps[1..]), at + |PieceStr(ps[0])|)
  {
    hide Scan, Quiet, Tidy, FigureStr, FollowsDigit, FindOf;
    TidyTail(ps);
    RestFits(ps);
    BehindPiece(ps);
    var k := Render(ps[1..]);
    var rest := Scan(p, Last(ps), k, at + |PieceStr(ps[0])|);
    assert [] + rest == rest;
    match ps[0]
    case Prose(s) => SkipsProse(p, prev, s, k, at);
    case Cipher(c) => SkipsDigit(p, prev.value, c, k, at);
    case Printed(lead, f) =>
      if OwnPattern(f) == p { OwnScan(prev, lead, f, k, at); } else { ForeignScan(p, prev, lead, f, k, at); }
  }

  /** A unit pattern finds its own figures in the whole text, and nothing else. */
  lemma {:induction false} UnitScan(p: Pattern, prev: Option<char>, ps: seq<Piece>, at: nat)
    requires !p.CurrencyPattern? && !p.PlainPattern? && Tidy(ps) && Behind(prev, ps)
    ensures Scan(p, prev, Render(ps), at) == Finds(p, ps, at)
    decreases |ps|
  {
    hide *;
    if ps == [] {
      NothingToScan(p, prev, at);
      NothingToFind(p, at);
    } else {
      UnitPiece(p, prev, ps, at);
      FindsUnfold(p, ps, at);
      TidyTail(ps);
      BehindLast(ps);
      UnitScan(p, Last(ps), ps[1..], at + |PieceStr(ps[0])|);
    }
  }

  lemma FindsUnfold(p: Pattern, ps: seq<Piece>, at: nat)
    requires ps != []
    ensures Finds(p, ps, at) == Own(p, ps, at) + Finds(p, ps[1..], at + |PieceStr(ps[0])|)
  {
    hide FindOf, PieceStr, OwnPattern;
  }

  lemma BehindLast(ps: seq<Piece>)
    requires Tidy(ps) && ps != []
    ensures Behind(Last(ps), ps[1..])
  {
    BehindPiece(ps);
    hide Tidy, Behind, PieceStr;
  }

  lemma NothingToScan(p: Pattern, prev: Option<char>, at: nat)
    ensures Scan(p, prev, Render([]), at) == []
  {
  }

  lemma NothingToFind(p: Pattern, at: nat)
    ensures Finds(p, [], at) == []
  {
  }

  lemma {:induction false} NoCrores(ps: seq<Piece>, at: nat)
    ensures Finds(CrorePattern, ps, at) == []
    decreases |ps|
  {
    if ps != [] { NoCrores(ps[1..], at + |PieceStr(ps[0])|); }
  }

  // ----- the finds ------------------------------------------------------------------------------

  ghost predicate Covered(m: Found, a: seq<Found>) { exists i: nat :: i < |a| && Overlap(m, a[i]) }

  lemma CoveredLater(m: Found, a: seq<Found>, b: seq<Found>, head: seq<Found>, front: seq<Found>)
    requires Covered(m, a + b)
    ensures Covered(m, (head + a) + (front + b))
  {
    var i: nat :| i < |a + b| && Overlap(m, (a + b)[i]);
    var all := (head + a) + (front + b);
    if i < |a| { assert all[|head| + i] == a[i]; } else { assert all[|head| + |front| + i] == b[i - |a|]; }
  }

  /** All figures found, lakhs first. */
  function AllFinds(ps: seq<Piece>, at: nat): seq<Found> { Finds(LakhPattern, ps, at) + Finds(PercentPattern, ps, at) }

  /** One piece under the last two patterns: only what overlaps its figure. */
  lemma OtherPiece(p: Pattern, prev: Option<char>, ps: seq<Piece>, at: nat) returns (ms: seq<Found>)
    requires (p.CurrencyPattern? || p.PlainPattern?) && Tidy(ps) && ps != [] && Behind(prev, ps)
    ensures Scan(p, prev, Render(ps), at) == ms + Scan(p, Last(ps), Render(ps[1..]), at + |PieceStr(ps[0])|)
    ensures forall m | m in ms :: ps[0].Printed? && Overlap(m, FindOf(ps[0].lead, ps[0].f, at))
  {
    hide Scan, Quiet, Tidy, FigureStr, FollowsDigit, FindOf, Overlap;
    TidyTail(ps);
    RestFits(ps);
    BehindPiece(ps);
    var k := Render(ps[1..]);
    var rest := Scan(p, Last(ps), k, at + |PieceStr(ps[0])|);
    ms := [];
    assert [] + rest == rest;
    match ps[0]
    case Prose(s) => SkipsProse(p, prev, s, k, at);
    case Cipher(c) => SkipsDigit(p, prev.value, c, k, at);
    case Printed(lead, f) =>
      if p.CurrencyPattern? {
        ms := CurrencyScan(prev, lead, f, k, at);
      } else {
        ms := PlainFigure(prev, lead, f, k, at);
      }
  }

  /** Whatever else matches in the text overlaps a figure that was found. */
  lemma {:induction false} OtherScan(p: Pattern, prev: Option<char>, ps: seq<Piece>, at: nat)
    requires (p.CurrencyPattern? || p.PlainPattern?) && Tidy(ps) && Behind(prev, ps)
    ensures forall m | m in Scan(p, prev, Render(ps), at) :: Covered(m, AllFinds(ps, at))
    decreases |ps|
  {
    if ps == [] {
      NothingToScan(p, prev, at);
    } else {
      hide Scan, Tidy, FindOf, Behind, PieceStr, Overlap, Covered;
      var next := at + |PieceStr(ps[0])|;
      var ms := OtherPiece(p, prev, ps, at);
      TidyTail(ps);
      BehindPiece(ps);
      OtherScan(p, Last(ps), ps[1..], next);
      forall m | m in Scan(p, prev, Render(ps), at) ensures Covered(m, AllFinds(ps, at)) {
        if m in ms { CoveredFirst(m, ps, at); } else { CoveredByRest(m, ps, at); }
      }
    }
  }

  lemma CoveredFirst(m: Found, ps: seq<Piece>, at: nat)
    requires ps != [] && ps[0].Printed? && Overlap(m, FindOf(ps[0].lead, ps[0].f, at))
    ensures Covered(m, AllFinds(ps, at))
  {
    hide Overlap, FindOf, PieceStr;
    var all := AllFinds(ps, at);
    var i := if ps[0].f.Lakh? then 0 else |Finds(LakhPattern, ps, at)|;
    assert all[i] == FindOf(ps[0].lead, ps[0].f, at);
  }

  lemma CoveredByRest(m: Found, ps: seq<Piece>, at: nat)
    requires ps != [] && Covered(m, AllFinds(ps[1..], at + |PieceStr(ps[0])|))
    ensures Covered(m, AllFinds(ps, at))
  {
    hide Covered, FindOf, PieceStr;
    var next := at + |PieceStr(ps[0])|;
    var a, b := Finds(LakhPattern, ps[1..], next), Finds(PercentPattern, ps[1..], next);
    var own := if ps[0].Printed? then [FindOf(ps[0].lead, ps[0].f, at)] else [];
    var head := if ps[0].Printed? && ps[0].f.Lakh? then own else [];
    var front := if ps[0].Printed? && ps[0].f.Percent? then own else [];
    CoveredLater(m, a, b, head, front);
    assert AllFinds(ps, at) == (head + a) + (front + b);
  }

  lemma FindSpan(t: string, f: Figure, at: nat)
    ensures var m := FindOf(t, f, at); at <= m.start < m.end <= at + |t + FigureStr(f)|
  {
    FigureText(t, f, "");
    GroupIsNumber(f);
    hide FigureStr, Group, ReadBack;
  }

  predicate From(ms: seq<Found>, at: nat) { forall i: nat | i < |ms| :: at <= ms[i].start < ms[i].end }

  /** Figures follow each other: no two finds overlap. */
  lemma {:induction false} FindsAreDisjoint(ps: seq<Piece>, at: nat)
    ensures From(Finds(LakhPattern, ps, at), at) && From(Finds(PercentPattern, ps, at), at)
    ensures Disjoint(AllFinds(ps, at))
    decreases |ps|
  {
    hide *;
    if ps == [] {
      NoFinds(at);
    } else {
      var next := at + |PieceStr(ps[0])|;
      FindsAreDisjoint(ps[1..], next);
      OwnSpan(ps, at);
      FindsUnfold(LakhPattern, ps, at);
      FindsUnfold(PercentPattern, ps, at);
      OwnInFront(ps, at, next, Finds(LakhPattern, ps[1..], next), Finds(PercentPattern, ps[1..], next));
    }
  }

  lemma NoFinds(at: nat)
    ensures From(Finds(LakhPattern, [], at), at) && From(Finds(PercentPattern, [], at), at)
    ensures Disjoint(AllFinds([], at))
  {
  }

  lemma OwnSpan(ps: seq<Piece>, at: nat)
    requires ps != []
    ensures ps[0].Printed? ==>
      var m := FindOf(ps[0].lead, ps[0].f, at);
      at <= m.start < m.end <= at + |PieceStr(ps[0])|
  {
    if ps[0].Printed? {
      FindSpan(ps[0].lead, ps[0].f, at);
      PieceLength(ps[0]);
      hide FindOf, PieceStr;
    }
  }

  lemma OwnInFront(ps: seq<Piece>, at: nat, next: nat, a: seq<Found>, b: seq<Found>)
    requires ps != [] && at <= next && From(a, next) && From(b, next) && Disjoint(AllFinds(ps[1..], next))
    requires a == Finds(LakhPattern, ps[1..], next) && b == Finds(PercentPattern, ps[1..], next)
    requires ps[0].Printed? ==>
      var m := FindOf(ps[0].lead, ps[0].f, at);
      at <= m.start < m.end <= next
    requires Finds(LakhPattern, ps, at) == Own(LakhPattern, ps, at) + a
    requires Finds(PercentPattern, ps, at) == Own(PercentPattern, ps, at) + b
    ensures From(Finds(LakhPattern, ps, at), at) && From(Finds(PercentPattern, ps, at), at)
    ensures Disjoint(AllFinds(ps, at))
  {
    hide Finds, FindOf, Disjoint;
    if ps[0].Printed? {
      var m := FindOf(ps[0].lead, ps[0].f, at);
      if ps[0].f.Lakh? { FirstIsDisjoint(m, a, b, next); } else { MiddleIsDisjoint(m, a, b, next); }
    } else {
      assert [] + a == a && [] + b == b;
    }
  }

  lemma PieceLength(p: Piece)
    requires p.Printed?
    ensures |PieceStr(p)| == |p.lead + FigureStr(p.f)|
  {
  }

  lemma FirstIsDisjoint(m: Found, a: seq<Found>, b: seq<Found>, next: nat)
    requires m.start < m.end <= next && From(a, next) && From(b, next) && Disjoint(a + b)
    ensures Disjoint(([m] + a) + ([] + b))
  {
    var ab, all := a + b, ([m] + a) + ([] + b);
    forall i: nat, j: nat | i < |all| && j < i ensures !Overlap(all[i], all[j]) {
      assert all[i] == ab[i - 1];
      if j > 0 { assert all[j] == ab[j - 1]; }
    }
  }

  lemma MiddleIsDisjoint(m: Found, a: seq<Found>, b: seq<Found>, next: nat)
    requires m.start < m.end <= next && From(a, next) && From(b, next) && Disjoint(a + b)
    ensures Disjoint(([] + a) + ([m] + b))
  {
    var ab, all, n := a + b, ([] + a) + ([m] + b), |a|;
    forall i: nat, j: nat | i < |all| && j < i ensures !Overlap(all[i], all[j]) {
      assert i < n ==> all[i] == ab[i];
      assert i > n ==> all[i] == ab[i - 1];
      assert j < n ==> all[j] == ab[j];
      assert j > n ==> all[j] == ab[j - 1];
      assert all[n] == m;
    }
  }

  // ----- what is registered ---------------------------------------------------------------------

  lemma {:induction false} CoveredAreSkipped(a: seq<Found>, b: seq<Found>)
    requires Chosen(a) == a && forall m | m in b :: Covered(m, a)
    ensures Chosen(a + b) == a
    decreases |b|
  {
    if b == [] {
      assert a + b == a;
    } else {
      var n := |b| - 1;
      assert forall m | m in b[..n] :: m in b;
      CoveredAreSkipped(a, b[..n]);
      assert a + b == (a + b[..n]) + [b[n]] && b[n] in b;
      NextChosen(a + b[..n], b[n]);
    }
  }

  /** The gate registers the figures of a tidy text, lakhs first, and nothing else. */
  lemma RegistersFigures(ps: seq<Piece>)
    requires Tidy(ps) && Behind(None, ps)
    ensures Chosen(Candidates(Render(ps))) == AllFinds(ps, 0)
  {
    hide Scan, Tidy, Finds, Disjoint, Chosen, Covered, Candidates, Behind, Render;
    var text := Render(ps);
    UnitScan(LakhPattern, None, ps, 0);
    UnitScan(CrorePattern, None, ps, 0);
    UnitScan(PercentPattern, None, ps, 0);
    NoCrores(ps, 0);
    OtherScan(CurrencyPattern, None, ps, 0);
    OtherScan(PlainPattern, None, ps, 0);
    FivePasses(text);
    var others := Scan(CurrencyPattern, None, text, 0) + Scan(PlainPattern, None, text, 0);
    FindsAreDisjoint(ps, 0);
    DisjointAreChosen(AllFinds(ps, 0));
    CoveredAreSkipped(AllFinds(ps, 0), others);
    assert Candidates(text) == AllFinds(ps, 0) + others;
  }

  /** The values found are those the figures read back as. */
  ghost predicate SameValues(found: seq<Found>, figures: seq<Figure>) {
    && (forall c | c in found :: ReadsOneOf(c.value, figures))
    && (forall k: nat | k < |figures| :: HasValue(found, ReadBack(figures[k])))
  }

  ghost predicate ReadsOneOf(value: int, figures: seq<Figure>) {
    exists k: nat :: k < |figures| && value == ReadBack(figures[k])
  }

  ghost predicate HasValue(found: seq<Found>, value: int) {
    exists i: nat :: i < |found| && found[i].value == value
  }

  lemma {:induction false} FindsAreFigures(ps: seq<Piece>, at: nat)
    ensures SameValues(AllFinds(ps, at), Figures(ps))
    decreases |ps|
  {
    hide *;
    if ps == [] {
      NothingSame(at);
    } else {
      var next := at + |PieceStr(ps[0])|;
      FindsAreFigures(ps[1..], next);
      FindsUnfold(LakhPattern, ps, at);
      FindsUnfold(PercentPattern, ps, at);
      OneMoreFigure(ps, at, next, Finds(LakhPattern, ps[1..], next), Finds(PercentPattern, ps[1..], next));
    }
  }

  lemma NothingSame(at: nat)
    ensures SameValues(AllFinds([], at), Figures([]))
  {
  }

  lemma OneMoreFigure(ps: seq<Piece>, at: nat, next: nat, a: seq<Found>, b: seq<Found>)
    requires ps != [] && SameValues(AllFinds(ps[1..], next), Figures(ps[1..]))
    requires a == Finds(LakhPattern, ps[1..], next) && b == Finds(PercentPattern, ps[1..], next)
    requires Finds(LakhPattern, ps, at) == Own(LakhPattern, ps, at) + a
    requires Finds(PercentPattern, ps, at) == Own(PercentPattern, ps, at) + b
    ensures SameValues(AllFinds(ps, at), Figures(ps))
  {
    hide Finds, FindOf, SameValues;
    if ps[0].Printed? {
      var m, f := FindOf(ps[0].lead, ps[0].f, at), ps[0].f;
      FindReads(ps[0].lead, f, at);
      assert [] + (a + b) == a + b;
      OneMore(m, f, if f.Lakh? then [] else a, if f.Lakh? then a + b else b, Figures(ps[1..]));
      assert f.Lakh? ==> [] + ([m] + (a + b)) == ([m] + a) + ([] + b);
      assert !f.Lakh? ==> a + ([m] + b) == ([] + a) + ([m] + b);
    } else {
      assert [] + a == a && [] + b == b && [] + Figures(ps[1..]) == Figures(ps[1..]);
    }
  }

  lemma FindReads(t: string, f: Figure, at: nat)
    ensures FindOf(t, f, at).value == ReadBack(f)
  {
    hide ReadBack, FigureStr;
  }

  lemma OneMore(m: Found, f: Figure, a: seq<Found>, b: seq<Found>, figures: seq<Figure>)
    requires SameValues(a + b, figures) && m.value == ReadBack(f)
    ensures SameValues(a + ([m] + b), [f] + figures)
  {
    hide ReadBack;
    var all, found, ab := [f] + figures, a + ([m] + b), a + b;
    assert found[|a|] == m && all[0] == f;
    forall c | c in found ensures ReadsOneOf(c.value, all) {
      if c != m {
        assert c in ab;
        var k: nat :| k < |figures| && c.value == ReadBack(figures[k]);
        assert all[k + 1] == figures[k];
      }
    }
    forall k: nat | k < |all| ensures HasValue(found, ReadBack(all[k])) {
      if k > 0 {
        assert HasValue(ab, ReadBack(figures[k - 1]));
        var i: nat :| i < |ab| && ab[i].value == ReadBack(figures[k - 1]);
        assert ab[i] == if i < |a| then found[i] else found[i + 1];
      }
    }
  }
}
