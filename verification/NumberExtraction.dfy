/**
 The narration gate: the matches of five patterns in turn, each span registered at most once, and every
 registered number checked against the signals.
 */
module NumberExtraction {
  import opened Options
  import opened NumberPatterns

  predicate Overlap(a: Found, b: Found) {
    a.start < b.end && a.end > b.start
  }

  // ----- what is registered ---------------------------------------------------------------------

  /** The matches of the first n patterns, pattern by pattern. */
  function CandidatesOf(text: string, n: nat): seq<Found>
    requires n <= |PATTERNS|
  {
    if n == 0 then [] else CandidatesOf(text, n - 1) + Scan(PATTERNS[n - 1], None, text, 0)
  }

  function Candidates(text: string): seq<Found> { CandidatesOf(text, |PATTERNS|) }

  predicate Free(c: Found, taken: seq<Found>) {
    forall i: nat | i < |taken| :: !Overlap(c, taken[i])
  }

  /** First come, first served. */
  function Chosen(cs: seq<Found>): seq<Found> {
    if cs == [] then []
    else
      var before, c := Chosen(cs[..|cs| - 1]), cs[|cs| - 1];
      if Free(c, before) then before + [c] else before
  }

  /** The values in order of first appearance. */
  function Distinct(cs: seq<Found>): seq<int> {
    if cs == [] then []
    else
      var before, v := Distinct(cs[..|cs| - 1]), cs[|cs| - 1].value;
      if v in before then before else before + [v]
  }

  // ----- the code -------------------------------------------------------------------------------

  class Extractor {
    var consumed: seq<Found>
    var results: seq<int>

    constructor ()
      ensures consumed == [] && results == []
    {
      consumed, results := [], [];
    }

    method Register(c: Found)
      modifies this
      ensures consumed == if Free(c, old(consumed)) then old(consumed) + [c] else old(consumed)
      ensures results ==
        if Free(c, old(consumed)) && c.value !in old(results) then old(results) + [c.value] else old(results)
    {
      for i := 0 to |consumed|
        invariant consumed == old(consumed) && results == old(results)
        invariant Free(c, consumed[..i])
      {
        if Overlap(c, consumed[i]) { return; }
        assert consumed[..i + 1] == consumed[..i] + [consumed[i]];
      }
      assert consumed[..|consumed|] == consumed;
      consumed := consumed + [c];
      if c.value !in results { results := results + [c.value]; }
    }

    /** The exec loop: from the place behind the last match on, the next place where p matches. */
    method RunPass(p: Pattern, text: string, ghost before: seq<Found>)
      requires consumed == Chosen(before) && results == Distinct(Chosen(before))
      modifies this
      ensures consumed == Chosen(before + Scan(p, None, text, 0))
      ensures results == Distinct(Chosen(before + Scan(p, None, text, 0)))
    {
      hide Scan, At, Chosen, Distinct, Free;
      var at: nat, prev: Option<char> := 0, None;
      ghost var done: seq<Found> := [];
      assert before + [] == before && text[0..] == text;
      assert [] + Scan(p, None, text, 0) == Scan(p, None, text, 0);
      while at < |text|
        invariant at <= |text| && done + Scan(p, prev, text[at..], at) == Scan(p, None, text, 0)
        invariant consumed == Chosen(before + done) && results == Distinct(Chosen(before + done))
      {
        var hit := At(p, prev, text[at..]);
        ScanStep(p, prev, text, at);
        if hit.None? {
          prev, at := Some(text[at]), at + 1;
        } else {
          var c := Found(hit.value.number, at, at + hit.value.length);
          NextChosen(before + done, c);
          assert before + (done + [c]) == before + done + [c];
          Register(c);
          done := done + [c];
          prev, at := Some(text[at + hit.value.length - 1]), at + hit.value.length;
        }
      }
      NothingLeft(p, prev, text, at);
      assert done + [] == done;
    }
  }

  lemma ScanStep(p: Pattern, prev: Option<char>, text: string, at: nat)
    requires at < |text|
    ensures
      var rest := Scan(p, prev, text[at..], at);
      match At(p, prev, text[at..])
      case None => rest == Scan(p, Some(text[at]), text[at + 1..], at + 1)
      case Some(h) =>
        rest == [Found(h.number, at, at + h.length)] +
                Scan(p, Some(text[at + h.length - 1]), text[at + h.length..], at + h.length)
  {
    hide At;
    var s := text[at..];
    assert s[1..] == text[at + 1..] && s[0] == text[at];
    if At(p, prev, s).Some? {
      var n := At(p, prev, s).value.length;
      assert s[n..] == text[at + n..] && s[n - 1] == text[at + n - 1];
    }
  }

  lemma NothingLeft(p: Pattern, prev: Option<char>, text: string, at: nat)
    requires at == |text|
    ensures Scan(p, prev, text[at..], at) == []
  {
  }

  lemma NextChosen(cs: seq<Found>, c: Found)
    ensures Chosen(cs + [c]) == if Free(c, Chosen(cs)) then Chosen(cs) + [c] else Chosen(cs)
    ensures Free(c, Chosen(cs)) ==>
      Distinct(Chosen(cs + [c])) ==
      if c.value in Distinct(Chosen(cs)) then Distinct(Chosen(cs)) else Distinct(Chosen(cs)) + [c.value]
  {
    assert (cs + [c])[..|cs|] == cs;
    assert (Chosen(cs) + [c])[..|Chosen(cs)|] == Chosen(cs);
  }

  /** All passes in turn over one list of consumed spans. */
  method ExtractNumbers(text: string) returns (results: seq<int>)
    ensures results == Distinct(Chosen(Candidates(text)))
  {
    var x := new Extractor();
    for n := 0 to |PATTERNS|
      invariant x.consumed == Chosen(CandidatesOf(text, n)) && x.results == Distinct(Chosen(CandidatesOf(text, n)))
    {
      x.RunPass(PATTERNS[n], text, CandidatesOf(text, n));
    }
    results := x.results;
  }

  // ----- what that means ------------------------------------------------------------------------

  /** Whether candidate i gets its span. */
  predicate Taken(cs: seq<Found>, i: nat)
    requires i < |cs|
  {
    Free(cs[i], Chosen(cs[..i]))
  }

  lemma ChosenPrefix(cs: seq<Found>, i: nat)
    requires i < |cs|
    ensures Chosen(cs[..i + 1]) == if Taken(cs, i) then Chosen(cs[..i]) + [cs[i]] else Chosen(cs[..i])
  {
    assert cs[..i + 1][..i] == cs[..i];
  }

  /** The registered spans are those of the taken candidates. */
  lemma {:induction false} ChosenAreTaken(cs: seq<Found>, n: nat)
    requires n <= |cs|
    ensures forall c :: c in Chosen(cs[..n]) <==> exists i: nat :: i < n && Taken(cs, i) && cs[i] == c
  {
    hide Chosen, Taken;
    if n > 0 {
      ChosenAreTaken(cs, n - 1);
      ChosenPrefix(cs, n - 1);
    } else {
      NothingChosen();
      assert cs[..0] == [];
    }
  }

  lemma NothingChosen()
    ensures Chosen([]) == []
  {
  }

  /**
   Priority, exactly: a candidate is skipped just when an earlier one that was taken overlaps it;
   candidates of earlier passes come earlier.
   */
  lemma TakenExactly(cs: seq<Found>, i: nat)
    requires i < |cs|
    ensures Taken(cs, i) <==> forall j: nat | j < i && Taken(cs, j) :: !Overlap(cs[i], cs[j])
  {
    var before := Chosen(cs[..i]);
    ChosenAreTaken(cs, i);
    hide Chosen;
    if !Taken(cs, i) {
      var k: nat :| k < |before| && Overlap(cs[i], before[k]);
      assert before[k] in before;
      var j: nat :| j < i && Taken(cs, j) && cs[j] == before[k];
    } else {
      forall j: nat | j < i && Taken(cs, j) ensures !Overlap(cs[i], cs[j]) {
        assert cs[j] in before;
      }
    }
  }

  /** Registered spans never overlap. */
  lemma {:induction false} ChosenDisjoint(cs: seq<Found>)
    ensures Disjoint(Chosen(cs))
    decreases |cs|
  {
    if cs != [] { ChosenDisjoint(cs[..|cs| - 1]); }
  }

  /** Spans between from and to, one behind the other. */
  predicate Ordered(ms: seq<Found>, from: nat, to: nat) {
    && (forall i: nat | i < |ms| :: from <= ms[i].start < ms[i].end <= to)
    && (forall i: nat, j: nat | i < j < |ms| :: ms[i].end <= ms[j].start)
  }

  lemma OrderedFrom(c: Found, ms: seq<Found>, from: nat, middle: nat, to: nat)
    requires from <= c.start < c.end <= middle <= to && Ordered(ms, middle, to)
    ensures Ordered([c] + ms, from, to)
  {
    var all := [c] + ms;
    forall i: nat | i < |all| ensures from <= all[i].start < all[i].end <= to {
      if i > 0 { assert all[i] == ms[i - 1]; }
    }
    forall i: nat, j: nat | i < j < |all| ensures all[i].end <= all[j].start {
      assert all[j] == ms[j - 1];
      if i > 0 { assert all[i] == ms[i - 1]; }
    }
  }

  /** One pattern's matches follow each other without overlap. */
  lemma {:induction false} ScanIsOrdered(p: Pattern, prev: Option<char>, s: string, at: nat)
    ensures Ordered(Scan(p, prev, s, at), at, at + |s|)
    decreases |s|
  {
    hide *;
    ScanUnfold(p, prev, s, at);
    if s == "" {
      NothingIsOrdered(at, at);
    } else {
      match At(p, prev, s)
      case None =>
        ScanIsOrdered(p, Some(s[0]), s[1..], at + 1);
        OrderedWider(Scan(p, Some(s[0]), s[1..], at + 1), at + 1, at, at + |s|);
      case Some(h) =>
        ScanIsOrdered(p, Some(s[h.length - 1]), s[h.length..], at + h.length);
        var rest := Scan(p, Some(s[h.length - 1]), s[h.length..], at + h.length);
        OrderedFrom(Found(h.number, at, at + h.length), rest, at, at + h.length, at + |s|);
    }
  }

  lemma ScanUnfold(p: Pattern, prev: Option<char>, s: string, at: nat)
    ensures Scan(p, prev, s, at) ==
      if s == "" then []
      else
        match At(p, prev, s)
        case None => Scan(p, Some(s[0]), s[1..], at + 1)
        case Some(h) =>
          [Found(h.number, at, at + h.length)] + Scan(p, Some(s[h.length - 1]), s[h.length..], at + h.length)
  {
    hide At;
  }

  lemma NothingIsOrdered(from: nat, to: nat)
    ensures Ordered([], from, to)
  {
  }

  lemma OrderedWider(ms: seq<Found>, from: nat, earlier: nat, to: nat)
    requires Ordered(ms, from, to) && earlier <= from
    ensures Ordered(ms, earlier, to)
  {
  }

  predicate Disjoint(cs: seq<Found>) {
    forall i: nat, j: nat | i < |cs| && j < i :: !Overlap(cs[i], cs[j])
  }

  lemma OrderedAreDisjoint(ms: seq<Found>, from: nat, to: nat)
    requires Ordered(ms, from, to)
    ensures Disjoint(ms)
  {
  }

  lemma {:induction false} DisjointAreChosen(cs: seq<Found>)
    requires Disjoint(cs)
    ensures Chosen(cs) == cs
    decreases |cs|
  {
    if cs != [] {
      var n := |cs| - 1;
      DisjointAreChosen(cs[..n]);
      assert cs == cs[..n] + [cs[n]];
    }
  }

  lemma {:induction false} ChosenGrow(a: seq<Found>, b: seq<Found>)
    ensures Chosen(a) <= Chosen(a + b)
    decreases |b|
  {
    if b == [] {
      assert a + b == a;
    } else {
      var n := |b| - 1;
      ChosenGrow(a, b[..n]);
      assert a + b == (a + b[..n]) + [b[n]];
      NextChosen(a + b[..n], b[n]);
    }
  }

  /** What the lakh pattern matches is registered, all of it: no other pattern comes before. */
  lemma FirstPassLosesNone(text: string)
    ensures Scan(LakhPattern, None, text, 0) <= Chosen(Candidates(text))
  {
    var first := Scan(LakhPattern, None, text, 0);
    ScanIsOrdered(LakhPattern, None, text, 0);
    hide Scan, Chosen, Disjoint, Ordered, Candidates;
    OrderedAreDisjoint(first, 0, |text|);
    DisjointAreChosen(first);
    FivePasses(text);
    ChosenGrow(first, AfterLakh(text));
  }

  /** The matches of the other four patterns. */
  function AfterLakh(text: string): seq<Found> {
    Scan(CrorePattern, None, text, 0) +
    (Scan(PercentPattern, None, text, 0) + (Scan(CurrencyPattern, None, text, 0) + Scan(PlainPattern, None, text, 0)))
  }

  lemma FivePasses(text: string)
    ensures Candidates(text) == Scan(LakhPattern, None, text, 0) + AfterLakh(text)
  {
    hide Scan;
    var a, b := Scan(LakhPattern, None, text, 0), Scan(CrorePattern, None, text, 0);
    var c := Scan(PercentPattern, None, text, 0);
    var d, e := Scan(CurrencyPattern, None, text, 0), Scan(PlainPattern, None, text, 0);
    assert CandidatesOf(text, 1) == [] + a;
    assert CandidatesOf(text, 3) == CandidatesOf(text, 2) + c && CandidatesOf(text, 2) == CandidatesOf(text, 1) + b;
    assert Candidates(text) == CandidatesOf(text, 4) + e && CandidatesOf(text, 4) == CandidatesOf(text, 3) + d;
    Regroup(a, b, c, d, e);
  }

  lemma Regroup(a: seq<Found>, b: seq<Found>, c: seq<Found>, d: seq<Found>, e: seq<Found>)
    ensures (((([] + a) + b) + c) + d) + e == a + (b + (c + (d + e)))
  {
  }

  /** The results hold each registered value, once. */
  lemma {:induction false} DistinctIsEachOnce(cs: seq<Found>)
    ensures forall v :: v in Distinct(cs) <==> exists i: nat :: i < |cs| && cs[i].value == v
    ensures forall i: nat, j: nat | i < j < |Distinct(cs)| :: Distinct(cs)[i] != Distinct(cs)[j]
    decreases |cs|
  {
    if cs != [] {
      var n := |cs| - 1;
      DistinctIsEachOnce(cs[..n]);
      hide Distinct;
      DistinctNext(cs);
      forall v | v in Distinct(cs) ensures exists i: nat :: i < |cs| && cs[i].value == v {
        if v in Distinct(cs[..n]) {
          var i: nat :| i < |cs[..n]| && cs[..n][i].value == v;
          assert cs[i].value == v;
        } else {
          assert cs[n].value == v;
        }
      }
      forall i: nat | i < |cs| ensures cs[i].value in Distinct(cs) {
        if i < n { assert cs[..n][i].value in Distinct(cs[..n]); }
      }
    }
  }

  lemma DistinctNext(cs: seq<Found>)
    requires cs != []
    ensures
      var before, v := Distinct(cs[..|cs| - 1]), cs[|cs| - 1].value;
      Distinct(cs) == if v in before then before else before + [v]
  {
  }

  // ----- the gate -------------------------------------------------------------------------------

  datatype Signal = Signal(id: string, canonical: int)

  datatype Narration = Narration(headline: string, body: string, citedIds: seq<string>)

  function TextOf(n: Narration): string { n.headline + " " + n.body }

  datatype Verdict = Grounded | Invented(narration: nat, number: int) | Orphan(narration: nat, id: string)

  predicate Known(signals: seq<Signal>, number: int) {
    exists i: nat :: i < |signals| && signals[i].canonical == number
  }

  predicate KnownId(signals: seq<Signal>, id: string) {
    exists i: nat :: i < |signals| && signals[i].id == id
  }

  /** All numbers of n are signal values, and all its citations signals. */
  ghost predicate Faithful(signals: seq<Signal>, n: Narration) {
    && (forall c | c in Chosen(Candidates(TextOf(n))) :: Known(signals, c.value))
    && (forall k: nat | k < |n.citedIds| :: KnownId(signals, n.citedIds[k]))
  }

  /** Every one of these numbers is a signal value. */
  ghost predicate AllKnown(signals: seq<Signal>, numbers: seq<int>) {
    forall k: nat | k < |numbers| :: Known(signals, numbers[k])
  }

  lemma DistinctStandForAll(signals: seq<Signal>, cs: seq<Found>)
    ensures AllKnown(signals, Distinct(cs)) <==> forall i: nat | i < |cs| :: Known(signals, cs[i].value)
  {
    DistinctIsEachOnce(cs);
    hide Known, Distinct;
    var results := Distinct(cs);
    if AllKnown(signals, results) {
      forall i: nat | i < |cs| ensures Known(signals, cs[i].value) {
        assert cs[i].value in results;
      }
    }
    if forall i: nat | i < |cs| :: Known(signals, cs[i].value) {
      forall k: nat | k < |results| ensures Known(signals, results[k]) {
        assert results[k] in results;
      }
    }
  }

  lemma ResultsStandForChosen(signals: seq<Signal>, n: Narration)
    ensures Faithful(signals, n) <==>
      && AllKnown(signals, Distinct(Chosen(Candidates(TextOf(n)))))
      && forall k: nat | k < |n.citedIds| :: KnownId(signals, n.citedIds[k])
  {
    hide Chosen, Candidates, Distinct, Known, KnownId, AllKnown;
    var chosen := Chosen(Candidates(TextOf(n)));
    DistinctStandForAll(signals, chosen);
    if forall i: nat | i < |chosen| :: Known(signals, chosen[i].value) {
      forall c | c in chosen ensures Known(signals, c.value) {
        var i: nat :| i < |chosen| && chosen[i] == c;
      }
    }
  }

  /** Throws, here: answers with, the first offence, exactly when some narration is not faithful. */
  method AssertInsightFaithfulness(signals: seq<Signal>, narrations: seq<Narration>) returns (verdict: Verdict)
    ensures verdict.Grounded? <==> forall i: nat | i < |narrations| :: Faithful(signals, narrations[i])
    ensures !verdict.Grounded? ==>
      && verdict.narration < |narrations| && !Faithful(signals, narrations[verdict.narration])
      && forall i: nat | i < verdict.narration :: Faithful(signals, narrations[i])
    ensures verdict.Invented? ==>
      && !Known(signals, verdict.number)
      && verdict.number in Distinct(Chosen(Candidates(TextOf(narrations[verdict.narration]))))
    ensures verdict.Orphan? ==>
      !KnownId(signals, verdict.id) && verdict.id in narrations[verdict.narration].citedIds
  {
    hide Chosen, Candidates, Distinct, Known, KnownId;
    for i := 0 to |narrations|
      invariant forall j: nat | j < i :: Faithful(signals, narrations[j])
    {
      var n := narrations[i];
      var numbers := ExtractNumbers(TextOf(n));
      ResultsStandForChosen(signals, n);
      for k := 0 to |numbers|
        invariant forall j: nat | j < k :: Known(signals, numbers[j])
      {
        if !Known(signals, numbers[k]) {
          assert numbers[k] in numbers;
          return Invented(i, numbers[k]);
        }
      }
      for k := 0 to |n.citedIds|
        invariant forall j: nat | j < k :: KnownId(signals, n.citedIds[j])
      {
        if !KnownId(signals, n.citedIds[k]) { return Orphan(i, n.citedIds[k]); }
      }
    }
    verdict := Grounded;
  }
}
