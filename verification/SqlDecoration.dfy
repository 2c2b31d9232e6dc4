/**
 What decorateWithFinal makes of the text of a query: the text of a query, namely of the one with
 FINAL on the fact tables that stand behind FROM or JOIN.
 */
module SqlDecoration {
  import opened FinalRewriter
  import opened SqlGrammar

  /** Queries run in the database called brain. */
  function Address(s: Source): (string, string)
    requires s.Table?
  {
    (if s.database.Named? then s.database.db else "brain", s.name)
  }

  predicate IsFact(facts: set<string>, s: Source)
    requires s.Table?
  {
    Address(s).0 == "brain" && s.name in facts
  }

  // ----- the decorated query --------------------------------------------------------------------

  function FinalElems(facts: set<string>, e: Elems): Elems {
    match e
    case Nil => Nil
    case Atom(t, rest) => Atom(t, FinalElems(facts, rest))
    case Sub(q, rest) => Sub(FinalQuery(facts, q), FinalElems(facts, rest))
    case Group(inner, rest) => Group(FinalElems(facts, inner), FinalElems(facts, rest))
  }

  /** Every fact table reached by FROM or JOIN is read with FINAL. */
  function FinalSource(facts: set<string>, s: Source): Source {
    match s
    case Table(database, name, alias, final) => Table(database, name, alias, final || IsFact(facts, s))
    case Derived(q, alias) => Derived(FinalQuery(facts, q), alias)
  }

  function FinalJoins(facts: set<string>, j: Joins): Joins {
    match j
    case NoJoins => NoJoins
    case Join(kinds, src, cond, more) =>
      Join(kinds, FinalSource(facts, src), FinalElems(facts, cond), FinalJoins(facts, more))
    case CommaJoin(src, more) => CommaJoin(FinalBehindComma(facts, src), FinalJoins(facts, more))
  }

  /** Behind a comma only what is inside a subquery is reached by FROM or JOIN. */
  function FinalBehindComma(facts: set<string>, s: Source): Source {
    match s
    case Table(_, _, _, _) => s
    case Derived(q, alias) => Derived(FinalQuery(facts, q), alias)
  }

  function FinalQuery(facts: set<string>, q: Query): Query {
    match q
    case Select(items, src, joins, tail) =>
      Select(FinalElems(facts, items), FinalSource(facts, src), FinalJoins(facts, joins), FinalElems(facts, tail))
    case With(name, definition, body) => With(name, FinalQuery(facts, definition), FinalQuery(facts, body))
  }

  // ----- the rewriter computes it ---------------------------------------------------------------

  lemma PlainToken(facts: set<string>, t: Token, k: seq<Token>)
    requires t != Kw(FROM) && t != Kw(JOIN)
    ensures Decorate(facts, [t] + k) == [t] + Decorate(facts, k)
  {
    assert ([t] + k)[1..] == k;
  }

  lemma {:induction false} PlainTokens(facts: set<string>, plain: seq<Token>, k: seq<Token>)
    requires Kw(FROM) !in plain && Kw(JOIN) !in plain
    ensures Decorate(facts, plain + k) == plain + Decorate(facts, k)
    decreases |plain|
  {
    hide *;
    if plain == [] {
      assert plain + k == k && plain + Decorate(facts, k) == Decorate(facts, k);
    } else {
      var rest := plain[1..];
      PlainTokens(facts, rest, k);
      PlainToken(facts, plain[0], rest + k);
      assert plain + k == [plain[0]] + (rest + k);
      assert plain + Decorate(facts, k) == [plain[0]] + (rest + Decorate(facts, k));
    }
  }

  /** The words of a table reference, alias included. */
  function Words(s: Source): seq<Token>
    requires s.Table?
  {
    TableTokens(s) + AliasTokens(s.alias)
  }

  lemma PrintsWords(s: Source, k: seq<Token>)
    requires s.Table?
    ensures PrintSource(s, k) == Words(s) + (Mark(s.final) + k)
    ensures Kw(FROM) !in Words(s) && Kw(JOIN) !in Words(s)
  {
  }

  /** After FROM or JOIN, a printed table is matched, alias included, exactly when it is a fact table. */
  lemma TableMatch(facts: set<string>, kw: Token, s: Source, mark: seq<Token>)
    requires kw == Kw(FROM) || kw == Kw(JOIN)
    requires s.Table? && WfSource(facts, s)
    requires mark == [] || (!AliasWord(mark[0]) && mark[0] != Kw(AS) && mark[0] != Dot)
    ensures
      MatchLength(facts, [kw] + (Words(s) + mark)) == if IsFact(facts, s) then 1 + |Words(s)| else 0
  {
    hide TableLength, AliasLength, IsFact, TableTokens, AliasTokens, AliasWord;
    var table, alias := TableTokens(s), AliasTokens(s.alias);
    var out := [kw] + (Words(s) + mark);
    assert out[1..] == table + (alias + mark);
    AliasStart(s.alias);
    TableHead(facts, s, alias + mark);
    assert out[1 + |table|..] == out[1..][|table|..] == alias + mark;
    AliasHead(s.alias, mark);
  }

  lemma AliasStart(a: Alias)
    ensures AliasTokens(a) == [] || AliasTokens(a)[0] != Dot
  {
  }

  lemma TableHead(facts: set<string>, s: Source, rest: seq<Token>)
    requires s.Table? && WfSource(facts, s)
    requires rest == [] || rest[0] != Dot
    ensures TableLength(facts, TableTokens(s) + rest) == (if IsFact(facts, s) then |TableTokens(s)| else 0)
    ensures |TableTokens(s)| > 0
  {
    var out := TableTokens(s) + rest;
    assert forall i | 0 <= i < |TableTokens(s)| :: out[i] == TableTokens(s)[i];
    assert |out| > |TableTokens(s)| ==> out[|TableTokens(s)|] == rest[0];
  }

  lemma AliasHead(a: Alias, mark: seq<Token>)
    requires mark == [] || (!AliasWord(mark[0]) && mark[0] != Kw(AS))
    ensures AliasLength(AliasTokens(a) + mark) == |AliasTokens(a)|
  {
    var out := AliasTokens(a) + mark;
    assert forall i | 0 <= i < |AliasTokens(a)| :: out[i] == AliasTokens(a)[i];
    assert |out| > |AliasTokens(a)| ==> out[|AliasTokens(a)|] == mark[0];
  }

  lemma DecorateMatch(facts: set<string>, ts: seq<Token>, head: seq<Token>, mark: seq<Token>)
    requires ts == head + mark && MatchLength(facts, ts) == |head| > 0
    ensures Decorate(facts, ts) == head + (Missing(mark) + Decorate(facts, mark))
  {
    assert ts[..|head|] == head && ts[|head|..] == mark;
  }

  /** The text of a table after FROM or JOIN is decorated into the text of the table with FINAL. */
  lemma DecoratesTable(facts: set<string>, kw: Token, s: Source, k: seq<Token>)
    requires kw == Kw(FROM) || kw == Kw(JOIN)
    requires s.Table? && WfSource(facts, s) && EndsSource(k)
    ensures Decorate(facts, [kw] + PrintSource(s, k)) == [kw] + PrintSource(FinalSource(facts, s), Decorate(facts, k))
  {
    hide *;
    var done, tail := FinalSource(facts, s), Decorate(facts, k);
    var mark := Mark(s.final) + k;
    FinalKeepsWords(facts, s);
    PrintsWords(s, k);
    PrintsWords(done, tail);
    MarkEnds(s.final, k);
    TableMatch(facts, kw, s, mark);
    MarkDecorates(facts, s.final, k);
    if IsFact(facts, s) {
      var head := [kw] + Words(s);
      assert [kw] + (Words(s) + mark) == head + mark;
      DecorateMatch(facts, head + mark, head, mark);
      assert [kw] + (Words(s) + (Mark(true) + tail)) == head + (Mark(true) + tail);
    } else {
      NoMatchHere(facts, kw, Words(s) + mark);
      PlainTokens(facts, Words(s), mark);
    }
  }

  lemma NoMatchHere(facts: set<string>, t: Token, k: seq<Token>)
    requires MatchLength(facts, [t] + k) == 0
    ensures Decorate(facts, [t] + k) == [t] + Decorate(facts, k)
  {
    assert ([t] + k)[1..] == k;
  }

  lemma MarkDecorates(facts: set<string>, final: bool, k: seq<Token>)
    requires EndsSource(k)
    ensures Decorate(facts, Mark(final) + k) == Mark(final) + Decorate(facts, k)
    ensures Missing(Mark(final) + k) + Decorate(facts, Mark(final) + k) == Mark(true) + Decorate(facts, k)
  {
    PlainTokens(facts, Mark(final), k);
    MarkEnds(final, k);
    assert [] + (Mark(true) + Decorate(facts, k)) == Mark(true) + Decorate(facts, k);
    assert Mark(true) + ([] + Decorate(facts, k)) == Mark(true) + Decorate(facts, k);
  }

  lemma FinalKeepsWords(facts: set<string>, s: Source)
    requires s.Table?
    ensures var done := FinalSource(facts, s);
            done.Table? && Words(done) == Words(s) && done.final == (s.final || IsFact(facts, s))
  {
  }

  lemma MarkEnds(final: bool, k: seq<Token>)
    requires EndsSource(k)
    ensures
      var mark := Mark(final) + k;
      && (mark == [] || (!AliasWord(mark[0]) && mark[0] != Kw(AS) && mark[0] != Dot))
      && (StartsWithFinal(mark) <==> final)
  {
    if !final { assert [] + k == k; }
  }

  lemma {:induction false} DecoratesElems(facts: set<string>, zone: Zone, e: Elems, k: seq<Token>)
    requires WfElems(facts, zone, e)
    ensures Decorate(facts, PrintElems(e, k)) == PrintElems(FinalElems(facts, e), Decorate(facts, k))
    decreases e
  {
    hide Decorate;
    match e
    case Nil =>
    case Atom(t, rest) =>
      DecoratesElems(facts, zone, rest, k);
      PlainToken(facts, t, PrintElems(rest, k));
    case Sub(q, rest) =>
      DecoratesElems(facts, zone, rest, k);
      PlainToken(facts, RParen, PrintElems(rest, k));
      var after := [RParen] + PrintElems(rest, k);
      DecoratesQuery(facts, q, after);
      PlainToken(facts, LParen, PrintQuery(q, after));
    case Group(inner, rest) =>
      DecoratesElems(facts, zone, rest, k);
      PlainToken(facts, RParen, PrintElems(rest, k));
      var after := [RParen] + PrintElems(rest, k);
      DecoratesElems(facts, InGroup, inner, after);
      PlainToken(facts, LParen, PrintElems(inner, after));
  }

  lemma {:induction false} DecoratesSource(facts: set<string>, kw: Token, s: Source, k: seq<Token>)
    requires kw == Kw(FROM) || kw == Kw(JOIN)
    requires WfSource(facts, s) && EndsSource(k)
    ensures Decorate(facts, [kw] + PrintSource(s, k)) == [kw] + PrintSource(FinalSource(facts, s), Decorate(facts, k))
    decreases s
  {
    match s
    case Table(_, _, _, _) =>
      DecoratesTable(facts, kw, s, k);
    case Derived(q, alias) =>
      PlainTokens(facts, AliasTokens(alias), k);
      PlainToken(facts, RParen, AliasTokens(alias) + k);
      var after := [RParen] + (AliasTokens(alias) + k);
      DecoratesQuery(facts, q, after);
      PlainToken(facts, LParen, PrintQuery(q, after));
      NoTableInParens(facts, kw, PrintQuery(q, after));
  }

  lemma NoTableInParens(facts: set<string>, kw: Token, k: seq<Token>)
    ensures Decorate(facts, [kw] + ([LParen] + k)) == [kw] + Decorate(facts, [LParen] + k)
  {
    assert ([kw] + ([LParen] + k))[1..] == [LParen] + k;
    assert MatchLength(facts, [kw] + ([LParen] + k)) == 0;
  }

  lemma {:induction false} DecoratesKinds(facts: set<string>, kinds: seq<Keyword>, k: seq<Token>)
    requires forall i | 0 <= i < |kinds| :: JoinKind(kinds[i])
    ensures Decorate(facts, PrintKinds(kinds, k)) == PrintKinds(kinds, Decorate(facts, k))
    decreases |kinds|
  {
    if kinds != [] {
      DecoratesKinds(facts, kinds[1..], k);
      PlainToken(facts, Kw(kinds[0]), PrintKinds(kinds[1..], k));
    }
  }

  lemma {:induction false} DecoratesJoins(facts: set<string>, j: Joins, k: seq<Token>)
    requires WfJoins(facts, j) && EndsJoins(k)
    ensures Decorate(facts, PrintJoins(j, k)) == PrintJoins(FinalJoins(facts, j), Decorate(facts, k))
    decreases j
  {
    hide Decorate, PrintSource, PrintKinds, PrintElems, EndsSource, EndsJoins;
    match j
    case NoJoins =>
    case Join(kinds, src, cond, more) =>
      var afterCond := PrintJoins(more, k);
      var afterSrc := PrintElems(cond, afterCond);
      DecoratesJoins(facts, more, k);
      DecoratesElems(facts, InCondition, cond, afterCond);
      ConditionEnds(facts, j, k);
      DecoratesSource(facts, Kw(JOIN), src, afterSrc);
      DecoratesKinds(facts, kinds, [Kw(JOIN)] + PrintSource(src, afterSrc));
    case CommaJoin(src, more) =>
      var afterSrc := PrintJoins(more, k);
      DecoratesJoins(facts, more, k);
      DecoratesBehindComma(facts, src, afterSrc);
      PlainToken(facts, Comma, PrintSource(src, afterSrc));
  }

  lemma {:induction false} DecoratesBehindComma(facts: set<string>, s: Source, k: seq<Token>)
    requires WfSource(facts, s)
    ensures Decorate(facts, PrintSource(s, k)) == PrintSource(FinalBehindComma(facts, s), Decorate(facts, k))
    decreases s
  {
    match s
    case Table(_, _, _, final) =>
      PrintsWords(s, k);
      PrintsWords(s, Decorate(facts, k));
      PlainTokens(facts, Mark(final), k);
      PlainTokens(facts, Words(s), Mark(final) + k);
    case Derived(q, alias) =>
      PlainTokens(facts, AliasTokens(alias), k);
      PlainToken(facts, RParen, AliasTokens(alias) + k);
      var after := [RParen] + (AliasTokens(alias) + k);
      DecoratesQuery(facts, q, after);
      PlainToken(facts, LParen, PrintQuery(q, after));
  }

  /** Decorating a query's text gives the text of the query with FINAL on its fact tables. */
  lemma {:induction false} DecoratesQuery(facts: set<string>, q: Query, k: seq<Token>)
    requires WfQuery(facts, q) && EndsQuery(k)
    ensures Decorate(facts, PrintQuery(q, k)) == PrintQuery(FinalQuery(facts, q), Decorate(facts, k))
    decreases q, 1
  {
    hide Decorate, PrintNamed, PrintSelect, WfSelect;
    match q
    case Select(_, _, _, _) =>
      DecoratesSelect(facts, q, k);
    case With(_, _, _) =>
      DecoratesNamed(facts, q, k);
      PlainToken(facts, Kw(WITH), PrintNamed(q, k));
  }

  lemma {:induction false} DecoratesNamed(facts: set<string>, q: Query, k: seq<Token>)
    requires q.With? && WfQuery(facts, q) && EndsQuery(k)
    ensures Decorate(facts, PrintNamed(q, k)) == PrintNamed(FinalQuery(facts, q), Decorate(facts, k))
    decreases q, 0
  {
    hide Decorate, PrintBody, PrintQuery, WfSelect;
    var after := [RParen] + PrintBody(q, k);
    DecoratesBody(facts, q, k);
    PlainToken(facts, RParen, PrintBody(q, k));
    DecoratesQuery(facts, q.definition, after);
    PlainTokens(facts, [Word(q.name), Kw(AS), LParen], PrintQuery(q.definition, after));
  }

  lemma {:induction false} DecoratesBody(facts: set<string>, q: Query, k: seq<Token>)
    requires q.With? && WfQuery(facts, q) && EndsQuery(k)
    ensures Decorate(facts, PrintBody(q, k)) == PrintBody(FinalQuery(facts, q), Decorate(facts, k))
    decreases q.body, 2
  {
    hide Decorate, PrintNamed, PrintSelect, WfSelect;
    if q.body.With? {
      DecoratesNamed(facts, q.body, k);
      PlainToken(facts, Comma, PrintNamed(q.body, k));
    } else {
      DecoratesSelect(facts, q.body, k);
    }
  }

  lemma {:induction false} DecoratesSelect(facts: set<string>, q: Query, k: seq<Token>)
    requires q.Select? && WfSelect(facts, q) && EndsQuery(k)
    ensures Decorate(facts, PrintSelect(q, k)) == PrintSelect(FinalQuery(facts, q), Decorate(facts, k))
    decreases q, 0
  {
    hide Decorate, PrintSource, PrintElems, PrintJoins, EndsSource, EndsJoins;
    var afterJoins := PrintElems(q.tail, k);
    var afterSrc := PrintJoins(q.joins, afterJoins);
    var atFrom := [Kw(FROM)] + PrintSource(q.src, afterSrc);
    DecoratesElems(facts, InTail, q.tail, k);
    TailEnds(facts, q, k);
    DecoratesJoins(facts, q.joins, afterJoins);
    JoinsEnd(facts, q.joins, afterJoins);
    DecoratesSource(facts, Kw(FROM), q.src, afterSrc);
    DecoratesElems(facts, InItems, q.items, atFrom);
    PlainToken(facts, Kw(SELECT), PrintElems(q.items, atFrom));
  }

  lemma {:induction false} FinalElemsWf(facts: set<string>, zone: Zone, e: Elems)
    requires WfElems(facts, zone, e)
    ensures WfElems(facts, zone, FinalElems(facts, e))
    decreases e
  {
    match e
    case Nil =>
    case Atom(_, rest) => FinalElemsWf(facts, zone, rest);
    case Sub(q, rest) => FinalQueryWf(facts, q); FinalElemsWf(facts, zone, rest);
    case Group(inner, rest) => FinalElemsWf(facts, InGroup, inner); FinalElemsWf(facts, zone, rest);
  }

  lemma {:induction false} FinalSourceWf(facts: set<string>, s: Source)
    requires WfSource(facts, s)
    ensures WfSource(facts, FinalSource(facts, s))
    decreases s
  {
    match s
    case Table(_, _, _, _) =>
    case Derived(q, _) => FinalQueryWf(facts, q);
  }

  lemma {:induction false} FinalJoinsWf(facts: set<string>, j: Joins)
    requires WfJoins(facts, j)
    ensures WfJoins(facts, FinalJoins(facts, j))
    decreases j
  {
    match j
    case NoJoins =>
    case Join(_, src, cond, more) =>
      FinalSourceWf(facts, src);
      FinalElemsWf(facts, InCondition, cond);
      FinalJoinsWf(facts, more);
    case CommaJoin(src, more) =>
      if src.Derived? { FinalQueryWf(facts, src.q); }
      FinalJoinsWf(facts, more);
  }

  lemma {:induction false} FinalQueryWf(facts: set<string>, q: Query)
    requires WfQuery(facts, q)
    ensures WfQuery(facts, FinalQuery(facts, q))
    decreases q
  {
    match q
    case Select(items, src, joins, tail) =>
      FinalElemsWf(facts, InItems, items);
      FinalSourceWf(facts, src);
      FinalJoinsWf(facts, joins);
      FinalElemsWf(facts, InTail, tail);
    case With(_, definition, body) =>
      FinalQueryWf(facts, definition);
      FinalQueryWf(facts, body);
  }
}
