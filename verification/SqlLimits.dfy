/**
 Where decorateWithFinal stops keeping the meaning: exactly at the queries that are not sound. Seen in
 the interpretation that forgets nothing, where a result is the tree of the steps that made it.
 */
module SqlLimits {
  import opened ReplacingMergeTree
  import opened FinalRewriter
  import opened SqlGrammar
  import opened SqlDecoration
  import opened SqlMeaning

  datatype Term<!K(==), !D(==)> =
    | Scanned(at: (string, string), alias: Alias, rows: set<Row<K, D>>)
    | Referred(v: Term<K, D>, alias: Alias, final: bool)
    | Inlined(v: Term<K, D>, alias: Alias)
    | Joined(kinds: seq<Keyword>, left: Term<K, D>, right: Term<K, D>, cond: seq<Piece<Term<K, D>>>)
    | Selected(items: seq<Piece<Term<K, D>>>, input: Term<K, D>, tail: seq<Piece<Term<K, D>>>)

  ghost function Free<K, D>(): Interpretation<K, D, Term<K, D>> {
    Interpretation(
      (at, alias, rows) => Scanned(at, alias, rows),
      (v, alias, final) => Referred(v, alias, final),
      (v, alias) => Inlined(v, alias),
      (kinds, left, right, cond) => Joined(kinds, left, right, cond),
      (items, rows, tail) => Selected(items, rows, tail))
  }

  /** Every fact table holds some row version that FINAL drops. */
  ghost predicate Stale<K, D>(facts: set<string>, tables: Tables<K, D>) {
    forall t | t in facts :: ("brain", t) in tables && FinalRows(tables[("brain", t)]) != tables[("brain", t)]
  }

  /** Alike exactly where st says so. */
  ghost predicate AlikeOnly<V>(st: Standing, done: map<string, V>, plain: map<string, V>) {
    st.Keys == done.Keys == plain.Keys && forall n | n in st :: st[n] <==> done[n] == plain[n]
  }

  lemma ConcatEqual<T>(a: seq<T>, b: seq<T>, c: seq<T>, d: seq<T>)
    requires |a| == |c|
    ensures a + b == c + d <==> a == c && b == d
  {
    assert (a + b)[..|a|] == a && (a + b)[|a|..] == b && (c + d)[..|a|] == c && (c + d)[|a|..] == d;
  }

  /** Decorating changes no expression's length. */
  lemma {:induction false} SameLength<K, D>(
    facts: set<string>, tables: Tables<K, D>, other: Tables<K, D>,
    done: map<string, Term<K, D>>, plain: map<string, Term<K, D>>, e: Elems)
    ensures |EvalElems(Free(), tables, done, FinalElems(facts, e))| == |EvalElems(Free(), other, plain, e)|
    decreases e
  {
    hide EvalQuery;
    match e
    case Nil =>
    case Atom(_, rest) => SameLength(facts, tables, other, done, plain, rest);
    case Sub(_, rest) => SameLength(facts, tables, other, done, plain, rest);
    case Group(inner, rest) =>
      SameLength(facts, tables, other, done, plain, inner);
      SameLength(facts, tables, other, done, plain, rest);
  }

  lemma {:induction false} ElemsExactly<K, D>(
    facts: set<string>, tables: Tables<K, D>, st: Standing,
    done: map<string, Term<K, D>>, plain: map<string, Term<K, D>>, e: Elems)
    requires Stale(facts, tables) && AlikeOnly(st, done, plain)
    ensures SoundElems(facts, st, e) <==>
      EvalElems(Free(), tables, done, FinalElems(facts, e)) == EvalElems(Free(), Deduplicated(facts, tables), plain, e)
    decreases e
  {
    hide Stale, AlikeOnly, Deduplicated, EvalQuery, Free;
    var i, dedup := Free<K, D>(), Deduplicated(facts, tables);
    match e
    case Nil =>
    case Atom(t, rest) =>
      ElemsExactly(facts, tables, st, done, plain, rest);
      var a, b := EvalElems(i, tables, done, FinalElems(facts, rest)), EvalElems(i, dedup, plain, rest);
      ConcatEqual([Tok(t)], a, [Tok(t)], b);
    case Sub(q, rest) =>
      QueryExactly(facts, tables, st, done, plain, q);
      ElemsExactly(facts, tables, st, done, plain, rest);
      var a, b := EvalElems(i, tables, done, FinalElems(facts, rest)), EvalElems(i, dedup, plain, rest);
      var v, w := EvalQuery(i, tables, done, FinalQuery(facts, q)), EvalQuery(i, dedup, plain, q);
      ConcatEqual([Result(v)], a, [Result(w)], b);
      assert [Result(v)] == [Result(w)] <==> [Result(v)][0] == [Result(w)][0];
    case Group(inner, rest) =>
      ElemsExactly(facts, tables, st, done, plain, inner);
      ElemsExactly(facts, tables, st, done, plain, rest);
      SameLength(facts, tables, dedup, done, plain, inner);
      var a, b := EvalElems(i, tables, done, FinalElems(facts, inner)), EvalElems(i, dedup, plain, inner);
      var c, d := EvalElems(i, tables, done, FinalElems(facts, rest)), EvalElems(i, dedup, plain, rest);
      ConcatEqual([Open], a, [Open], b);
      ConcatEqual([Close], c, [Close], d);
      ConcatEqual([Open] + a, [Close] + c, [Open] + b, [Close] + d);
  }

  lemma {:induction false} SourceExactly<K, D>(
    facts: set<string>, tables: Tables<K, D>, st: Standing,
    done: map<string, Term<K, D>>, plain: map<string, Term<K, D>>, s: Source)
    requires Stale(facts, tables) && AlikeOnly(st, done, plain)
    ensures SoundSource(facts, st, s) <==>
      EvalSource(Free(), tables, done, FinalSource(facts, s)) ==
        EvalSource(Free(), Deduplicated(facts, tables), plain, s)
    decreases s
  {
    match s
    case Table(_, _, _, _) =>
      hide FinalRows, Deduplicated, Stale;
      FinalTableMeans(facts, tables, s);
      assert Address(FinalSource(facts, s)) == Address(s);
    case Derived(q, _) =>
      hide Stale, AlikeOnly, Deduplicated, EvalQuery, SoundQuery;
      QueryExactly(facts, tables, st, done, plain, q);
  }

  lemma {:induction false} BehindCommaExactly<K, D>(
    facts: set<string>, tables: Tables<K, D>, st: Standing,
    done: map<string, Term<K, D>>, plain: map<string, Term<K, D>>, s: Source)
    requires Stale(facts, tables) && AlikeOnly(st, done, plain)
    ensures SoundBehindComma(facts, st, s) <==>
      EvalSource(Free(), tables, done, FinalBehindComma(facts, s)) ==
      EvalSource(Free(), Deduplicated(facts, tables), plain, s)
    decreases s
  {
    match s
    case Table(_, _, _, _) =>
      hide FinalRows, Deduplicated;
      FinalTableMeans(facts, tables, s);
    case Derived(q, _) =>
      hide Stale, AlikeOnly, Deduplicated, EvalQuery, SoundQuery;
      QueryExactly(facts, tables, st, done, plain, q);
  }

  lemma {:induction false} JoinsExactly<K, D>(
    facts: set<string>, tables: Tables<K, D>, st: Standing, done: map<string, Term<K, D>>,
    plain: map<string, Term<K, D>>,
    left: Term<K, D>, other: Term<K, D>, j: Joins)
    requires Stale(facts, tables) && AlikeOnly(st, done, plain)
    ensures left == other && SoundJoins(facts, st, j) <==>
      EvalJoins(Free(), tables, done, left, FinalJoins(facts, j)) ==
      EvalJoins(Free(), Deduplicated(facts, tables), plain, other, j)
    decreases j
  {
    hide Stale, AlikeOnly, Deduplicated, EvalSource, EvalElems, SoundSource, SoundElems, SoundBehindComma;
    var i, dedup := Free<K, D>(), Deduplicated(facts, tables);
    match j
    case NoJoins =>
    case Join(kinds, src, cond, more) =>
      SourceExactly(facts, tables, st, done, plain, src);
      ElemsExactly(facts, tables, st, done, plain, cond);
      var a, b := EvalSource(i, tables, done, FinalSource(facts, src)), EvalSource(i, dedup, plain, src);
      var c, d := EvalElems(i, tables, done, FinalElems(facts, cond)), EvalElems(i, dedup, plain, cond);
      JoinsExactly(facts, tables, st, done, plain, Joined(kinds, left, a, c), Joined(kinds, other, b, d), more);
    case CommaJoin(src, more) =>
      BehindCommaExactly(facts, tables, st, done, plain, src);
      var a, b := EvalSource(i, tables, done, FinalBehindComma(facts, src)), EvalSource(i, dedup, plain, src);
      JoinsExactly(facts, tables, st, done, plain, Joined([CROSS], left, a, []), Joined([CROSS], other, b, []), more);
  }

  lemma {:induction false} QueryExactly<K, D>(
    facts: set<string>, tables: Tables<K, D>, st: Standing,
    done: map<string, Term<K, D>>, plain: map<string, Term<K, D>>, q: Query)
    requires Stale(facts, tables) && AlikeOnly(st, done, plain)
    ensures SoundQuery(facts, st, q) <==>
      EvalQuery(Free(), tables, done, FinalQuery(facts, q)) == EvalQuery(Free(), Deduplicated(facts, tables), plain, q)
    decreases q
  {
    hide Stale, Deduplicated, EvalSource, EvalElems, EvalJoins, SoundSource, SoundElems, SoundJoins;
    var i, dedup := Free<K, D>(), Deduplicated(facts, tables);
    match q
    case Select(items, src, joins, tail) =>
      ElemsExactly(facts, tables, st, done, plain, items);
      SourceExactly(facts, tables, st, done, plain, src);
      var a, b := EvalSource(i, tables, done, FinalSource(facts, src)), EvalSource(i, dedup, plain, src);
      JoinsExactly(facts, tables, st, done, plain, a, b, joins);
      ElemsExactly(facts, tables, st, done, plain, tail);
    case With(name, definition, body) =>
      QueryExactly(facts, tables, st, done, plain, definition);
      var a, b := EvalQuery(i, tables, done, FinalQuery(facts, definition)), EvalQuery(i, dedup, plain, definition);
      QueryExactly(facts, tables, st[name := SoundQuery(facts, st, definition)], done[name := a], plain[name := b],
                   body);
  }

  /**
   The exact condition: over tables that hold stale versions, the decorated text means what the
   original means over deduplicated tables if and only if the query is sound.
   */
  lemma KeepsMeaningExactly<K, D>(facts: set<string>, tables: Tables<K, D>, q: Query)
    requires WfQuery(facts, q) && Stale(facts, tables)
    ensures Sound(facts, q) <==>
      Meaning(Free(), tables, Decorate(facts, Print(q))) == Meaning(Free(), Deduplicated(facts, tables), Print(q))
  {
    hide Parse, Print, WfQuery, EvalQuery, SoundQuery, FinalQuery, Deduplicated, Stale;
    BothTextsRead(facts, q);
    QueryExactly(facts, tables, map[], map[], map[], q);
  }

  /** Two versions of one row in every fact table: stale tables exist. */
  lemma StaleTablesExist<K, D>(facts: set<string>, k: K, d: D) returns (tables: Tables<K, D>)
    ensures Stale(facts, tables)
  {
    var stale, newest := Row(k, 0, 0, d), Row(k, 1, 1, d);
    var places := set t | t in facts :: ("brain", t);
    tables := map at | at in places :: {stale, newest};
    assert Newer(newest, stale) && stale !in FinalRows({stale, newest});
  }

  /** A query all of whose names are told apart: what a caller has to look for. */
  predicate ClearElems(facts: set<string>, e: Elems)
    decreases e
  {
    match e
    case Nil => true
    case Atom(_, rest) => ClearElems(facts, rest)
    case Sub(q, rest) => Clear(facts, q) && ClearElems(facts, rest)
    case Group(inner, rest) => ClearElems(facts, inner) && ClearElems(facts, rest)
  }

  predicate ClearSource(facts: set<string>, s: Source)
    decreases s
  {
    s.Derived? ==> Clear(facts, s.q)
  }

  predicate ClearJoins(facts: set<string>, j: Joins)
    decreases j
  {
    match j
    case NoJoins => true
    case Join(_, src, cond, more) => ClearSource(facts, src) && ClearElems(facts, cond) && ClearJoins(facts, more)
    case CommaJoin(src, more) =>
      ClearSource(facts, src) && (src.Table? ==> !IsFact(facts, src)) && ClearJoins(facts, more)
  }

  /** No named subquery is named like a fact table, and no fact table stands behind a comma. */
  predicate Clear(facts: set<string>, q: Query)
    decreases q
  {
    match q
    case Select(items, src, joins, tail) =>
      && ClearElems(facts, items) && ClearSource(facts, src)
      && ClearJoins(facts, joins) && ClearElems(facts, tail)
    case With(name, definition, body) => name !in facts && Clear(facts, definition) && Clear(facts, body)
  }

  ghost predicate AllWell(facts: set<string>, st: Standing) { forall n | n in st :: st[n] && n !in facts }

  lemma {:induction false} ClearElemsAreSound(facts: set<string>, st: Standing, e: Elems)
    requires ClearElems(facts, e) && AllWell(facts, st)
    ensures SoundElems(facts, st, e)
    decreases e
  {
    match e
    case Nil =>
    case Atom(_, rest) => ClearElemsAreSound(facts, st, rest);
    case Sub(q, rest) => ClearIsSound(facts, st, q); ClearElemsAreSound(facts, st, rest);
    case Group(inner, rest) => ClearElemsAreSound(facts, st, inner); ClearElemsAreSound(facts, st, rest);
  }

  lemma {:induction false} ClearJoinsAreSound(facts: set<string>, st: Standing, j: Joins)
    requires ClearJoins(facts, j) && AllWell(facts, st)
    ensures SoundJoins(facts, st, j)
    decreases j
  {
    match j
    case NoJoins =>
    case Join(_, src, cond, more) =>
      if src.Derived? { ClearIsSound(facts, st, src.q); }
      ClearElemsAreSound(facts, st, cond);
      ClearJoinsAreSound(facts, st, more);
    case CommaJoin(src, more) =>
      if src.Derived? { ClearIsSound(facts, st, src.q); }
      ClearJoinsAreSound(facts, st, more);
  }

  /** Such a query is sound. */
  lemma {:induction false} ClearIsSound(facts: set<string>, st: Standing, q: Query)
    requires Clear(facts, q) && AllWell(facts, st)
    ensures SoundQuery(facts, st, q)
    decreases q
  {
    match q
    case Select(items, src, joins, tail) =>
      ClearElemsAreSound(facts, st, items);
      if src.Derived? { ClearIsSound(facts, st, src.q); }
      ClearJoinsAreSound(facts, st, joins);
      ClearElemsAreSound(facts, st, tail);
    case With(name, definition, body) =>
      ClearIsSound(facts, st, definition);
      ClearIsSound(facts, st[name := true], body);
  }

  /** SELECT items FROM src, more joins, tail: well-formed when its parts are. */
  lemma SelectWf(facts: set<string>, items: Elems, src: Source, joins: Joins, tail: Elems)
    requires WfElems(facts, InItems, items) && WfSource(facts, src) && WfJoins(facts, joins)
    requires WfElems(facts, InTail, tail) && (tail.Nil? || (tail.Atom? && StartsTail(tail.t)))
    ensures WfQuery(facts, Select(items, src, joins, tail))
  {
  }

  lemma WithWf(facts: set<string>, name: string, definition: Query, body: Query)
    requires WfQuery(facts, definition) && WfQuery(facts, body)
    ensures WfQuery(facts, With(name, definition, body))
  {
  }

  lemma DecoratesText(facts: set<string>, q: Query)
    requires WfQuery(facts, q)
    ensures Decorate(facts, Print(q)) == Print(FinalQuery(facts, q))
  {
    DecoratesQuery(facts, q, []);
    assert Decorate(facts, []) == [];
  }

  /**
   WITH t AS (..) SELECT .. FROM t for a fact table's name t: the reference gets a FINAL although it
   reads no table.
   */
  lemma NamedLikeAFactTable(
    facts: set<string>, t: string, definition: Query, alias: Alias, items: Elems, tail: Elems)
    requires t in facts && WfQuery(facts, definition) && WfElems(facts, InItems, items)
    requires WfElems(facts, InTail, tail) && (tail.Nil? || (tail.Atom? && StartsTail(tail.t)))
    ensures
      var body := Select(items, Table(Default, t, alias, false), NoJoins, tail);
      var done := Select(FinalElems(facts, items), Table(Default, t, alias, true), NoJoins, FinalElems(facts, tail));
      && Decorate(facts, Print(With(t, definition, body))) == Print(With(t, FinalQuery(facts, definition), done))
      && !Sound(facts, With(t, definition, body))
  {
    hide Print, Decorate, WfQuery, WfElems;
    var body := Select(items, Table(Default, t, alias, false), NoJoins, tail);
    SelectWf(facts, items, body.src, NoJoins, tail);
    WithWf(facts, t, definition, body);
    DecoratesText(facts, With(t, definition, body));
    assert FinalSource(facts, body.src) == Table(Default, t, alias, true) && FinalJoins(facts, NoJoins) == NoJoins;
    assert FinalQuery(facts, body).src == Table(Default, t, alias, true);
    var st: Standing := map[t := SoundQuery(facts, map[], definition)];
    assert !SoundSource(facts, st, body.src);
    assert !SoundQuery(facts, st, body);
  }

  /** SELECT .. FROM s, brain.t for a fact table t: the second table is read without FINAL. */
  lemma FactBehindComma(facts: set<string>, t: string, src: Source, alias: Alias, items: Elems)
    requires t in facts && WfElems(facts, InItems, items) && WfSource(facts, src) && "brain" !in facts
    ensures
      var behind := CommaJoin(Table(Database.Named("brain"), t, alias, false), NoJoins);
      var q := Select(items, src, behind, Nil);
      && Decorate(facts, Print(q)) == Print(Select(FinalElems(facts, items), FinalSource(facts, src), behind, Nil))
      && !Sound(facts, q)
  {
    hide Print, Decorate, WfQuery, WfElems;
    var second := Table(Database.Named("brain"), t, alias, false);
    var behind := CommaJoin(second, NoJoins);
    assert WfSource(facts, second) && WfJoins(facts, NoJoins);
    SelectWf(facts, items, src, behind, Nil);
    DecoratesText(facts, Select(items, src, behind, Nil));
    assert FinalJoins(facts, NoJoins) == NoJoins && FinalElems(facts, Nil) == Nil;
    assert FinalJoins(facts, behind) == behind;
    assert !SoundBehindComma(facts, map[], second);
    assert !SoundJoins(facts, map[], behind);
  }
}
