/**
 What a query means over tables that hold every version of their rows, and when decorateWithFinal
 turns a query into one whose meaning is that of the original over deduplicated tables.

 The meaning of everything but tables, named subqueries and FINAL is left open: an interpretation
 supplies it, and the results hold for every interpretation.
 */
module SqlMeaning {
  import opened ReplacingMergeTree
  import opened FinalRewriter
  import opened SqlGrammar
  import opened SqlDecoration

  /** The physical rows of every table, by database and name. */
  type Tables<K(==), D(==)> = map<(string, string), set<Row<K, D>>>

  /** A closed piece of an expression: a token, a parenthesis, or a subquery's result. */
  datatype Piece<V> = Tok(t: Token) | Open | Close | Result(v: V)

  /** The rest of SQL: how rows, named results, joins, conditions, filters and projections combine. */
  datatype Interpretation<!K(==), !D(==), !V> = Interpretation(
    scan: ((string, string), Alias, set<Row<K, D>>) -> V,
    named: (V, Alias, bool) -> V,  // the flag says whether FINAL stands behind the name
    derive: (V, Alias) -> V,
    join: (seq<Keyword>, V, V, seq<Piece<V>>) -> V,
    select: (seq<Piece<V>>, V, seq<Piece<V>>) -> V)

  function RowsAt<K(==), D(==)>(tables: Tables<K, D>, at: (string, string)): set<Row<K, D>> {
    if at in tables then tables[at] else {}
  }

  /** Whether s names one of the subqueries in scope; a database in front makes it a table. */
  predicate NamesSubquery(names: set<string>, s: Source)
    requires s.Table?
  {
    s.database.Default? && s.name in names
  }

  function EvalElems<K(==), D(==), V>(
    i: Interpretation<K, D, V>, tables: Tables<K, D>, env: map<string, V>, e: Elems): seq<Piece<V>>
    decreases e
  {
    match e
    case Nil => []
    case Atom(t, rest) => [Tok(t)] + EvalElems(i, tables, env, rest)
    case Sub(q, rest) => [Result(EvalQuery(i, tables, env, q))] + EvalElems(i, tables, env, rest)
    case Group(inner, rest) =>
      ([Open] + EvalElems(i, tables, env, inner)) + ([Close] + EvalElems(i, tables, env, rest))
  }

  function EvalSource<K(==), D(==), V>(
    i: Interpretation<K, D, V>, tables: Tables<K, D>, env: map<string, V>, s: Source): V
    decreases s
  {
    match s
    case Table(_, name, alias, final) =>
      if NamesSubquery(env.Keys, s) then i.named(env[name], alias, final)
      else
        var rows := RowsAt(tables, Address(s));
        i.scan(Address(s), alias, if final then FinalRows(rows) else rows)
    case Derived(q, alias) => i.derive(EvalQuery(i, tables, env, q), alias)
  }

  /** A comma is a cross join. */
  function EvalJoins<K(==), D(==), V>(
    i: Interpretation<K, D, V>, tables: Tables<K, D>, env: map<string, V>, left: V, j: Joins): V
    decreases j
  {
    match j
    case NoJoins => left
    case Join(kinds, src, cond, more) =>
      var right := EvalSource(i, tables, env, src);
      EvalJoins(i, tables, env, i.join(kinds, left, right, EvalElems(i, tables, env, cond)), more)
    case CommaJoin(src, more) =>
      EvalJoins(i, tables, env, i.join([CROSS], left, EvalSource(i, tables, env, src), []), more)
  }

  function EvalQuery<K(==), D(==), V>(
    i: Interpretation<K, D, V>, tables: Tables<K, D>, env: map<string, V>, q: Query): V
    decreases q
  {
    match q
    case Select(items, src, joins, tail) =>
      var rows := EvalJoins(i, tables, env, EvalSource(i, tables, env, src), joins);
      i.select(EvalElems(i, tables, env, items), rows, EvalElems(i, tables, env, tail))
    case With(name, definition, body) =>
      EvalQuery(i, tables, env[name := EvalQuery(i, tables, env, definition)], body)
  }

  datatype Outcome<+V> = SyntaxError | Value(v: V)

  /** Running a text against the tables. */
  function Meaning<K(==), D(==), V>(i: Interpretation<K, D, V>, tables: Tables<K, D>, text: seq<Token>): Outcome<V> {
    match Parse(text)
    case Fail => SyntaxError
    case Got(q, _) => Value(EvalQuery(i, tables, map[], q))
  }

  /** The tables with every fact table cut down to the newest version of each row. */
  function Deduplicated<K(==), D(==)>(facts: set<string>, tables: Tables<K, D>): Tables<K, D> {
    map at | at in tables :: if at.0 == "brain" && at.1 in facts then FinalRows(tables[at]) else tables[at]
  }

  // ----- which queries the rewriter is right about ----------------------------------------------

  /** The named subqueries in scope, and whether the rewriter is right about each. */
  type Standing = map<string, bool>

  predicate SoundElems(facts: set<string>, st: Standing, e: Elems)
    decreases e
  {
    match e
    case Nil => true
    case Atom(_, rest) => SoundElems(facts, st, rest)
    case Sub(q, rest) => SoundQuery(facts, st, q) && SoundElems(facts, st, rest)
    case Group(inner, rest) => SoundElems(facts, st, inner) && SoundElems(facts, st, rest)
  }

  /** Behind FROM or JOIN: a named subquery must not get a FINAL for being named like a fact table. */
  predicate SoundSource(facts: set<string>, st: Standing, s: Source)
    decreases s
  {
    match s
    case Table(_, name, _, final) => NamesSubquery(st.Keys, s) ==> st[name] && (final || name !in facts)
    case Derived(q, _) => SoundQuery(facts, st, q)
  }

  /** Behind a comma: a fact table needs a FINAL of its own, as the rewriter does not look there. */
  predicate SoundBehindComma(facts: set<string>, st: Standing, s: Source)
    decreases s
  {
    match s
    case Table(_, name, _, final) =>
      if NamesSubquery(st.Keys, s) then st[name] else final || !IsFact(facts, s)
    case Derived(q, _) => SoundQuery(facts, st, q)
  }

  predicate SoundJoins(facts: set<string>, st: Standing, j: Joins)
    decreases j
  {
    match j
    case NoJoins => true
    case Join(_, src, cond, more) =>
      SoundSource(facts, st, src) && SoundElems(facts, st, cond) && SoundJoins(facts, st, more)
    case CommaJoin(src, more) => SoundBehindComma(facts, st, src) && SoundJoins(facts, st, more)
  }

  predicate SoundQuery(facts: set<string>, st: Standing, q: Query)
    decreases q
  {
    match q
    case Select(items, src, joins, tail) =>
      && SoundElems(facts, st, items) && SoundSource(facts, st, src)
      && SoundJoins(facts, st, joins) && SoundElems(facts, st, tail)
    case With(name, definition, body) =>
      SoundQuery(facts, st[name := SoundQuery(facts, st, definition)], body)
  }

  /**
   No reference to a named subquery that is named like a fact table, and no bare fact table behind a
   comma, anywhere the query reaches.
   */
  predicate Sound(facts: set<string>, q: Query) { SoundQuery(facts, map[], q) }

  // ----- it means what the original means over deduplicated tables -------------------------------

  /** One environment for the decorated query, one for the original: alike where st says so. */
  ghost predicate Alike<V>(st: Standing, done: map<string, V>, plain: map<string, V>) {
    st.Keys == done.Keys == plain.Keys && forall n | n in st && st[n] :: done[n] == plain[n]
  }

  lemma {:induction false} FinalElemsMean<K, D, V>(
    facts: set<string>, i: Interpretation<K, D, V>, tables: Tables<K, D>, st: Standing,
    done: map<string, V>, plain: map<string, V>, e: Elems)
    requires Alike(st, done, plain) && SoundElems(facts, st, e)
    ensures EvalElems(i, tables, done, FinalElems(facts, e)) == EvalElems(i, Deduplicated(facts, tables), plain, e)
    decreases e
  {
    match e
    case Nil =>
    case Atom(_, rest) =>
      FinalElemsMean(facts, i, tables, st, done, plain, rest);
    case Sub(q, rest) =>
      FinalQueryMeans(facts, i, tables, st, done, plain, q);
      FinalElemsMean(facts, i, tables, st, done, plain, rest);
    case Group(inner, rest) =>
      FinalElemsMean(facts, i, tables, st, done, plain, inner);
      FinalElemsMean(facts, i, tables, st, done, plain, rest);
  }

  /** Scanning a table with FINAL is scanning the deduplicated table. */
  lemma FinalTableMeans<K, D>(facts: set<string>, tables: Tables<K, D>, s: Source)
    requires s.Table?
    ensures
      var stored, kept := RowsAt(tables, Address(s)), RowsAt(Deduplicated(facts, tables), Address(s));
      && kept == (if IsFact(facts, s) then FinalRows(stored) else stored)
      && FinalRows(kept) == FinalRows(stored)
  {
    hide FinalRows;
    FinalIdempotent(RowsAt(tables, Address(s)));
    FinalOfNothing<K, D>();
  }

  lemma FinalOfNothing<K, D>()
    ensures FinalRows<K, D>({}) == {}
  {
  }

  lemma {:induction false} FinalSourceMeans<K, D, V>(
    facts: set<string>, i: Interpretation<K, D, V>, tables: Tables<K, D>, st: Standing,
    done: map<string, V>, plain: map<string, V>, s: Source)
    requires Alike(st, done, plain) && SoundSource(facts, st, s)
    ensures EvalSource(i, tables, done, FinalSource(facts, s)) == EvalSource(i, Deduplicated(facts, tables), plain, s)
    decreases s
  {
    match s
    case Table(_, _, _, _) =>
      hide FinalRows, Deduplicated;
      FinalTableMeans(facts, tables, s);
      assert Address(FinalSource(facts, s)) == Address(s);
    case Derived(q, _) =>
      FinalQueryMeans(facts, i, tables, st, done, plain, q);
  }

  lemma {:induction false} BehindCommaMeans<K, D, V>(
    facts: set<string>, i: Interpretation<K, D, V>, tables: Tables<K, D>, st: Standing,
    done: map<string, V>, plain: map<string, V>, s: Source)
    requires Alike(st, done, plain) && SoundBehindComma(facts, st, s)
    ensures
      EvalSource(i, tables, done, FinalBehindComma(facts, s)) == EvalSource(i, Deduplicated(facts, tables), plain, s)
    decreases s
  {
    match s
    case Table(_, _, _, _) =>
      hide FinalRows, Deduplicated;
      FinalTableMeans(facts, tables, s);
    case Derived(q, _) =>
      FinalQueryMeans(facts, i, tables, st, done, plain, q);
  }

  lemma {:induction false} FinalJoinsMean<K, D, V>(
    facts: set<string>, i: Interpretation<K, D, V>, tables: Tables<K, D>, st: Standing,
    done: map<string, V>, plain: map<string, V>, left: V, j: Joins)
    requires Alike(st, done, plain) && SoundJoins(facts, st, j)
    ensures EvalJoins(i, tables, done, left, FinalJoins(facts, j)) ==
            EvalJoins(i, Deduplicated(facts, tables), plain, left, j)
    decreases j
  {
    hide Alike, Deduplicated;
    var dedup := Deduplicated(facts, tables);
    match j
    case NoJoins =>
    case Join(kinds, src, cond, more) =>
      FinalSourceMeans(facts, i, tables, st, done, plain, src);
      FinalElemsMean(facts, i, tables, st, done, plain, cond);
      var right, on := EvalSource(i, dedup, plain, src), EvalElems(i, dedup, plain, cond);
      FinalJoinsMean(facts, i, tables, st, done, plain, i.join(kinds, left, right, on), more);
    case CommaJoin(src, more) =>
      BehindCommaMeans(facts, i, tables, st, done, plain, src);
      var right := EvalSource(i, dedup, plain, src);
      FinalJoinsMean(facts, i, tables, st, done, plain, i.join([CROSS], left, right, []), more);
  }

  lemma {:induction false} FinalQueryMeans<K, D, V>(
    facts: set<string>, i: Interpretation<K, D, V>, tables: Tables<K, D>, st: Standing,
    done: map<string, V>, plain: map<string, V>, q: Query)
    requires Alike(st, done, plain) && SoundQuery(facts, st, q)
    ensures EvalQuery(i, tables, done, FinalQuery(facts, q)) == EvalQuery(i, Deduplicated(facts, tables), plain, q)
    decreases q
  {
    hide Deduplicated;
    var dedup := Deduplicated(facts, tables);
    match q
    case Select(items, src, joins, tail) =>
      FinalElemsMean(facts, i, tables, st, done, plain, items);
      FinalSourceMeans(facts, i, tables, st, done, plain, src);
      FinalJoinsMean(facts, i, tables, st, done, plain, EvalSource(i, dedup, plain, src), joins);
      FinalElemsMean(facts, i, tables, st, done, plain, tail);
    case With(name, definition, body) =>
      var ok := SoundQuery(facts, st, definition);
      if ok { FinalQueryMeans(facts, i, tables, st, done, plain, definition); }
      var done' := done[name := EvalQuery(i, tables, done, FinalQuery(facts, definition))];
      var plain' := plain[name := EvalQuery(i, dedup, plain, definition)];
      FinalQueryMeans(facts, i, tables, st[name := ok], done', plain', body);
  }

  /**
   Running the decorated text over tables that hold every row version gives what the original text
   gives over tables in which every fact table holds only its newest rows.
   */
  lemma DecorateKeepsMeaning<K, D, V>(
    facts: set<string>, i: Interpretation<K, D, V>, tables: Tables<K, D>, q: Query)
    requires WfQuery(facts, q) && Sound(facts, q)
    ensures Meaning(i, tables, Decorate(facts, Print(q))) == Meaning(i, Deduplicated(facts, tables), Print(q))
    ensures Meaning(i, tables, Decorate(facts, Print(q))).Value?
  {
    hide Parse, PrintQuery, EvalQuery, WfQuery, SoundQuery, FinalQuery, Deduplicated;
    BothTextsRead(facts, q);
    FinalQueryMeans(facts, i, tables, map[], map[], map[], q);
  }

  /** The decorated text reads as the query with FINAL, the original text as the query. */
  lemma BothTextsRead(facts: set<string>, q: Query)
    requires WfQuery(facts, q)
    ensures Parse(Decorate(facts, Print(q))) == Got(FinalQuery(facts, q), [])
    ensures Parse(Print(q)) == Got(q, [])
  {
    hide Parse, PrintQuery, WfQuery, FinalQuery;
    DecoratesQuery(facts, q, []);
    assert Decorate(facts, []) == [];
    FinalQueryWf(facts, q);
    ParsePrint(facts, q);
    ParsePrint(facts, FinalQuery(facts, q));
  }

  /** What happened to each table, inserts and merges, oldest first. */
  type Histories<K(==), D(==)> = map<(string, string), seq<Event<K, D>>>

  /** The tables these histories leave, every version of every row that merging has not dropped. */
  ghost predicate LeftBy<K, D>(histories: Histories<K, D>, tables: Tables<K, D>) {
    histories.Keys == tables.Keys &&
    forall at | at in tables :: Legal(histories[at]) && tables[at] == Rows(After(histories[at]))
  }

  /** The two histories insert the same blocks; merges of fact tables are free, other tables alike. */
  ghost predicate SameInserts<K, D>(facts: set<string>, a: Histories<K, D>, b: Histories<K, D>) {
    a.Keys == b.Keys &&
    forall at | at in a ::
      if at.0 == "brain" && at.1 in facts then InsertsOnly(a[at]) == InsertsOnly(b[at]) else a[at] == b[at]
  }

  /** A decorated query returns the same under every merge schedule. */
  lemma ReadsIgnoreMerges<K, D, V>(
    facts: set<string>, i: Interpretation<K, D, V>, q: Query,
    a: Histories<K, D>, b: Histories<K, D>, before: Tables<K, D>, after: Tables<K, D>)
    requires WfQuery(facts, q) && Sound(facts, q)
    requires SameInserts(facts, a, b) && LeftBy(a, before) && LeftBy(b, after)
    ensures Meaning(i, before, Decorate(facts, Print(q))) == Meaning(i, after, Decorate(facts, Print(q)))
  {
    hide Meaning, Decorate, Print, WfQuery, Sound, Rows, FinalRows, Legal, After, InsertsOnly;
    DecorateKeepsMeaning(facts, i, before, q);
    DecorateKeepsMeaning(facts, i, after, q);
    forall at | at in before ensures Deduplicated(facts, before)[at] == Deduplicated(facts, after)[at] {
      MergesNeverShow(a[at]);
      MergesNeverShow(b[at]);
    }
    assert Deduplicated(facts, before) == Deduplicated(facts, after);
  }
}
