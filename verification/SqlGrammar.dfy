/**
 The statements the rewriters are meant for: subqueries anywhere an expression or a table may stand,
 named subqueries in front of any query, joins of any kind, commas between tables, aliases, FINAL.
 A printer, and a parser shown to undo it.
 */
module SqlGrammar {
  import opened FinalRewriter

  datatype Alias = NoAlias | Bare(w: string) | As(w: string)

  datatype Database = Default | Named(db: string)

  datatype Source =
    | Table(database: Database, name: string, alias: Alias, final: bool)
    | Derived(q: Query, alias: Alias)

  /** Expression tokens, with subqueries and parenthesised groups made visible. */
  datatype Elems =
    | Nil
    | Atom(t: Token, rest: Elems)
    | Sub(q: Query, rest: Elems)
    | Group(inner: Elems, rest: Elems)

  datatype Joins =
    | NoJoins
    | Join(kinds: seq<Keyword>, src: Source, cond: Elems, more: Joins)
    | CommaJoin(src: Source, more: Joins)

  /** With(n, d, b) is WITH n AS (d) in front of b; a chain of them shares one WITH. */
  datatype Query =
    | Select(items: Elems, src: Source, joins: Joins, tail: Elems)
    | With(name: string, definition: Query, body: Query)

  /** Where an expression stands decides which tokens may occur at its top level. */
  datatype Zone = InItems | InCondition | InTail | InGroup

  predicate JoinKind(k: Keyword) {
    match k
    case LEFT | RIGHT | INNER | FULL | CROSS | ANY | ALL | SEMI | ANTI | ASOF | GLOBAL => true
    case _ => false
  }

  predicate Clause(k: Keyword) {
    match k
    case WHERE | PREWHERE | GROUP | ORDER | LIMIT | HAVING | SETTINGS | FORMAT | SAMPLE => true
    case _ => false
  }

  predicate AtomAllowed(zone: Zone, t: Token) {
    && !t.LParen? && !t.RParen?
    && (t.Kw? ==> !t.k.SELECT? && !t.k.FROM? && !t.k.JOIN? && (t.k.WITH? ==> zone.InTail?))
    && (zone.InCondition? ==> !t.Comma? && (t.Kw? ==> !JoinKind(t.k) && !Clause(t.k)))
  }

  predicate StartsCondition(t: Token) { t == Kw(ON) || t == Kw(USING) }

  predicate StartsQuery(t: Token) { t == Kw(SELECT) || t == Kw(WITH) }

  predicate StartsTail(t: Token) { t.Kw? && Clause(t.k) }

  predicate WfElems(facts: set<string>, zone: Zone, e: Elems)
    decreases e
  {
    match e
    case Nil => true
    case Atom(t, rest) => AtomAllowed(zone, t) && WfElems(facts, zone, rest)
    case Sub(q, rest) => WfQuery(facts, q) && WfElems(facts, zone, rest)
    case Group(inner, rest) => WfElems(facts, InGroup, inner) && WfElems(facts, zone, rest)
  }

  /** No database carries the name of a fact table. */
  predicate WfSource(facts: set<string>, s: Source)
    decreases s
  {
    match s
    case Table(database, _, _, _) => database.Named? ==> database.db !in facts
    case Derived(q, _) => WfQuery(facts, q)
  }

  predicate WfJoins(facts: set<string>, j: Joins)
    decreases j
  {
    match j
    case NoJoins => true
    case Join(kinds, src, cond, more) =>
      && (forall i | 0 <= i < |kinds| :: JoinKind(kinds[i])) && WfSource(facts, src)
      && WfElems(facts, InCondition, cond) && (cond.Nil? || (cond.Atom? && StartsCondition(cond.t)))
      && WfJoins(facts, more)
    case CommaJoin(src, more) => WfSource(facts, src) && WfJoins(facts, more)
  }

  predicate WfQuery(facts: set<string>, q: Query)
    decreases q, 1
  {
    match q
    case Select(_, _, _, _) => WfSelect(facts, q)
    case With(_, definition, body) => WfQuery(facts, definition) && WfQuery(facts, body)
  }

  predicate WfSelect(facts: set<string>, q: Query)
    requires q.Select?
    decreases q, 0
  {
    && WfElems(facts, InItems, q.items) && WfSource(facts, q.src) && WfJoins(facts, q.joins)
    && WfElems(facts, InTail, q.tail) && (q.tail.Nil? || (q.tail.Atom? && StartsTail(q.tail.t)))
  }

  // ----- printing; k is what follows ------------------------------------------------------------

  function AliasTokens(a: Alias): seq<Token> {
    match a
    case NoAlias => []
    case Bare(w) => [Word(w)]
    case As(w) => [Kw(AS), Word(w)]
  }

  function TableTokens(s: Source): seq<Token>
    requires s.Table?
  {
    if s.database.Named? then [Word(s.database.db), Dot, Word(s.name)] else [Word(s.name)]
  }

  function PrintElems(e: Elems, k: seq<Token>): seq<Token> {
    match e
    case Nil => k
    case Atom(t, rest) => [t] + PrintElems(rest, k)
    case Sub(q, rest) => [LParen] + PrintQuery(q, [RParen] + PrintElems(rest, k))
    case Group(inner, rest) => [LParen] + PrintElems(inner, [RParen] + PrintElems(rest, k))
  }

  function PrintSource(s: Source, k: seq<Token>): seq<Token> {
    match s
    case Table(_, _, alias, final) => TableTokens(s) + (AliasTokens(alias) + ((if final then [Kw(FINAL)] else []) + k))
    case Derived(q, alias) => [LParen] + PrintQuery(q, [RParen] + (AliasTokens(alias) + k))
  }

  function PrintKinds(kinds: seq<Keyword>, k: seq<Token>): seq<Token> {
    if kinds == [] then k else [Kw(kinds[0])] + PrintKinds(kinds[1..], k)
  }

  function PrintJoins(j: Joins, k: seq<Token>): seq<Token> {
    match j
    case NoJoins => k
    case Join(kinds, src, cond, more) =>
      PrintKinds(kinds, [Kw(JOIN)] + PrintSource(src, PrintElems(cond, PrintJoins(more, k))))
    case CommaJoin(src, more) => [Comma] + PrintSource(src, PrintJoins(more, k))
  }

  function PrintSelect(q: Query, k: seq<Token>): seq<Token>
    requires q.Select?
    decreases q, 0
  {
    [Kw(SELECT)] + PrintElems(q.items, [Kw(FROM)] + PrintSource(q.src, PrintJoins(q.joins, PrintElems(q.tail, k))))
  }

  /** What stands behind WITH or the comma in front of a named subquery. */
  function PrintNamed(q: Query, k: seq<Token>): seq<Token>
    requires q.With?
    decreases q, 0
  {
    [Word(q.name), Kw(AS), LParen] + PrintQuery(q.definition, [RParen] + PrintBody(q, k))
  }

  function PrintBody(q: Query, k: seq<Token>): seq<Token>
    requires q.With?
    decreases q.body, 2
  {
    if q.body.With? then [Comma] + PrintNamed(q.body, k) else PrintSelect(q.body, k)
  }

  function PrintQuery(q: Query, k: seq<Token>): seq<Token>
    decreases q, 1
  {
    if q.With? then [Kw(WITH)] + PrintNamed(q, k) else PrintSelect(q, k)
  }

  function Print(q: Query): seq<Token> { PrintQuery(q, []) }

  // ----- parsing --------------------------------------------------------------------------------

  datatype Parsed<+T> = Fail | Got(value: T, rest: seq<Token>)

  function ParseAlias(ts: seq<Token>): (r: (Alias, seq<Token>))
    ensures |r.1| <= |ts|
  {
    if |ts| >= 2 && ts[0] == Kw(AS) && ts[1].Word? then (As(ts[1].name), ts[2..])
    else if |ts| >= 1 && ts[0].Word? then (Bare(ts[0].name), ts[1..])
    else (NoAlias, ts)
  }

  function ParseElems(zone: Zone, ts: seq<Token>): (r: Parsed<Elems>)
    ensures r.Got? ==> |r.rest| <= |ts|
    decreases |ts|, 1
  {
    if ts == [] then Got(Nil, ts)
    else if ts[0] == LParen then
      if |ts| > 1 && StartsQuery(ts[1]) then
        match ParseQuery(ts[1..])
        case Fail => Fail
        case Got(q, after) =>
          if after == [] || after[0] != RParen then Fail
          else
            (match ParseElems(zone, after[1..])
             case Fail => Fail
             case Got(rest, end) => Got(Sub(q, rest), end))
      else
        match ParseElems(InGroup, ts[1..])
        case Fail => Fail
        case Got(inner, after) =>
          if after == [] || after[0] != RParen then Fail
          else
            (match ParseElems(zone, after[1..])
             case Fail => Fail
             case Got(rest, end) => Got(Group(inner, rest), end))
    else if AtomAllowed(zone, ts[0]) then
      match ParseElems(zone, ts[1..])
      case Fail => Fail
      case Got(rest, end) => Got(Atom(ts[0], rest), end)
    else Got(Nil, ts)
  }

  function ParseTable(ts: seq<Token>): (r: Parsed<Source>)
    ensures r.Got? ==> |r.rest| < |ts|
  {
    if ts == [] || !ts[0].Word? then Fail
    else
      var named := |ts| >= 3 && ts[1] == Dot && ts[2].Word?;
      var database := if named then Named(ts[0].name) else Default;
      var name := if named then ts[2].name else ts[0].name;
      var (alias, after) := ParseAlias(if named then ts[3..] else ts[1..]);
      if StartsWithFinal(after) then Got(Table(database, name, alias, true), after[1..])
      else Got(Table(database, name, alias, false), after)
  }

  function ParseSource(ts: seq<Token>): (r: Parsed<Source>)
    ensures r.Got? ==> |r.rest| < |ts|
    decreases |ts|, 0
  {
    if ts != [] && ts[0] == LParen then
      match ParseQuery(ts[1..])
      case Fail => Fail
      case Got(q, after) =>
        if after == [] || after[0] != RParen then Fail
        else
          var (alias, end) := ParseAlias(after[1..]);
          Got(Derived(q, alias), end)
    else ParseTable(ts)
  }

  function ParseKinds(ts: seq<Token>): (r: (seq<Keyword>, seq<Token>))
    ensures |r.1| <= |ts|
  {
    if ts != [] && ts[0].Kw? && JoinKind(ts[0].k) then
      var (kinds, rest) := ParseKinds(ts[1..]);
      ([ts[0].k] + kinds, rest)
    else ([], ts)
  }

  function ParseCondition(ts: seq<Token>): (r: Parsed<Elems>)
    ensures r.Got? ==> |r.rest| <= |ts|
    decreases |ts|, 2
  {
    if ts != [] && StartsCondition(ts[0]) then ParseElems(InCondition, ts) else Got(Nil, ts)
  }

  function ParseTail(ts: seq<Token>): (r: Parsed<Elems>)
    ensures r.Got? ==> |r.rest| <= |ts|
    decreases |ts|, 2
  {
    if ts != [] && StartsTail(ts[0]) then ParseElems(InTail, ts) else Got(Nil, ts)
  }

  function ParseJoins(ts: seq<Token>): (r: Parsed<Joins>)
    ensures r.Got? ==> |r.rest| <= |ts|
    decreases |ts|, 2
  {
    var (kinds, after) := ParseKinds(ts);
    if ts != [] && ts[0] == Comma then
      match ParseSource(ts[1..])
      case Fail => Fail
      case Got(src, afterSrc) =>
        (match ParseJoins(afterSrc)
         case Fail => Fail
         case Got(more, end) => Got(CommaJoin(src, more), end))
    else if after == [] || after[0] != Kw(JOIN) then Got(NoJoins, ts)
    else
      match ParseSource(after[1..])
      case Fail => Fail
      case Got(src, afterSrc) =>
        match ParseCondition(afterSrc)
        case Fail => Fail
        case Got(cond, afterCond) =>
          match ParseJoins(afterCond)
          case Fail => Fail
          case Got(more, end) => Got(Join(kinds, src, cond, more), end)
  }

  function ParseQuery(ts: seq<Token>): (r: Parsed<Query>)
    ensures r.Got? ==> |r.rest| < |ts|
    decreases |ts|, 1
  {
    if ts != [] && ts[0] == Kw(WITH) then ParseNamed(ts[1..]) else ParseSelect(ts)
  }

  function ParseNamed(ts: seq<Token>): (r: Parsed<Query>)
    ensures r.Got? ==> |r.rest| < |ts| && r.value.With?
    decreases |ts|, 0
  {
    if |ts| < 3 || !ts[0].Word? || ts[1] != Kw(AS) || ts[2] != LParen then Fail
    else
      match ParseQuery(ts[3..])
      case Fail => Fail
      case Got(definition, after) =>
        if after == [] || after[0] != RParen then Fail
        else
          (match ParseBody(after[1..])
           case Fail => Fail
           case Got(body, end) => Got(With(ts[0].name, definition, body), end))
  }

  function ParseBody(ts: seq<Token>): (r: Parsed<Query>)
    ensures r.Got? ==> |r.rest| < |ts|
    decreases |ts|, 2
  {
    if ts != [] && ts[0] == Comma then ParseNamed(ts[1..]) else ParseSelect(ts)
  }

  function ParseSelect(ts: seq<Token>): (r: Parsed<Query>)
    ensures r.Got? ==> |r.rest| < |ts| && r.value.Select?
    decreases |ts|, 0
  {
    if ts == [] || ts[0] != Kw(SELECT) then Fail
    else
      match ParseElems(InItems, ts[1..])
      case Fail => Fail
      case Got(items, atFrom) =>
        if atFrom == [] || atFrom[0] != Kw(FROM) then Fail
        else
          match ParseSource(atFrom[1..])
          case Fail => Fail
          case Got(src, afterSrc) =>
            match ParseJoins(afterSrc)
            case Fail => Fail
            case Got(joins, afterJoins) =>
              match ParseTail(afterJoins)
              case Fail => Fail
              case Got(tail, end) => Got(Select(items, src, joins, tail), end)
  }

  /** A whole statement: nothing may be left over. */
  function Parse(ts: seq<Token>): Parsed<Query> {
    match ParseQuery(ts)
    case Fail => Fail
    case Got(q, rest) => if rest == [] then Got(q, rest) else Fail
  }

  // ----- the parser undoes the printer ----------------------------------------------------------

  /** A query ends at the end of the text or at the parenthesis that closes it. */
  predicate EndsQuery(k: seq<Token>) { k == [] || k[0] == RParen }

  /** What may follow a table reference. */
  predicate EndsSource(k: seq<Token>) {
    EndsQuery(k) || k[0] == Comma || (k[0].Kw? && PostTableKeyword(k[0].k) && k[0].k != FINAL)
  }

  predicate EndsJoins(k: seq<Token>) { EndsQuery(k) || StartsTail(k[0]) }

  predicate EndsElems(zone: Zone, k: seq<Token>) {
    k == [] || (k[0] != LParen && !AtomAllowed(zone, k[0]))
  }

  lemma TailEnds(facts: set<string>, q: Query, k: seq<Token>)
    requires q.Select? && WfSelect(facts, q) && EndsQuery(k)
    ensures EndsJoins(PrintElems(q.tail, k))
  {
  }

  lemma KindsEnd(kinds: seq<Keyword>, k: seq<Token>)
    requires forall i | 0 <= i < |kinds| :: JoinKind(kinds[i])
    ensures var out := PrintKinds(kinds, [Kw(JOIN)] + k);
            out != [] && out[0].Kw? && (JoinKind(out[0].k) || out[0].k == JOIN)
  {
  }

  lemma JoinsEnd(facts: set<string>, j: Joins, k: seq<Token>)
    requires WfJoins(facts, j) && EndsJoins(k)
    ensures EndsSource(PrintJoins(j, k)) && EndsElems(InCondition, PrintJoins(j, k))
    ensures PrintJoins(j, k) == [] || !StartsCondition(PrintJoins(j, k)[0])
  {
    if j.Join? { KindsEnd(j.kinds, PrintSource(j.src, PrintElems(j.cond, PrintJoins(j.more, k)))); }
  }

  lemma ConditionEnds(facts: set<string>, j: Joins, k: seq<Token>)
    requires WfJoins(facts, j) && j.Join? && EndsJoins(k)
    ensures EndsSource(PrintElems(j.cond, PrintJoins(j.more, k)))
  {
    JoinsEnd(facts, j.more, k);
  }

  lemma ParsesAlias(a: Alias, k: seq<Token>)
    requires k == [] || !(k[0].Word? || k[0] == Kw(AS))
    ensures ParseAlias(AliasTokens(a) + k) == (a, k)
  {
    match a
    case NoAlias => assert AliasTokens(a) + k == k;
    case Bare(w) => assert (AliasTokens(a) + k)[1..] == k;
    case As(w) => assert (AliasTokens(a) + k)[2..] == k;
  }

  lemma AliasNeverDots(a: Alias)
    ensures AliasTokens(a) == [] || AliasTokens(a)[0] != Dot
  {
  }

  lemma EndsSourceWords(k: seq<Token>)
    requires EndsSource(k)
    ensures k == [] || (!k[0].Word? && k[0] !in {Dot, LParen, Kw(AS), Kw(FINAL)})
  {
  }

  lemma ParsesTable(s: Source, k: seq<Token>)
    requires s.Table? && EndsSource(k)
    ensures ParseTable(PrintSource(s, k)) == Got(s, k)
  {
    hide ParseAlias, AliasTokens, PostTableKeyword;
    AliasNeverDots(s.alias);
    EndsSourceWords(k);
    var mark := (if s.final then [Kw(FINAL)] else []) + k;
    var rest := AliasTokens(s.alias) + mark;
    ParsesAlias(s.alias, mark);
    assert rest == [] || rest[0] != Dot;
    assert PrintSource(s, k)[|TableTokens(s)|..] == rest;
    if s.final { assert mark[1..] == k; } else { assert mark == k; }
  }

  lemma {:induction false} ParsesElems(facts: set<string>, zone: Zone, e: Elems, k: seq<Token>)
    requires WfElems(facts, zone, e) && EndsElems(zone, k)
    ensures ParseElems(zone, PrintElems(e, k)) == Got(e, k)
    decreases e, 0
  {
    match e
    case Nil =>
    case Atom(t, rest) =>
      ParsesElems(facts, zone, rest, k);
      assert PrintElems(e, k)[1..] == PrintElems(rest, k);
    case Sub(q, rest) =>
      ParsesElems(facts, zone, rest, k);
      var after := [RParen] + PrintElems(rest, k);
      ParsesQuery(facts, q, after);
      assert PrintElems(e, k)[1..] == PrintQuery(q, after);
      assert after[1..] == PrintElems(rest, k);
    case Group(inner, rest) =>
      ParsesElems(facts, zone, rest, k);
      var after := [RParen] + PrintElems(rest, k);
      ParsesElems(facts, InGroup, inner, after);
      assert PrintElems(e, k)[1..] == PrintElems(inner, after);
      assert after[1..] == PrintElems(rest, k);
      GroupIsNoQuery(facts, inner, after);
  }

  lemma GroupIsNoQuery(facts: set<string>, inner: Elems, k: seq<Token>)
    requires WfElems(facts, InGroup, inner) && k != [] && k[0] == RParen
    ensures !StartsQuery(PrintElems(inner, k)[0])
  {
  }

  lemma {:induction false} ParsesSource(facts: set<string>, s: Source, k: seq<Token>)
    requires WfSource(facts, s) && EndsSource(k)
    ensures ParseSource(PrintSource(s, k)) == Got(s, k)
    decreases s
  {
    match s
    case Table(_, _, _, _) =>
      ParsesTable(s, k);
    case Derived(q, alias) =>
      var after := [RParen] + (AliasTokens(alias) + k);
      ParsesQuery(facts, q, after);
      assert PrintSource(s, k)[1..] == PrintQuery(q, after);
      assert after[1..] == AliasTokens(alias) + k;
      ParsesAlias(alias, k);
  }

  lemma {:induction false} ParsesKinds(kinds: seq<Keyword>, k: seq<Token>)
    requires forall i | 0 <= i < |kinds| :: JoinKind(kinds[i])
    ensures ParseKinds(PrintKinds(kinds, [Kw(JOIN)] + k)) == (kinds, [Kw(JOIN)] + k)
    decreases |kinds|
  {
    if kinds != [] {
      ParsesKinds(kinds[1..], k);
      assert [kinds[0]] + kinds[1..] == kinds;
      assert PrintKinds(kinds, [Kw(JOIN)] + k)[1..] == PrintKinds(kinds[1..], [Kw(JOIN)] + k);
    }
  }

  lemma ParsesNoJoins(k: seq<Token>)
    requires EndsJoins(k)
    ensures ParseJoins(k) == Got(NoJoins, k)
  {
  }

  lemma ParsesCondition(facts: set<string>, cond: Elems, k: seq<Token>)
    requires WfElems(facts, InCondition, cond) && (cond.Nil? || (cond.Atom? && StartsCondition(cond.t)))
    requires EndsElems(InCondition, k) && (k == [] || !StartsCondition(k[0]))
    ensures ParseCondition(PrintElems(cond, k)) == Got(cond, k)
    decreases cond, 1
  {
    ParsesElems(facts, InCondition, cond, k);
  }

  lemma ParsesTail(facts: set<string>, tail: Elems, k: seq<Token>)
    requires WfElems(facts, InTail, tail) && (tail.Nil? || (tail.Atom? && StartsTail(tail.t))) && EndsQuery(k)
    ensures ParseTail(PrintElems(tail, k)) == Got(tail, k)
    decreases tail, 1
  {
    ParsesElems(facts, InTail, tail, k);
  }

  lemma {:induction false} ParsesJoins(facts: set<string>, j: Joins, k: seq<Token>)
    requires WfJoins(facts, j) && EndsJoins(k)
    ensures ParseJoins(PrintJoins(j, k)) == Got(j, k)
    decreases j
  {
    hide PrintSource, ParseSource, PrintElems, ParseElems, ParseCondition, PrintKinds, ParseKinds,
         AtomAllowed, JoinKind, Clause, WfSource, WfElems, EndsSource, EndsJoins, EndsElems;
    match j
    case NoJoins =>
      ParsesNoJoins(k);
    case Join(kinds, src, cond, more) =>
      var afterCond := PrintJoins(more, k);
      var afterSrc := PrintElems(cond, afterCond);
      var afterJoin := PrintSource(src, afterSrc);
      ParsesKinds(kinds, afterJoin);
      KindsEnd(kinds, afterJoin);
      assert ([Kw(JOIN)] + afterJoin)[1..] == afterJoin;
      ConditionEnds(facts, j, k);
      ParsesSource(facts, src, afterSrc);
      JoinsEnd(facts, more, k);
      ParsesCondition(facts, cond, afterCond);
      ParsesJoins(facts, more, k);
    case CommaJoin(src, more) =>
      var afterSrc := PrintJoins(more, k);
      JoinsEnd(facts, more, k);
      ParsesSource(facts, src, afterSrc);
      ParsesJoins(facts, more, k);
      var text := PrintJoins(j, k);
      assert text[0] == Comma && text[1..] == PrintSource(src, afterSrc);
  }

  lemma {:induction false} ParsesQuery(facts: set<string>, q: Query, k: seq<Token>)
    requires WfQuery(facts, q) && EndsQuery(k)
    ensures ParseQuery(PrintQuery(q, k)) == Got(q, k)
    ensures PrintQuery(q, k) != [] && StartsQuery(PrintQuery(q, k)[0])
    decreases q, 1
  {
    hide ParseSelect, ParseNamed, PrintNamed, WfSelect;
    match q
    case Select(_, _, _, _) =>
      ParsesSelect(facts, q, k);
    case With(_, _, _) =>
      ParsesNamed(facts, q, k);
      assert PrintQuery(q, k)[1..] == PrintNamed(q, k);
  }

  lemma {:induction false} ParsesNamed(facts: set<string>, q: Query, k: seq<Token>)
    requires q.With? && WfQuery(facts, q) && EndsQuery(k)
    ensures ParseNamed(PrintNamed(q, k)) == Got(q, k)
    decreases q, 0
  {
    hide ParseQuery, PrintQuery, ParseBody, PrintBody, WfSelect;
    var after := [RParen] + PrintBody(q, k);
    ParsesQuery(facts, q.definition, after);
    ParsesBody(facts, q, k);
    assert after[1..] == PrintBody(q, k);
    assert PrintNamed(q, k)[3..] == PrintQuery(q.definition, after);
  }

  lemma {:induction false} ParsesBody(facts: set<string>, q: Query, k: seq<Token>)
    requires q.With? && WfQuery(facts, q) && EndsQuery(k)
    ensures ParseBody(PrintBody(q, k)) == Got(q.body, k)
    decreases q.body, 2
  {
    hide ParseSelect, ParseNamed, PrintNamed, PrintSelect, WfSelect;
    if q.body.With? {
      ParsesNamed(facts, q.body, k);
      assert PrintBody(q, k)[1..] == PrintNamed(q.body, k);
    } else {
      ParsesSelect(facts, q.body, k);
    }
  }

  lemma {:induction false} ParsesSelect(facts: set<string>, q: Query, k: seq<Token>)
    requires q.Select? && WfSelect(facts, q) && EndsQuery(k)
    ensures ParseSelect(PrintSelect(q, k)) == Got(q, k)
    ensures PrintSelect(q, k) != [] && PrintSelect(q, k)[0] == Kw(SELECT)
    decreases q, 0
  {
    hide PrintSource, ParseSource, ParseElems, ParseTail, ParseJoins, PrintJoins, WfSource, WfElems, WfJoins,
         EndsSource, EndsJoins;
    var afterJoins := PrintElems(q.tail, k);
    var afterSrc := PrintJoins(q.joins, afterJoins);
    var afterFrom := PrintSource(q.src, afterSrc);
    var atFrom := [Kw(FROM)] + afterFrom;
    assert PrintSelect(q, k)[1..] == PrintElems(q.items, atFrom);
    ParsesElems(facts, InItems, q.items, atFrom);
    assert atFrom[1..] == afterFrom;
    TailEnds(facts, q, k);
    JoinsEnd(facts, q.joins, afterJoins);
    ParsesSource(facts, q.src, afterSrc);
    ParsesJoins(facts, q.joins, afterJoins);
    ParsesTail(facts, q.tail, k);
  }

  /** Every query is recovered from its text, so the text has one reading. */
  lemma ParsePrint(facts: set<string>, q: Query)
    requires WfQuery(facts, q)
    ensures Parse(Print(q)) == Got(q, [])
  {
    ParsesQuery(facts, q, []);
  }
}
