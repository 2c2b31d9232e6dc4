/**
 _inject_prewhere, and what query_raw as a whole makes of the text of a flat query: which text it sends,
 and exactly when that text is one.
 */
module WorkspaceScope {
  import opened Options
  import opened FinalRewriter
  import opened SqlGrammar
  import opened GatewayRewriter

  const GATEWAY_PARAM: string := "gateway_workspace_id"

  const SCOPE_TEST: seq<Token> := [Word("workspace_id"), Other("="), Param(GATEWAY_PARAM)]

  type Params = map<string, string>

  /** The offset of the first k, or the length when there is none. */
  function Find(ts: seq<Token>, k: Keyword): (n: nat)
    ensures n <= |ts| && Kw(k) !in ts[..n] && (n < |ts| ==> ts[n] == Kw(k))
  {
    if ts == [] || ts[0] == Kw(k) then 0
    else
      assert ts[..1 + Find(ts[1..], k)] == [ts[0]] + ts[1..][..Find(ts[1..], k)];
      1 + Find(ts[1..], k)
  }

  /** The offset of the first ORDER BY, or the length when there is none. */
  function FindOrderBy(ts: seq<Token>): (n: nat)
    ensures n <= |ts| && (n < |ts| ==> ts[n] == Kw(ORDER))
  {
    if ts == [] || (|ts| >= 2 && ts[0] == Kw(ORDER) && ts[1] == Kw(BY)) then 0 else 1 + FindOrderBy(ts[1..])
  }

  /** PREWHERE workspace_id occurs somewhere. */
  predicate AlreadyScoped(ts: seq<Token>) {
    exists i :: 0 <= i < |ts| - 1 && ts[i] == Kw(PREWHERE) && ts[i + 1] == Word("workspace_id")
  }

  function InsertAt(ts: seq<Token>, n: nat): seq<Token>
    requires n <= |ts|
  {
    ts[..n] + ([Kw(PREWHERE)] + SCOPE_TEST + ts[n..])
  }

  /** Before the first WHERE, else before the first of four clauses, else at the end. */
  function ScopePoint(ts: seq<Token>): (n: nat)
    ensures n <= |ts| && (n < |ts| ==> ts[n].Kw? && ts[n].k in {WHERE, ORDER, LIMIT, SETTINGS, FORMAT})
  {
    if Find(ts, WHERE) < |ts| then Find(ts, WHERE)
    else if FindOrderBy(ts) < |ts| then FindOrderBy(ts)
    else if Find(ts, LIMIT) < |ts| then Find(ts, LIMIT)
    else if Find(ts, SETTINGS) < |ts| then Find(ts, SETTINGS)
    else Find(ts, FORMAT)
  }

  function InjectPrewhere(ts: seq<Token>, workspace: string, params: Params): (seq<Token>, Params) {
    if AlreadyScoped(ts) then (ts, params)
    else (InsertAt(ts, ScopePoint(ts)), params[GATEWAY_PARAM := workspace])
  }

  /** The text and parameters query_raw sends. */
  function QueryRaw(rmt: set<string>, ts: seq<Token>, workspace: string, params: Params): (seq<Token>, Params) {
    InjectPrewhere(InjectFinal(rmt, ts), workspace, params)
  }

  // ----- flat queries ---------------------------------------------------------------------------

  /** SELECT items FROM brain.table [[AS] alias] [FINAL] [PREWHERE ..] [WHERE ..] tail */
  datatype Flat = Flat(
    items: seq<Token>, table: string, alias: Alias, final: bool,
    prewhere: Option<seq<Token>>, filter: Option<seq<Token>>, tail: seq<Token>)

  predicate ClauseWord(t: Token) {
    t.Kw? && t.k in {WHERE, PREWHERE, GROUP, ORDER, LIMIT, HAVING, SETTINGS, FORMAT}
  }

  predicate NoClause(ts: seq<Token>) { forall t | t in ts :: !ClauseWord(t) && t != Kw(FROM) }

  predicate Lacks(ts: seq<Token>, k: Keyword) { Kw(k) !in ts }

  /** Empty, or beginning with a clause that is neither WHERE nor PREWHERE. */
  predicate BeginsTail(tail: seq<Token>) {
    tail == [] || (ClauseWord(tail[0]) && tail[0] != Kw(WHERE) && tail[0] != Kw(PREWHERE))
  }

  predicate TailShape(tail: seq<Token>) {
    && BeginsTail(tail)
    && Lacks(tail, WHERE) && Lacks(tail, PREWHERE) && Lacks(tail, FROM)
  }

  /** A tail the gateway can scope without a WHERE: its first clause is the first one searched for. */
  predicate SearchableTail(tail: seq<Token>) {
    || tail == []
    || (|tail| >= 2 && tail[0] == Kw(ORDER) && tail[1] == Kw(BY))
    || (FindOrderBy(tail) == |tail| &&
        (tail[0] == Kw(LIMIT) ||
         (Lacks(tail, LIMIT) && (tail[0] == Kw(SETTINGS) || (Lacks(tail, SETTINGS) && tail[0] == Kw(FORMAT))))))
  }

  predicate WfFlat(f: Flat) {
    && NoClause(f.items) && TailShape(f.tail)
    && (f.prewhere.Some? ==> NoClause(f.prewhere.value)) && (f.filter.Some? ==> NoClause(f.filter.value))
  }

  function ClauseText(k: Keyword, c: Option<seq<Token>>): seq<Token> {
    if c.Some? then [Kw(k)] + c.value else []
  }

  function TableText(f: Flat): seq<Token> { [Kw(FROM), Word("brain"), Dot, Word(f.table)] }

  function HeadText(f: Flat): seq<Token> {
    ([Kw(SELECT)] + f.items) + (TableText(f) + (AliasTokens(f.alias) + Mark(f.final)))
  }

  function FilterAndTail(f: Flat): seq<Token> { ClauseText(WHERE, f.filter) + f.tail }

  function Clauses(f: Flat): seq<Token> { ClauseText(PREWHERE, f.prewhere) + FilterAndTail(f) }

  function FlatText(f: Flat): seq<Token> { HeadText(f) + Clauses(f) }

  // ----- reading a flat query back --------------------------------------------------------------

  /** The offset of the first clause word, or the length. */
  function FindClause(ts: seq<Token>): (n: nat)
    ensures n <= |ts|
  {
    if ts == [] || ClauseWord(ts[0]) then 0 else 1 + FindClause(ts[1..])
  }

  function ReadClause(k: Keyword, ts: seq<Token>): (Option<seq<Token>>, seq<Token>) {
    if ts == [] || ts[0] != Kw(k) then (None, ts)
    else
      var n := FindClause(ts[1..]);
      (Some(ts[1..][..n]), ts[1..][n..])
  }

  function ReadFlat(ts: seq<Token>): Option<Flat> {
    var from := Find(ts, FROM);
    if ts == [] || ts[0] != Kw(SELECT) || from == 0 || |ts| < from + 4 then None
    else if ts[from + 1] != Word("brain") || ts[from + 2] != Dot || !ts[from + 3].Word? then None
    else
      ReadBehindTable(ts[1..from], ts[from + 3].name, ts[from + 4..])
  }

  /** Alias, then FINAL, then the clauses; in ClickHouse FINAL never stands in front of the alias. */
  function ReadBehindTable(items: seq<Token>, table: string, ts: seq<Token>): Option<Flat> {
    var (alias, rest) := ParseAlias(ts);
    var final := StartsWithFinal(rest);
    var (prewhere, afterPrewhere) := ReadClause(PREWHERE, if final then rest[1..] else rest);
    var (filter, tail) := ReadClause(WHERE, afterPrewhere);
    if TailShape(tail) then Some(Flat(items, table, alias, final, prewhere, filter, tail)) else None
  }

  // ----- lemmas ---------------------------------------------------------------------------------

  lemma {:induction false} FindSkips(a: seq<Token>, b: seq<Token>, k: Keyword)
    requires Lacks(a, k)
    ensures Find(a + b, k) == |a| + Find(b, k)
    decreases |a|
  {
    if a == [] {
      assert a + b == b;
    } else {
      assert (a + b)[1..] == a[1..] + b && a[0] in a;
      FindSkips(a[1..], b, k);
    }
  }

  lemma {:induction false} FindClauseSkips(a: seq<Token>, b: seq<Token>)
    requires NoClause(a) && (b == [] || ClauseWord(b[0]))
    ensures FindClause(a + b) == |a|
    decreases |a|
  {
    if a == [] {
      assert a + b == b;
    } else {
      assert (a + b)[1..] == a[1..] + b && a[0] in a;
      FindClauseSkips(a[1..], b);
    }
  }

  lemma ReadsClause(k: Keyword, c: Option<seq<Token>>, rest: seq<Token>)
    requires c.Some? ==> NoClause(c.value)
    requires rest == [] || (ClauseWord(rest[0]) && rest[0] != Kw(k))
    ensures ReadClause(k, ClauseText(k, c) + rest) == (c, rest)
  {
    if c.Some? {
      var text := ClauseText(k, c) + rest;
      assert text[1..] == c.value + rest;
      FindClauseSkips(c.value, rest);
    } else {
      assert ClauseText(k, c) + rest == rest;
    }
  }

  /** What stands behind the table. */
  function BehindTable(f: Flat): seq<Token> { AliasTokens(f.alias) + (Mark(f.final) + Clauses(f)) }

  /** A text SELECT items FROM brain.table rest is taken apart at the table, whatever the rest. */
  lemma ReadsTable(items: seq<Token>, table: string, rest: seq<Token>)
    requires Lacks(items, FROM)
    ensures
      var text := ([Kw(SELECT)] + items) + ([Kw(FROM), Word("brain"), Dot, Word(table)] + rest);
      ReadFlat(text) == ReadBehindTable(items, table, rest)
  {
    hide ReadBehindTable;
    var front, ref := [Kw(SELECT)] + items, [Kw(FROM), Word("brain"), Dot, Word(table)];
    var text, n := front + (ref + rest), |items| + 1;
    assert Lacks(front, FROM);
    FindSkips(front, ref + rest, FROM);
    FindHere(ref + rest, FROM);
    hide Find;
    assert text[0] == Kw(SELECT) && text[1..n] == items && text[n..] == ref + rest && text[n + 4..] == rest;
    assert text[n + 1] == ref[1] && text[n + 2] == ref[2] && text[n + 3] == ref[3];
  }

  lemma FlatParts(f: Flat)
    ensures FlatText(f) == ([Kw(SELECT)] + f.items) + (TableText(f) + BehindTable(f))
  {
  }

  /** Every flat query is recovered from its text. */
  lemma ReadsFlat(f: Flat)
    requires WfFlat(f)
    ensures ReadFlat(FlatText(f)) == Some(f)
  {
    hide ReadFlat, FlatText, BehindTable, ReadBehindTable;
    ClausesAreOrdered(f);
    FlatParts(f);
    ReadsTable(f.items, f.table, BehindTable(f));
    ReadsBehindTable(f);
  }

  lemma ReadsBehindTable(f: Flat)
    requires WfFlat(f)
    ensures ReadBehindTable(f.items, f.table, BehindTable(f)) == Some(f)
  {
    hide ReadClause, NoClause, Clauses, FilterAndTail, ParseAlias, AliasTokens;
    var mark := Mark(f.final) + Clauses(f);
    ClausesAreOrdered(f);
    MarkIsNoAlias(f);
    ParsesAlias(f.alias, mark);
    assert StartsWithFinal(mark) == f.final && (if f.final then mark[1..] else mark) == Clauses(f);
    ReadsBothClauses(f);
  }

  lemma MarkIsNoAlias(f: Flat)
    requires Clauses(f) == [] || ClauseWord(Clauses(f)[0])
    ensures var mark := Mark(f.final) + Clauses(f); mark == [] || (!mark[0].Word? && mark[0] != Kw(AS))
    ensures StartsWithFinal(Mark(f.final) + Clauses(f)) == f.final
  {
  }

  lemma ReadsBothClauses(f: Flat)
    requires WfFlat(f)
    ensures ReadClause(PREWHERE, Clauses(f)) == (f.prewhere, FilterAndTail(f))
    ensures ReadClause(WHERE, FilterAndTail(f)) == (f.filter, f.tail)
  {
    hide ReadClause, ClauseText, NoClause, TailShape;
    ClausesAreOrdered(f);
    ReadsClause(WHERE, f.filter, f.tail);
    ReadsClause(PREWHERE, f.prewhere, FilterAndTail(f));
  }

  lemma FindHere(ts: seq<Token>, k: Keyword)
    requires ts != [] && ts[0] == Kw(k)
    ensures Find(ts, k) == 0
  {
  }

  /** What the shape of a flat query says about the words its parts start with. */
  lemma ClausesAreOrdered(f: Flat)
    requires WfFlat(f)
    ensures Lacks([Kw(SELECT)] + f.items, FROM) && Lacks(f.items, FROM)
    ensures f.tail == [] || (ClauseWord(f.tail[0]) && f.tail[0] != Kw(WHERE) && f.tail[0] != Kw(PREWHERE))
    ensures var c := FilterAndTail(f); c == [] || (ClauseWord(c[0]) && c[0] != Kw(PREWHERE))
    ensures var c := Clauses(f); c == [] || ClauseWord(c[0])
    ensures f.prewhere.Some? ==> NoClause(f.prewhere.value)
    ensures f.filter.Some? ==> NoClause(f.filter.value)
  {
  }

  /** The gateway's FINAL does no harm: no alias, or a table it leaves alone. */
  predicate Intact(rmt: set<string>, f: Flat) { f.alias.NoAlias? || f.table !in rmt }

  /** SELECT items FROM brain.t FINAL alias ... */
  function Broken(f: Flat): seq<Token> {
    ([Kw(SELECT)] + f.items) + (TableText(f) + ([Kw(FINAL)] + BehindTable(f)))
  }

  /** _inject_final puts FINAL right behind a flat query's table, and changes nothing else. */
  lemma InjectsFinal(rmt: set<string>, f: Flat)
    requires WfFlat(f)
    ensures InjectFinal(rmt, FlatText(f)) ==
            if Intact(rmt, f) then FlatText(f.(final := f.final || f.table in rmt)) else Broken(f)
  {
    hide InjectFinal, ClauseText, NoClause, AliasTokens;
    ClausesAreOrdered(f);
    NoFromInClauses(f);
    var front, back := [Kw(SELECT)] + f.items, TableText(f) + BehindTable(f);
    FlatParts(f);
    assert (front + back)[|front|..] == back && (front + back)[..|front|] == front;
    KeptPrefix(rmt, front + back, |front|);
    InjectsAtTable(rmt, f);
    var done := f.(final := f.final || f.table in rmt);
    FlatParts(done);
    assert Clauses(done) == Clauses(f);
  }

  lemma NoFromInClauses(f: Flat)
    requires WfFlat(f)
    ensures Lacks(Clauses(f), FROM) && Lacks(BehindTable(f), FROM)
  {
  }

  lemma InjectsAtTable(rmt: set<string>, f: Flat)
    requires WfFlat(f)
    ensures
      InjectFinal(rmt, TableText(f) + BehindTable(f)) ==
      TableText(f) + if f.table !in rmt then BehindTable(f)
                     else if f.alias.NoAlias? then BehindTable(f.(final := true))
                     else [Kw(FINAL)] + BehindTable(f)
  {
    hide InjectFinal, ClauseWord, Clauses, WfFlat;
    var ref, rest := TableText(f), BehindTable(f);
    NoFromInClauses(f);
    BehindTableIsBoundary(f);
    Unchanged(rmt, rest);
    if f.table !in rmt {
      var ts := ref + rest;
      assert ts == [ref[0]] + ts[1..] && Lacks(ts[1..], FROM);
      NoMatchStep(rmt, ts);
      Unchanged(rmt, ts[1..]);
    } else if f.alias.NoAlias? {
      var clauses := Clauses(f);
      UnaliasedRest(f);
      Unchanged(rmt, clauses);
      MatchStep(rmt, ref, clauses);
    } else {
      MatchStep(rmt, ref, rest);
    }
  }

  /** Without an alias what follows the table is FINAL, perhaps, and the clauses. */
  lemma UnaliasedRest(f: Flat)
    requires WfFlat(f) && f.alias.NoAlias?
    ensures BehindTable(f) == (if f.final then [Kw(FINAL)] + Clauses(f) else Clauses(f))
    ensures BehindTable(f.(final := true)) == [Kw(FINAL)] + Clauses(f)
    ensures Lacks(Clauses(f), FROM) && Boundary(Clauses(f)) && !StartsWithFinal(Clauses(f))
  {
    hide ClauseWord;
    ClausesAreOrdered(f);
    ClausesAreBoundaries(Clauses(f));
    NoFromInClauses(f);
    assert Clauses(f.(final := true)) == Clauses(f);
  }

  lemma BehindTableIsBoundary(f: Flat)
    requires WfFlat(f)
    ensures Boundary(BehindTable(f)) && (!f.alias.NoAlias? ==> !StartsWithFinal(BehindTable(f)))
  {
    hide ClauseWord;
    ClausesAreOrdered(f);
    ClausesAreBoundaries(Clauses(f));
    var mark := Mark(f.final) + Clauses(f);
    assert Boundary(mark);
    match f.alias
    case NoAlias => assert BehindTable(f) == mark;
    case Bare(w) => assert BehindTable(f)[0] == Word(w);
    case As(w) => assert BehindTable(f)[0] == Kw(AS);
  }

  lemma ClausesAreBoundaries(rest: seq<Token>)
    requires rest == [] || ClauseWord(rest[0])
    ensures Boundary(rest) && !StartsWithFinal(rest)
  {
  }

  // ----- where the scope test lands -------------------------------------------------------------

  lemma {:induction false} FindOrderBySkips(a: seq<Token>, b: seq<Token>)
    requires Lacks(a, ORDER)
    ensures FindOrderBy(a + b) == |a| + FindOrderBy(b)
    decreases |a|
  {
    if a == [] {
      assert a + b == b;
    } else {
      assert (a + b)[1..] == a[1..] + b && a[0] in a;
      FindOrderBySkips(a[1..], b);
    }
  }

  /** None of the words that are searched for. */
  predicate Unsearched(ts: seq<Token>) {
    Lacks(ts, WHERE) && Lacks(ts, ORDER) && Lacks(ts, LIMIT) && Lacks(ts, SETTINGS) && Lacks(ts, FORMAT)
  }

  lemma UnsearchedConcat(a: seq<Token>, b: seq<Token>)
    requires Unsearched(a) && Unsearched(b)
    ensures Unsearched(a + b)
  {
  }

  lemma PartsAreUnsearched(f: Flat)
    requires WfFlat(f)
    ensures Unsearched([Kw(SELECT)] + f.items) && Unsearched(TableText(f)) && Unsearched(AliasTokens(f.alias))
    ensures Unsearched(Mark(f.final)) && Unsearched([Kw(FINAL)])
  {
  }

  /** The words in front of the clauses are none of those searched for. */
  lemma HeadIsPlain(f: Flat)
    requires WfFlat(f)
    ensures Unsearched(HeadText(f))
  {
    hide WfFlat, Unsearched, TableText, AliasTokens, Mark;
    PartsAreUnsearched(f);
    UnsearchedConcat(AliasTokens(f.alias), Mark(f.final));
    UnsearchedConcat(TableText(f), AliasTokens(f.alias) + Mark(f.final));
    UnsearchedConcat([Kw(SELECT)] + f.items, TableText(f) + (AliasTokens(f.alias) + Mark(f.final)));
  }

  /** The search for a place starts behind words that are not searched for. */
  lemma ScopePointSkips(head: seq<Token>, rest: seq<Token>)
    requires Unsearched(head)
    ensures ScopePoint(head + rest) == |head| + ScopePoint(rest)
  {
    hide Find, FindOrderBy;
    FindSkips(head, rest, WHERE);
    FindOrderBySkips(head, rest);
    FindSkips(head, rest, LIMIT);
    FindSkips(head, rest, SETTINGS);
    FindSkips(head, rest, FORMAT);
  }

  /** What stands in front of WHERE and tail. */
  function Front(f: Flat): seq<Token> { HeadText(f) + ClauseText(PREWHERE, f.prewhere) }

  lemma FrontIsPlain(f: Flat)
    requires WfFlat(f)
    ensures Unsearched(Front(f)) && FlatText(f) == Front(f) + FilterAndTail(f)
  {
    hide HeadText, FilterAndTail;
    HeadIsPlain(f);
    PrewhereIsPlain(f);
    UnsearchedConcat(HeadText(f), ClauseText(PREWHERE, f.prewhere));
  }

  lemma PrewhereIsPlain(f: Flat)
    requires WfFlat(f)
    ensures Unsearched(ClauseText(PREWHERE, f.prewhere))
  {
  }

  /**
   Where the scope test lands in a flat query: behind the table reference and the query's own PREWHERE,
   and there in front of the WHERE, or else in the tail.
   */
  lemma ScopePointOfFlat(f: Flat)
    requires WfFlat(f)
    ensures ScopePoint(FlatText(f)) == |Front(f)| + if f.filter.Some? then 0 else ScopePoint(f.tail)
    ensures ScopePoint(f.tail) == 0 <==> SearchableTail(f.tail)
  {
    hide HeadText, FilterAndTail, Unsearched, ScopePoint, WfFlat, SearchableTail, Front;
    FrontIsPlain(f);
    ScopePointSkips(Front(f), FilterAndTail(f));
    ClausesAreFound(f);
    TailFirst(f);
  }

  lemma ClausesAreFound(f: Flat)
    ensures ScopePoint(FilterAndTail(f)) == if f.filter.Some? then 0 else ScopePoint(f.tail)
  {
    hide Find, FindOrderBy;
    if f.filter.Some? {
      FindHere(FilterAndTail(f), WHERE);
    } else {
      assert FilterAndTail(f) == f.tail;
    }
  }

  /** The searchable tails are those whose first clause is the first one found. */
  lemma TailFirst(f: Flat)
    requires WfFlat(f)
    ensures ScopePoint(f.tail) == 0 <==> SearchableTail(f.tail)
  {
    var tail := f.tail;
    assert Lacks(tail, WHERE);
    NotFound(tail, WHERE);
    if tail != [] {
      FoundFirst(tail, LIMIT);
      FoundFirst(tail, SETTINGS);
      FoundFirst(tail, FORMAT);
    }
  }

  lemma NotFound(ts: seq<Token>, k: Keyword)
    requires Lacks(ts, k)
    ensures Find(ts, k) == |ts|
  {
    FindSkips(ts, [], k);
    assert ts + [] == ts;
  }

  lemma FoundFirst(ts: seq<Token>, k: Keyword)
    requires ts != []
    ensures Find(ts, k) == 0 <==> ts[0] == Kw(k)
    ensures Find(ts, k) == |ts| <==> Lacks(ts, k)
  {
    if Lacks(ts, k) { NotFound(ts, k); }
  }

  // ----- which text is sent ---------------------------------------------------------------------

  /** The caller's own PREWHERE workspace_id, which switches the injection off. */
  predicate OwnScope(f: Flat) {
    f.prewhere.Some? && f.prewhere.value != [] && f.prewhere.value[0] == Word("workspace_id")
  }

  /**
   The query can be sent: with its own PREWHERE workspace_id, or with no PREWHERE, and then with a WHERE or
   a tail in front of which the gateway puts one.
   */
  predicate Placeable(f: Flat) {
    if f.prewhere.Some? then OwnScope(f) else f.filter.Some? || SearchableTail(f.tail)
  }

  lemma ScopedBehind(a: seq<Token>, b: seq<Token>)
    requires Lacks(a, PREWHERE)
    ensures AlreadyScoped(a + b) <==> AlreadyScoped(b)
  {
    var ts := a + b;
    assert forall i | 0 <= i < |a| :: ts[i] == a[i] && a[i] in a;
    if AlreadyScoped(ts) {
      var i :| 0 <= i < |ts| - 1 && ts[i] == Kw(PREWHERE) && ts[i + 1] == Word("workspace_id");
      assert b[i - |a|] == ts[i] && b[i - |a| + 1] == ts[i + 1];
    }
    if AlreadyScoped(b) {
      var i :| 0 <= i < |b| - 1 && b[i] == Kw(PREWHERE) && b[i + 1] == Word("workspace_id");
      assert ts[|a| + i] == b[i] && ts[|a| + i + 1] == b[i + 1];
    }
  }

  lemma NeverScoped(ts: seq<Token>)
    requires Lacks(ts, PREWHERE)
    ensures !AlreadyScoped(ts)
  {
    assert forall i | 0 <= i < |ts| :: ts[i] in ts;
  }

  lemma LacksPrewhere(f: Flat)
    requires WfFlat(f)
    ensures Lacks(HeadText(f), PREWHERE) && Lacks(FilterAndTail(f), PREWHERE)
    ensures f.prewhere.Some? ==> Lacks(f.prewhere.value + FilterAndTail(f), PREWHERE)
  {
  }

  /** The gateway's search finds a flat query scoped exactly when its PREWHERE begins with workspace_id. */
  lemma ScopedExactly(f: Flat)
    requires WfFlat(f)
    ensures AlreadyScoped(FlatText(f)) <==> OwnScope(f)
  {
    hide WfFlat, HeadText, FilterAndTail, AlreadyScoped;
    LacksPrewhere(f);
    ScopedBehind(HeadText(f), Clauses(f));
    if f.prewhere.None? {
      assert Clauses(f) == FilterAndTail(f);
      NeverScoped(Clauses(f));
    } else {
      var more := f.prewhere.value + FilterAndTail(f);
      assert Clauses(f) == [Kw(PREWHERE)] + more;
      NeverScoped(more);
      ScopedHere(more);
      ClausesAreOrdered(f);
      assert more != [] ==> more[0] == if f.prewhere.value != [] then f.prewhere.value[0] else FilterAndTail(f)[0];
    }
  }

  lemma ScopedHere(more: seq<Token>)
    requires !AlreadyScoped(more)
    ensures AlreadyScoped([Kw(PREWHERE)] + more) <==> more != [] && more[0] == Word("workspace_id")
  {
    var ts := [Kw(PREWHERE)] + more;
    assert forall i | 0 < i < |ts| :: ts[i] == more[i - 1];
    if AlreadyScoped(ts) {
      var i :| 0 <= i < |ts| - 1 && ts[i] == Kw(PREWHERE) && ts[i + 1] == Word("workspace_id");
    }
    assert ts[0] == Kw(PREWHERE) && (more != [] ==> ts[0 + 1] == more[0]);
  }

  function WithFinal(rmt: set<string>, f: Flat): Flat { f.(final := f.final || f.table in rmt) }

  /** The query that is sent. */
  function Sent(rmt: set<string>, f: Flat): Flat {
    if OwnScope(f) then WithFinal(rmt, f)
    else WithFinal(rmt, f).(prewhere := Some([Word("workspace_id"), Other("="), Param("gateway_workspace_id")]))
  }

  function SentParams(f: Flat, workspace: string, params: Params): Params {
    if OwnScope(f) then params else params["gateway_workspace_id" := workspace]
  }

  lemma InsertsScope(f: Flat)
    requires f.prewhere.None?
    ensures InsertAt(FlatText(f), |HeadText(f)|) == FlatText(f.(prewhere := Some(SCOPE_TEST)))
  {
    hide HeadText, FilterAndTail;
    var head, rest := HeadText(f), FilterAndTail(f);
    var done := f.(prewhere := Some(SCOPE_TEST));
    HeadIgnoresPrewhere(f, Some(SCOPE_TEST));
    assert Clauses(f) == rest;
    assert FlatText(f)[..|head|] == head && FlatText(f)[|head|..] == rest;
    assert FlatText(done) == head + ([Kw(PREWHERE)] + SCOPE_TEST + rest);
  }

  lemma HeadIgnoresPrewhere(f: Flat, c: Option<seq<Token>>)
    ensures HeadText(f.(prewhere := c)) == HeadText(f) && FilterAndTail(f.(prewhere := c)) == FilterAndTail(f)
  {
  }

  /** What query_raw sends for a flat query: FINAL on the table, and the scope test unless there is one. */
  lemma QueryRawText(rmt: set<string>, f: Flat, workspace: string, params: Params)
    requires WfFlat(f) && Placeable(f) && Intact(rmt, f)
    ensures QueryRaw(rmt, FlatText(f), workspace, params) ==
            (FlatText(Sent(rmt, f)), SentParams(f, workspace, params))
  {
    hide FlatText, HeadText, AlreadyScoped, ScopePoint, InjectFinal, InsertAt, WfFlat, SearchableTail;
    var g := WithFinal(rmt, f);
    InjectsFinal(rmt, f);
    FinalKeepsWf(f, g.final);
    ScopedExactly(g);
    if !OwnScope(f) {
      ScopePointOfFlat(g);
      assert Front(g) == HeadText(g) + [] == HeadText(g);
      InsertsScope(g);
    }
  }

  lemma FinalKeepsWf(f: Flat, final: bool)
    requires WfFlat(f)
    ensures WfFlat(f.(final := final)) && WfFlat(f.(final := final, prewhere := Some(SCOPE_TEST)))
  {
  }

  lemma SentIsWf(rmt: set<string>, f: Flat)
    requires WfFlat(f)
    ensures WfFlat(Sent(rmt, f))
  {
    hide WfFlat;
    FinalKeepsWf(f, f.final || f.table in rmt);
  }

  // ----- a second injection ---------------------------------------------------------------------

  lemma InsertedIsScoped(ts: seq<Token>, n: nat)
    requires n <= |ts|
    ensures AlreadyScoped(InsertAt(ts, n))
  {
    var text := InsertAt(ts, n);
    assert text[n] == Kw(PREWHERE) && text[n + 1] == Word("workspace_id");
  }

  /** A clause the test is put in front of, or the end. */
  predicate ClauseHere(b: seq<Token>) { b == [] || (b[0].Kw? && b[0] != Kw(FINAL) && b[0] != Kw(FROM)) }

  /** A text that needs no FINAL needs none with the test in front of a clause. */
  lemma {:induction false} InsertNeedsNoFinal(rmt: set<string>, a: seq<Token>, b: seq<Token>)
    requires InjectFinal(rmt, a + b) == a + b && ClauseHere(b)
    ensures
      var more := a + ([Kw(PREWHERE)] + SCOPE_TEST + b);
      InjectFinal(rmt, more) == more
    decreases |a|
  {
    hide *;
    var test := [Kw(PREWHERE)] + SCOPE_TEST;
    var ts, more := a + b, a + (test + b);
    if a == [] {
      assert ts == b && more == test + b;
      TestInFront(rmt, b);
    } else if Marked(rmt, ts) {
      MarkedStep(rmt, ts);
      WholeReference(rmt, a, b);
      assert ts[5..] == a[5..] + b && more[5..] == a[5..] + (test + b) && more == a[..5] + more[5..];
      InsertNeedsNoFinal(rmt, a[5..], b);
      MarkedStep(rmt, more);
      assert more[..5] == a[..5];
    } else {
      NeverLonger(rmt, ts);
      assert ts[1..] == a[1..] + b && more[1..] == a[1..] + (test + b);
      InsertNeedsNoFinal(rmt, a[1..], b);
      ReferenceStays(rmt, a, b);
      NoMatchStep(rmt, more);
      assert more == [more[0]] + more[1..];
    }
  }

  lemma TestInFront(rmt: set<string>, b: seq<Token>)
    requires InjectFinal(rmt, b) == b
    ensures var more := [Kw(PREWHERE)] + SCOPE_TEST + b; InjectFinal(rmt, more) == more
  {
    hide InjectFinal;
    var test := [Kw(PREWHERE)] + SCOPE_TEST;
    var more := test + b;
    assert more[..|test|] == test && more[|test|..] == b;
    KeptPrefix(rmt, more, |test|);
  }

  /** A reference with its FINAL at the head. */
  predicate Marked(rmt: set<string>, ts: seq<Token>) {
    FromTable(rmt, ts) && StartsWithFinal(ts[4..]) && Boundary(ts[5..])
  }

  lemma MarkedStep(rmt: set<string>, ts: seq<Token>)
    requires Marked(rmt, ts)
    ensures |ts| >= 5 && InjectFinal(rmt, ts) == ts[..5] + InjectFinal(rmt, ts[5..])
    ensures InjectFinal(rmt, ts) == ts ==> InjectFinal(rmt, ts[5..]) == ts[5..]
  {
    assert InjectFinal(rmt, ts)[5..] == InjectFinal(rmt, ts[5..]);
  }

  lemma WholeReference(rmt: set<string>, a: seq<Token>, b: seq<Token>)
    requires ClauseHere(b) && a != [] && Marked(rmt, a + b)
    ensures |a| >= 5 && Marked(rmt, a + ([Kw(PREWHERE)] + SCOPE_TEST + b))
  {
    var ts, more := a + b, a + ([Kw(PREWHERE)] + SCOPE_TEST + b);
    assert |a| < |ts| ==> ts[|a|] == b[0];
    assert ts[4..][0] == ts[4] && forall i | 0 <= i < |a| :: ts[i] == a[i] == more[i];
    assert more[4..][0] == more[4] && more[|a|] == Kw(PREWHERE);
    assert more[5..] != [] && more[5..][0] == more[5];
    assert |a| > 5 ==> ts[5..][0] == ts[5];
  }

  /** A fixed text is not one that gets a FINAL at its head. */
  lemma NeverLonger(rmt: set<string>, ts: seq<Token>)
    requires ts != [] && InjectFinal(rmt, ts) == ts && !Marked(rmt, ts)
    ensures !Matches(rmt, ts) && InjectFinal(rmt, ts[1..]) == ts[1..]
  {
    if |ts| >= 4 { HeadKept(rmt, ts[4..]); }
    HeadKept(rmt, ts[1..]);
    assert InjectFinal(rmt, ts) == [ts[0]] + InjectFinal(rmt, ts[1..]);
  }

  lemma ReferenceStays(rmt: set<string>, a: seq<Token>, b: seq<Token>)
    requires a != [] && ClauseHere(b)
    ensures Matches(rmt, a + ([Kw(PREWHERE)] + SCOPE_TEST + b)) ==> Matches(rmt, a + b)
  {
    var ts, more := a + b, a + ([Kw(PREWHERE)] + SCOPE_TEST + b);
    assert more[|a|] == Kw(PREWHERE) && forall i | 0 <= i < |a| :: ts[i] == a[i] == more[i];
    assert |a| == 4 ==> ts[4..] == b;
  }

  /** On every token sequence query_raw is idempotent: a second time it changes neither text nor parameters. */
  lemma SecondInjectionIsIdle(rmt: set<string>, ts: seq<Token>, workspace: string, params: Params, again: string)
    ensures
      var (text, sent) := QueryRaw(rmt, ts, workspace, params);
      QueryRaw(rmt, text, again, sent) == (text, sent)
  {
    hide InjectFinal, AlreadyScoped, ScopePoint;
    var once := InjectFinal(rmt, ts);
    InjectFinalIdempotent(rmt, ts);
    if !AlreadyScoped(once) {
      var n := ScopePoint(once);
      InsertedIsScoped(once, n);
      assert once[..n] + once[n..] == once;
      InsertNeedsNoFinal(rmt, once[..n], once[n..]);
    }
  }

  // ----- FINAL in front of an alias -------------------------------------------------------------

  /** Behind FINAL an alias is neither clause nor tail: nothing that follows makes up for it. */
  lemma BrokenNeverReads(items: seq<Token>, table: string, alias: Alias, more: seq<Token>)
    requires Lacks(items, FROM) && !alias.NoAlias?
    ensures
      var text := ([Kw(SELECT)] + items) +
                  ([Kw(FROM), Word("brain"), Dot, Word(table)] + ([Kw(FINAL)] + (AliasTokens(alias) + more)));
      ReadFlat(text) == None
  {
    hide ReadFlat;
    var rest := AliasTokens(alias) + more;
    ReadsTable(items, table, [Kw(FINAL)] + rest);
    assert rest[0] == AliasTokens(alias)[0];
    assert ParseAlias([Kw(FINAL)] + rest) == (NoAlias, [Kw(FINAL)] + rest);
    assert ([Kw(FINAL)] + rest)[1..] == rest;
    assert ReadClause(PREWHERE, rest) == (None, rest) && ReadClause(WHERE, rest) == (None, rest);
    assert !BeginsTail(rest);
  }

  /** What _inject_final makes of a flat query reads exactly when it had no alias or was left alone. */
  lemma InjectedReadsExactly(rmt: set<string>, f: Flat)
    requires WfFlat(f)
    ensures ReadFlat(InjectFinal(rmt, FlatText(f))).Some? <==> Intact(rmt, f)
  {
    hide InjectFinal, ReadFlat, FlatText, WfFlat;
    InjectsFinal(rmt, f);
    if Intact(rmt, f) {
      FinalKeepsWf(f, f.final || f.table in rmt);
      ReadsFlat(f.(final := f.final || f.table in rmt));
    } else {
      ItemsLackFrom(f);
      BrokenNeverReads(f.items, f.table, f.alias, Mark(f.final) + Clauses(f));
    }
  }

  lemma ItemsLackFrom(f: Flat)
    requires WfFlat(f)
    ensures Lacks(f.items, FROM)
  {
  }

  function BrokenHead(f: Flat): seq<Token> {
    ([Kw(SELECT)] + f.items) + (TableText(f) + ([Kw(FINAL)] + AliasTokens(f.alias)))
  }

  lemma BrokenParts(f: Flat)
    ensures Broken(f) == BrokenHead(f) + (Mark(f.final) + Clauses(f))
  {
  }

  lemma BrokenHeadIsPlain(f: Flat)
    requires WfFlat(f)
    ensures Unsearched(BrokenHead(f))
  {
    hide WfFlat, Unsearched, TableText, AliasTokens, Mark;
    PartsAreUnsearched(f);
    UnsearchedConcat([Kw(FINAL)], AliasTokens(f.alias));
    UnsearchedConcat(TableText(f), [Kw(FINAL)] + AliasTokens(f.alias));
    UnsearchedConcat([Kw(SELECT)] + f.items, TableText(f) + ([Kw(FINAL)] + AliasTokens(f.alias)));
  }

  /** The scope test never lands in front of the misplaced alias, and cannot repair the text. */
  lemma BrokenStaysBroken(f: Flat, workspace: string, params: Params)
    requires WfFlat(f) && !f.alias.NoAlias?
    ensures ReadFlat(InjectPrewhere(Broken(f), workspace, params).0) == None
  {
    hide ReadFlat, ScopePoint, AliasTokens, Mark, Clauses, AlreadyScoped, WfFlat;
    var head, rest := BrokenHead(f), Mark(f.final) + Clauses(f);
    ItemsLackFrom(f);
    BrokenParts(f);
    BrokenHeadIsPlain(f);
    ScopePointSkips(head, rest);
    var n := ScopePoint(rest);
    var more := if AlreadyScoped(Broken(f)) then rest else rest[..n] + ([Kw(PREWHERE)] + SCOPE_TEST + rest[n..]);
    BrokenNeverReads(f.items, f.table, f.alias, more);
    if !AlreadyScoped(Broken(f)) { InsertBehind(head, rest, n); }
    BrokenHeadThen(f, more);
  }

  lemma InsertBehind(head: seq<Token>, rest: seq<Token>, n: nat)
    requires n <= |rest|
    ensures InsertAt(head + rest, |head| + n) == head + (rest[..n] + ([Kw(PREWHERE)] + SCOPE_TEST + rest[n..]))
  {
    var ts := head + rest;
    assert ts[..|head| + n] == head + rest[..n] && ts[|head| + n..] == rest[n..];
  }

  lemma BrokenHeadThen(f: Flat, more: seq<Token>)
    ensures BrokenHead(f) + more ==
            ([Kw(SELECT)] + f.items) + (TableText(f) + ([Kw(FINAL)] + (AliasTokens(f.alias) + more)))
  {
  }

  // ----- a test in the wrong place --------------------------------------------------------------

  /** A second PREWHERE, or one in the tail, is no clause of a flat query. */
  lemma SpoiltNeverReads(f: Flat, rest: seq<Token>)
    requires WfFlat(f) && rest != [] && ClauseWord(rest[0]) && rest[0] != Kw(WHERE) && Kw(PREWHERE) in rest
    requires f.prewhere.None? ==> rest[0] != Kw(PREWHERE)
    ensures ReadFlat(Front(f) + rest) == None
  {
    hide ReadFlat, ReadBehindTable, ReadClause, ParseAlias, NoClause, ClauseWord;
    var clauses := ClauseText(PREWHERE, f.prewhere) + rest;
    var behind := AliasTokens(f.alias) + (Mark(f.final) + clauses);
    ClausesAreOrdered(f);
    FrontParts(f, rest);
    ReadsTable(f.items, f.table, behind);
    ReadsSpoilt(f, rest);
  }

  lemma FrontParts(f: Flat, rest: seq<Token>)
    ensures Front(f) + rest == ([Kw(SELECT)] + f.items) +
              (TableText(f) + (AliasTokens(f.alias) + (Mark(f.final) + (ClauseText(PREWHERE, f.prewhere) + rest))))
  {
  }

  lemma ReadsSpoilt(f: Flat, rest: seq<Token>)
    requires WfFlat(f) && rest != [] && ClauseWord(rest[0]) && rest[0] != Kw(WHERE) && Kw(PREWHERE) in rest
    requires f.prewhere.None? ==> rest[0] != Kw(PREWHERE)
    ensures
      var clauses := ClauseText(PREWHERE, f.prewhere) + rest;
      ReadBehindTable(f.items, f.table, AliasTokens(f.alias) + (Mark(f.final) + clauses)) == None
  {
    hide ParseAlias, AliasTokens, NoClause, FindClause;
    var clauses := ClauseText(PREWHERE, f.prewhere) + rest;
    var mark := Mark(f.final) + clauses;
    ClausesAreOrdered(f);
    assert clauses != [] && ClauseWord(clauses[0]);
    ParsesAlias(f.alias, mark);
    assert StartsWithFinal(mark) == f.final && (if f.final then mark[1..] else mark) == clauses;
    ReadsOwnPrewhere(f, rest);
    assert ReadClause(WHERE, rest) == (None, rest);
    assert !TailShape(rest);
  }

  lemma ReadsOwnPrewhere(f: Flat, rest: seq<Token>)
    requires WfFlat(f) && rest != [] && ClauseWord(rest[0])
    requires f.prewhere.None? ==> rest[0] != Kw(PREWHERE)
    ensures ReadClause(PREWHERE, ClauseText(PREWHERE, f.prewhere) + rest) == (f.prewhere, rest)
  {
    if f.prewhere.Some? {
      var text := ClauseText(PREWHERE, f.prewhere) + rest;
      assert text[1..] == f.prewhere.value + rest;
      FindClauseSkips(f.prewhere.value, rest);
    } else {
      assert ClauseText(PREWHERE, f.prewhere) + rest == rest;
    }
  }

  /** Nothing else can take the test: it makes a second PREWHERE, or one behind another clause. */
  lemma UnplaceableNeverReads(f: Flat, workspace: string, params: Params)
    requires WfFlat(f) && !Placeable(f)
    ensures ReadFlat(InjectPrewhere(FlatText(f), workspace, params).0) == None
  {
    hide ReadFlat, FlatText, ScopePoint, AlreadyScoped, Front, FilterAndTail, SearchableTail, WfFlat;
    ScopedExactly(f);
    ScopePointOfFlat(f);
    FrontIsPlain(f);
    var rest, n := FilterAndTail(f), if f.filter.Some? then 0 else ScopePoint(f.tail);
    RestOf(f);
    InsertBehind(Front(f), rest, n);
    var more := rest[..n] + ([Kw(PREWHERE)] + SCOPE_TEST + rest[n..]);
    assert more[n] == Kw(PREWHERE);
    assert n > 0 ==> more[0] == rest[0];
    SpoiltNeverReads(f, more);
  }

  lemma RestOf(f: Flat)
    requires WfFlat(f)
    ensures f.filter.None? ==> FilterAndTail(f) == f.tail
    ensures f.tail != [] ==> ClauseWord(f.tail[0]) && f.tail[0] != Kw(WHERE) && f.tail[0] != Kw(PREWHERE)
    ensures ClauseWord(Kw(PREWHERE))
  {
  }

  /**
   Through query_raw as a whole: what is sent for a flat query reads exactly when no FINAL lands in front of
   an alias, and the query brings its own PREWHERE workspace_id or has room for the gateway's.
   */
  lemma QueryRawReadsExactly(rmt: set<string>, f: Flat, workspace: string, params: Params)
    requires WfFlat(f)
    ensures ReadFlat(QueryRaw(rmt, FlatText(f), workspace, params).0).Some? <==> Intact(rmt, f) && Placeable(f)
  {
    hide InjectFinal, InjectPrewhere, ReadFlat, FlatText, WfFlat, SearchableTail;
    InjectsFinal(rmt, f);
    if !Intact(rmt, f) {
      BrokenStaysBroken(f, workspace, params);
    } else if Placeable(f) {
      QueryRawText(rmt, f, workspace, params);
      SentIsWf(rmt, f);
      ReadsFlat(Sent(rmt, f));
    } else {
      FinalKeepsWf(f, f.final || f.table in rmt);
      UnplaceableNeverReads(WithFinal(rmt, f), workspace, params);
    }
  }
}
