/**
 What query_raw's answer depends on: the newest rows of one workspace, unless the caller brings a PREWHERE
 workspace_id of its own; and then exactly when other workspaces still make no difference.
 */
module Isolation {
  import opened Options
  import opened ReplacingMergeTree
  import opened FinalRewriter
  import opened SqlGrammar
  import opened GatewayRewriter
  import opened WorkspaceScope

  type Tables<!K(==), !D(==)> = map<string, set<Row<K, D>>>

  // ----- meaning --------------------------------------------------------------------------------

  /**
   How a condition falls into conjuncts, whether one of them holds of a row under parameters, and what is
   made of the rows that remain.
   */
  datatype Semantics<!K(==), !D(==), !V> = Semantics(
    workspaceOf: K -> string,
    conjuncts: seq<Token> -> seq<seq<Token>>,
    holds: (seq<Token>, Params, Row<K, D>) -> bool,
    finish: (seq<Token>, set<Row<K, D>>, seq<Token>, Params) -> V)

  function Mentioned(ts: seq<Token>): set<string> { set t | t in ts && t.Param? :: t.param }

  /** A text sees the parameters it mentions, and no others. */
  function Bound(params: Params, names: set<string>): Params {
    map n | n in params && n in names :: params[n]
  }

  /** workspace_id = %(name)s */
  predicate TestShape(c: seq<Token>) {
    |c| == 3 && c[0] == Word("workspace_id") && c[1] == Other("=") && c[2].Param?
  }

  function Conjuncts<K, D, V>(s: Semantics<K, D, V>, c: seq<Token>): seq<seq<Token>> {
    if TestShape(c) then [c] else s.conjuncts(c)
  }

  function Seen(params: Params, c: seq<Token>): Params { Bound(params, Mentioned(c)) }

  predicate WorkspaceTest(t: seq<Token>, seen: Params) { TestShape(t) && t[2].param in seen }

  predicate Admits<K, D, V>(s: Semantics<K, D, V>, c: seq<Token>, params: Params, r: Row<K, D>) {
    var seen := Seen(params, c);
    forall t: seq<Token> | t in Conjuncts(s, c) ::
      if WorkspaceTest(t, seen) then s.workspaceOf(r.key) == seen[t[2].param] else s.holds(t, seen, r)
  }

  function Keep<K(==), D(==), V>(s: Semantics<K, D, V>, c: Option<seq<Token>>, p: Params, rows: set<Row<K, D>>)
    : set<Row<K, D>>
  {
    if c.None? then rows else set r | r in rows && Admits(s, c.value, p, r)
  }

  function Stored<K(==), D(==)>(tables: Tables<K, D>, f: Flat): set<Row<K, D>> {
    var rows := if f.table in tables then tables[f.table] else {};
    if f.final then FinalRows(rows) else rows
  }

  function EvalFlat<K(==), D(==), V>(s: Semantics<K, D, V>, tables: Tables<K, D>, p: Params, f: Flat): V {
    s.finish(f.items, Keep(s, f.filter, p, Keep(s, f.prewhere, p, Stored(tables, f))), f.tail,
             Bound(p, Mentioned(f.items) + Mentioned(f.tail)))
  }

  function Run<K(==), D(==), V>(s: Semantics<K, D, V>, tables: Tables<K, D>, text: seq<Token>, p: Params): Option<V> {
    match ReadFlat(text)
    case None => None
    case Some(f) => Some(EvalFlat(s, tables, p, f))
  }

  function InWorkspace<K(==), D(==)>(workspaceOf: K -> string, ws: string, rows: set<Row<K, D>>): set<Row<K, D>> {
    set r | r in rows && workspaceOf(r.key) == ws
  }

  /** Only the newest rows, where the gateway's list has the table. */
  function Newest<K(==), D(==)>(rmt: set<string>, tables: Tables<K, D>): Tables<K, D> {
    map t | t in tables :: if t in rmt then FinalRows(tables[t]) else tables[t]
  }

  /** The rows of one workspace. */
  function Only<K(==), D(==)>(workspaceOf: K -> string, ws: string, tables: Tables<K, D>): Tables<K, D> {
    map t | t in tables :: InWorkspace(workspaceOf, ws, tables[t])
  }

  // ----- workspaces -----------------------------------------------------------------------------

  /** Selecting one workspace and taking the newest rows commute: a key belongs to one workspace. */
  lemma WorkspaceFinal<K, D>(workspaceOf: K -> string, ws: string, rows: set<Row<K, D>>)
    ensures InWorkspace(workspaceOf, ws, FinalRows(rows)) == FinalRows(InWorkspace(workspaceOf, ws, rows))
  {
  }

  lemma StoredOfOne<K, D>(workspaceOf: K -> string, ws: string, tables: Tables<K, D>, f: Flat)
    ensures Stored(Only(workspaceOf, ws, tables), f) == InWorkspace(workspaceOf, ws, Stored(tables, f))
  {
    hide FinalRows, InWorkspace;
    if f.table in tables {
      WorkspaceFinal(workspaceOf, ws, tables[f.table]);
    } else {
      NothingInWorkspace<K, D>(workspaceOf, ws);
    }
  }

  lemma NothingInWorkspace<K, D>(workspaceOf: K -> string, ws: string)
    ensures FinalRows<K, D>({}) == {} && InWorkspace<K, D>(workspaceOf, ws, {}) == {}
  {
  }

  /** FINAL on a table of the list reads its newest rows, a second time or not. */
  lemma StoredNewest<K, D>(rmt: set<string>, tables: Tables<K, D>, f: Flat)
    ensures Stored(Newest(rmt, tables), f) == Stored(tables, WithFinal(rmt, f))
  {
    hide FinalRows;
    if f.table in tables { FinalIdempotent(tables[f.table]); }
    EmptyIsFinal<K, D>();
  }

  lemma EmptyIsFinal<K, D>()
    ensures FinalRows<K, D>({}) == {}
  {
  }

  // ----- pins -----------------------------------------------------------------------------------

  /** The workspaces that conjuncts of a clause ask for. */
  function Pins<K, D, V>(s: Semantics<K, D, V>, c: Option<seq<Token>>, params: Params): set<string> {
    if c.None? then {}
    else
      var seen := Seen(params, c.value);
      set t: seq<Token> | t in Conjuncts(s, c.value) && WorkspaceTest(t, seen) :: seen[t[2].param]
  }

  function AllPins<K, D, V>(s: Semantics<K, D, V>, f: Flat, params: Params): set<string> {
    Pins(s, f.prewhere, params) + Pins(s, f.filter, params)
  }

  /** The query asks for this workspace, or for two at once. */
  predicate Shut(pins: set<string>, ws: string) { ws in pins || exists v, w :: v in pins && w in pins && v != w }

  function Kept<K(==), D(==), V>(s: Semantics<K, D, V>, f: Flat, p: Params, rows: set<Row<K, D>>): set<Row<K, D>> {
    Keep(s, f.filter, p, Keep(s, f.prewhere, p, rows))
  }

  lemma KeptArePinned<K, D, V>(s: Semantics<K, D, V>, c: Option<seq<Token>>, p: Params, rows: set<Row<K, D>>)
    ensures forall r, w | r in Keep(s, c, p, rows) && w in Pins(s, c, p) :: s.workspaceOf(r.key) == w
  {
  }

  /** Whether a row is kept is a matter of that row. */
  lemma KeptOne<K, D, V>(s: Semantics<K, D, V>, f: Flat, p: Params, rows: set<Row<K, D>>, ws: string)
    ensures Kept(s, f, p, InWorkspace(s.workspaceOf, ws, rows)) == InWorkspace(s.workspaceOf, ws, Kept(s, f, p, rows))
  {
    hide Admits;
  }

  lemma PinnedRows<K, D, V>(s: Semantics<K, D, V>, f: Flat, p: Params, rows: set<Row<K, D>>, w: string)
    requires w in AllPins(s, f, p)
    ensures Kept(s, f, p, rows) == InWorkspace(s.workspaceOf, w, Kept(s, f, p, rows))
  {
    KeptArePinned(s, f.prewhere, p, rows);
    KeptArePinned(s, f.filter, p, Keep(s, f.prewhere, p, rows));
    hide Admits, Pins;
  }

  /** A query pinned to a workspace sees that workspace. */
  lemma PinnedEval<K, D, V>(s: Semantics<K, D, V>, tables: Tables<K, D>, p: Params, f: Flat, w: string)
    requires w in AllPins(s, f, p)
    ensures EvalFlat(s, tables, p, f) == EvalFlat(s, Only(s.workspaceOf, w, tables), p, f)
  {
    hide AllPins, Stored, InWorkspace, Keep;
    StoredOfOne(s.workspaceOf, w, tables, f);
    KeptOne(s, f, p, Stored(tables, f), w);
    PinnedRows(s, f, p, Stored(tables, f), w);
  }

  /** Two pins leave nothing. */
  lemma TwoPins<K, D, V>(s: Semantics<K, D, V>, f: Flat, p: Params, rows: set<Row<K, D>>, v: string, w: string)
    requires v in AllPins(s, f, p) && w in AllPins(s, f, p) && v != w
    ensures Kept(s, f, p, rows) == {}
  {
    hide Keep, AllPins;
    PinnedRows(s, f, p, rows, v);
    PinnedRows(s, f, p, rows, w);
    hide Kept;
  }

  // ----- what query_raw returns -----------------------------------------------------------------

  /** The texts that do not mention the gateway's own parameter. */
  predicate Unmentioned(f: Flat) {
    && GATEWAY_PARAM !in Mentioned(f.items) && GATEWAY_PARAM !in Mentioned(f.tail)
    && (f.filter.Some? ==> GATEWAY_PARAM !in Mentioned(f.filter.value))
  }

  lemma BoundIgnoresGateway(params: Params, ws: string, names: set<string>)
    requires GATEWAY_PARAM !in names
    ensures Bound(params[GATEWAY_PARAM := ws], names) == Bound(params, names)
  {
  }

  lemma KeepIgnoresGateway<K, D, V>(s: Semantics<K, D, V>, ws: string, params: Params, c: Option<seq<Token>>,
                                    rows: set<Row<K, D>>)
    requires c.Some? ==> GATEWAY_PARAM !in Mentioned(c.value)
    ensures Keep(s, c, params[GATEWAY_PARAM := ws], rows) == Keep(s, c, params, rows)
  {
    if c.Some? { BoundIgnoresGateway(params, ws, Mentioned(c.value)); }
  }

  /** The gateway's own test pins its workspace. */
  lemma ScopePins<K, D, V>(s: Semantics<K, D, V>, params: Params)
    requires GATEWAY_PARAM in params
    ensures Pins(s, Some(SCOPE_TEST), params) == {params[GATEWAY_PARAM]}
  {
    assert SCOPE_TEST[2] in SCOPE_TEST;
  }

  lemma ScopeKeeps<K, D, V>(s: Semantics<K, D, V>, params: Params, rows: set<Row<K, D>>)
    requires GATEWAY_PARAM in params
    ensures Keep(s, Some(SCOPE_TEST), params, rows) == InWorkspace(s.workspaceOf, params[GATEWAY_PARAM], rows)
  {
    assert SCOPE_TEST[2] in SCOPE_TEST;
  }

  /** The tables a caller's query is answered from. */
  function Scope<K(==), D(==)>(
    rmt: set<string>, workspaceOf: K -> string, f: Flat, ws: string, tables: Tables<K, D>): Tables<K, D>
  {
    if OwnScope(f) then Newest(rmt, tables) else Only(workspaceOf, ws, Newest(rmt, tables))
  }

  lemma SentMeans<K, D, V>(
    rmt: set<string>, s: Semantics<K, D, V>, tables: Tables<K, D>, f: Flat, ws: string, params: Params)
    requires Placeable(f)
    ensures
      var sent := SentParams(f, ws, params);
      EvalFlat(s, tables, sent, Sent(rmt, f)) == EvalFlat(s, Scope(rmt, s.workspaceOf, f, ws, tables), sent, f)
  {
    hide Stored, Keep, InWorkspace, Newest, Only, FinalRows, Bound, SearchableTail;
    StoredNewest(rmt, tables, f);
    if !OwnScope(f) {
      var sent := params[GATEWAY_PARAM := ws];
      var rows := Stored(tables, WithFinal(rmt, f));
      StoredOfOne(s.workspaceOf, ws, Newest(rmt, tables), f);
      SameStored(tables, WithFinal(rmt, f));
      ScopeKeeps(s, sent, rows);
      KeepAll(s, sent, InWorkspace(s.workspaceOf, ws, rows));
    }
  }

  /** The gateway's parameter makes no difference to a query that does not mention it. */
  lemma UnmentionedMeans<K, D, V>(s: Semantics<K, D, V>, tables: Tables<K, D>, f: Flat, ws: string, params: Params)
    requires f.prewhere.None? && Unmentioned(f)
    ensures EvalFlat(s, tables, params[GATEWAY_PARAM := ws], f) == EvalFlat(s, tables, params, f)
  {
    hide Stored, Keep, Bound;
    var rows := Stored(tables, f);
    KeepAll(s, params, rows);
    KeepAll(s, params[GATEWAY_PARAM := ws], rows);
    KeepIgnoresGateway(s, ws, params, f.filter, rows);
    BoundIgnoresGateway(params, ws, Mentioned(f.items) + Mentioned(f.tail));
  }

  lemma SameStored<K, D>(tables: Tables<K, D>, f: Flat)
    ensures Stored(tables, f.(prewhere := Some(SCOPE_TEST))) == Stored(tables, f)
  {
  }

  lemma KeepAll<K, D, V>(s: Semantics<K, D, V>, params: Params, rows: set<Row<K, D>>)
    ensures Keep(s, None, params, rows) == rows
  {
  }

  /**
   What query_raw sends, where it can be read, evaluates over all stored row versions to the caller's query
   over the newest rows: of the workspace, or, behind a PREWHERE workspace_id of the caller's own, of all.
   Every parameter of the caller arrives unchanged, and the one added shows only to a query that names it.
   */
  lemma QueryRawScopes<K, D, V>(
    rmt: set<string>, s: Semantics<K, D, V>, tables: Tables<K, D>, f: Flat, ws: string, params: Params)
    requires WfFlat(f) && Placeable(f) && Intact(rmt, f)
    ensures
      var (text, sent) := QueryRaw(rmt, FlatText(f), ws, params);
      var scope := Scope(rmt, s.workspaceOf, f, ws, tables);
      && Run(s, tables, text, sent) == Run(s, scope, FlatText(f), sent)
      && (OwnScope(f) || Unmentioned(f) ==> Run(s, scope, FlatText(f), sent) == Run(s, scope, FlatText(f), params))
      && Run(s, tables, text, sent).Some?
      && sent - {GATEWAY_PARAM} == params - {GATEWAY_PARAM}
  {
    hide FlatText, WfFlat, QueryRaw, ReadFlat, EvalFlat, Scope, SearchableTail, Unmentioned;
    QueryRawText(rmt, f, ws, params);
    SentIsWf(rmt, f);
    ReadsFlat(f);
    ReadsFlat(Sent(rmt, f));
    SentMeans(rmt, s, tables, f, ws, params);
    if !OwnScope(f) && Unmentioned(f) {
      UnmentionedMeans(s, Scope(rmt, s.workspaceOf, f, ws, tables), f, ws, params);
    }
  }

  lemma SentRuns<K, D, V>(
    rmt: set<string>, s: Semantics<K, D, V>, tables: Tables<K, D>, f: Flat, ws: string, params: Params)
    requires WfFlat(f)
    ensures
      var (text, sent) := QueryRaw(rmt, FlatText(f), ws, params);
      Run(s, tables, text, sent) ==
      if Intact(rmt, f) && Placeable(f) then Some(EvalFlat(s, tables, SentParams(f, ws, params), Sent(rmt, f)))
      else None
  {
    hide FlatText, WfFlat, QueryRaw, ReadFlat, EvalFlat, SearchableTail, Sent, SentParams, Placeable;
    QueryRawReadsExactly(rmt, f, ws, params);
    if Intact(rmt, f) && Placeable(f) {
      QueryRawText(rmt, f, ws, params);
      SentIsWf(rmt, f);
      ReadsFlat(Sent(rmt, f));
    }
  }

  /** A caller's own PREWHERE workspace_id decides: the answer is that of the workspace it asks for. */
  lemma CallersWorkspaceWins<K, D, V>(
    rmt: set<string>, s: Semantics<K, D, V>, tables: Tables<K, D>, f: Flat, ws: string, params: Params, w: string)
    requires WfFlat(f) && Intact(rmt, f) && OwnScope(f) && w in AllPins(s, f, params)
    ensures
      var (text, sent) := QueryRaw(rmt, FlatText(f), ws, params);
      && sent == params
      && Run(s, tables, text, sent) == Run(s, Only(s.workspaceOf, w, Newest(rmt, tables)), FlatText(f), params)
  {
    hide FlatText, WfFlat, QueryRaw, ReadFlat, EvalFlat, Only, Newest, AllPins;
    QueryRawText(rmt, f, ws, params);
    QueryRawScopes(rmt, s, tables, f, ws, params);
    ReadsFlat(f);
    PinnedEval(s, Newest(rmt, tables), params, f, w);
  }

  // ----- other workspaces -----------------------------------------------------------------------

  /** The same tables, and in them the same rows of ws. */
  predicate AgreeOn<K(==), D(==)>(workspaceOf: K -> string, ws: string, a: Tables<K, D>, b: Tables<K, D>) {
    a.Keys == b.Keys && forall t | t in a :: InWorkspace(workspaceOf, ws, a[t]) == InWorkspace(workspaceOf, ws, b[t])
  }

  /** The query brings no PREWHERE workspace_id that is sent, or its own clauses keep other workspaces out. */
  predicate Closed<K, D, V>(rmt: set<string>, s: Semantics<K, D, V>, f: Flat, ws: string, params: Params) {
    !Intact(rmt, f) || !OwnScope(f) || Shut(AllPins(s, f, params), ws)
  }

  lemma ShutEval<K, D, V>(
    s: Semantics<K, D, V>, a: Tables<K, D>, b: Tables<K, D>, p: Params, f: Flat, ws: string)
    requires Shut(AllPins(s, f, p), ws) && AgreeOn(s.workspaceOf, ws, a, b)
    ensures EvalFlat(s, a, p, f) == EvalFlat(s, b, p, f)
  {
    hide AllPins, Stored, Keep, InWorkspace;
    if ws in AllPins(s, f, p) {
      PinnedEval(s, a, p, f, ws);
      PinnedEval(s, b, p, f, ws);
      assert Only(s.workspaceOf, ws, a) == Only(s.workspaceOf, ws, b);
    } else {
      var v, w :| v in AllPins(s, f, p) && w in AllPins(s, f, p) && v != w;
      TwoPins(s, f, p, Stored(a, f), v, w);
      TwoPins(s, f, p, Stored(b, f), v, w);
    }
  }

  /** Rows of other workspaces make no difference to what query_raw returns. */
  lemma OtherWorkspacesAreInvisible<K, D, V>(
    rmt: set<string>, s: Semantics<K, D, V>, a: Tables<K, D>, b: Tables<K, D>, f: Flat, ws: string, params: Params)
    requires WfFlat(f) && AgreeOn(s.workspaceOf, ws, a, b) && Closed(rmt, s, f, ws, params)
    ensures
      var (text, sent) := QueryRaw(rmt, FlatText(f), ws, params);
      Run(s, a, text, sent) == Run(s, b, text, sent)
  {
    hide FlatText, WfFlat, QueryRaw, ReadFlat, EvalFlat, AgreeOn, Run, Pins, SearchableTail;
    SentRuns(rmt, s, a, f, ws, params);
    SentRuns(rmt, s, b, f, ws, params);
    if Intact(rmt, f) && Placeable(f) {
      var sent := SentParams(f, ws, params);
      if !OwnScope(f) { ScopePins(s, sent); }
      ShutEval(s, a, b, sent, Sent(rmt, f), ws);
    }
  }

  /** Behind PREWHERE workspace_id = %(name)s alone: exactly when the caller binds it to the same workspace. */
  lemma OwnTestExactly<K, D, V>(
    rmt: set<string>, s: Semantics<K, D, V>, f: Flat, test: seq<Token>, ws: string, params: Params)
    requires Intact(rmt, f) && f.prewhere == Some(test) && TestShape(test) && f.filter.None?
    ensures Closed(rmt, s, f, ws, params) <==> test[2].param in params && params[test[2].param] == ws
  {
    assert test[2] in test;
    assert AllPins(s, f, params) == if test[2].param in params then {params[test[2].param]} else {};
  }

  // ----- the condition is needed ----------------------------------------------------------------

  /** Keys are workspaces, every open condition holds, and the answer is the rows themselves. */
  function Apart<D(==)>(conjuncts: seq<Token> -> seq<seq<Token>>): Semantics<string, D, set<Row<string, D>>> {
    Semantics(k => k, conjuncts, (t, p, r) => true, (items, rows, tail, p) => rows)
  }

  ghost predicate Invisible<D(!new)>(
    rmt: set<string>, conjuncts: seq<Token> -> seq<seq<Token>>, f: Flat, ws: string, params: Params)
  {
    var (text, sent) := QueryRaw(rmt, FlatText(f), ws, params);
    forall a: Tables<string, D>, b: Tables<string, D> | AgreeOn(Apart<D>(conjuncts).workspaceOf, ws, a, b) ::
      Run(Apart(conjuncts), a, text, sent) == Run(Apart(conjuncts), b, text, sent)
  }

  /** A workspace that the pins let through. */
  lemma OpenWorkspace(pins: set<string>, ws: string) returns (w: string)
    requires !Shut(pins, ws)
    ensures w != ws && pins <= {w}
  {
    if v :| v in pins {
      w := v;
    } else {
      w := ws + "x";
    }
  }

  /** Otherwise a row of another workspace is returned, and would not be if it were not there. */
  lemma OpenQueryLeaks<D>(
    rmt: set<string>, conjuncts: seq<Token> -> seq<seq<Token>>, f: Flat, ws: string, params: Params, d: D)
    returns (a: Tables<string, D>, b: Tables<string, D>, r: Row<string, D>)
    requires WfFlat(f) && !Closed(rmt, Apart<D>(conjuncts), f, ws, params)
    ensures AgreeOn(Apart<D>(conjuncts).workspaceOf, ws, a, b) && r.key != ws
    ensures
      var (text, sent) := QueryRaw(rmt, FlatText(f), ws, params);
      Run(Apart(conjuncts), a, text, sent) == Some({}) && Run(Apart(conjuncts), b, text, sent) == Some({r})
  {
    hide FlatText, WfFlat, QueryRaw, ReadFlat, Run, Pins, FinalRows, Keep, EvalFlat, Sent;
    var s := Apart<D>(conjuncts);
    var w := OpenWorkspace(AllPins(s, f, params), ws);
    r := Row(w, 0, 0, d);
    a, b := map[f.table := {}], map[f.table := {r}];
    SentRuns(rmt, s, a, f, ws, params);
    SentRuns(rmt, s, b, f, ws, params);
    OwnScopeIsSent(rmt, f, ws, params);
    LoneEval(conjuncts, a, params, Sent(rmt, f), {}, r);
    LoneEval(conjuncts, b, params, Sent(rmt, f), {r}, r);
  }

  lemma OwnScopeIsSent(rmt: set<string>, f: Flat, ws: string, params: Params)
    requires OwnScope(f)
    ensures Placeable(f) && Sent(rmt, f) == WithFinal(rmt, f) && SentParams(f, ws, params) == params
    ensures Sent(rmt, f).table == f.table
    ensures Sent(rmt, f).prewhere == f.prewhere && Sent(rmt, f).filter == f.filter
  {
  }

  /** A row that all pins let through is the answer wherever it is the only one. */
  lemma LoneEval<D>(
    conjuncts: seq<Token> -> seq<seq<Token>>, tables: Tables<string, D>, params: Params, f: Flat,
    rows: set<Row<string, D>>, r: Row<string, D>)
    requires tables == map[f.table := rows] && (rows == {} || rows == {r})
    requires AllPins(Apart<D>(conjuncts), f, params) <= {r.key}
    ensures EvalFlat(Apart(conjuncts), tables, params, f) == rows
  {
    hide Pins, Keep, FinalRows;
    LoneRow(r);
    EmptyIsFinal<string, D>();
    AdmitsPinned(conjuncts, f.prewhere, params, r);
    AdmitsPinned(conjuncts, f.filter, params, r);
  }

  lemma LoneRow<K, D>(r: Row<K, D>)
    ensures FinalRows({r}) == {r}
  {
  }

  lemma AdmitsPinned<D>(
    conjuncts: seq<Token> -> seq<seq<Token>>, c: Option<seq<Token>>, params: Params, r: Row<string, D>)
    requires Pins(Apart<D>(conjuncts), c, params) <= {r.key}
    ensures Keep(Apart(conjuncts), c, params, {r}) == {r} && Keep(Apart<D>(conjuncts), c, params, {}) == {}
  {
    var s := Apart<D>(conjuncts);
    if c.Some? {
      var seen := Seen(params, c.value);
      forall t: seq<Token> | t in Conjuncts(s, c.value) && WorkspaceTest(t, seen) ensures seen[t[2].param] == r.key {
        assert seen[t[2].param] in Pins(s, c, params);
      }
    }
  }

  /** So, where rows are kept apart, the condition is exact. */
  lemma InvisibleExactly<D(!new)>(
    rmt: set<string>, conjuncts: seq<Token> -> seq<seq<Token>>, f: Flat, ws: string, params: Params, d: D)
    requires WfFlat(f)
    ensures Invisible<D>(rmt, conjuncts, f, ws, params) <==> Closed(rmt, Apart<D>(conjuncts), f, ws, params)
  {
    hide FlatText, WfFlat, QueryRaw, Run, Closed;
    var s := Apart<D>(conjuncts);
    if Closed(rmt, s, f, ws, params) {
      forall a: Tables<string, D>, b: Tables<string, D> | AgreeOn(Apart<D>(conjuncts).workspaceOf, ws, a, b)
        ensures
          var (text, sent) := QueryRaw(rmt, FlatText(f), ws, params);
          Run(s, a, text, sent) == Run(s, b, text, sent)
      {
        OtherWorkspacesAreInvisible(rmt, s, a, b, f, ws, params);
      }
    } else {
      var a, b, r := OpenQueryLeaks(rmt, conjuncts, f, ws, params, d);
    }
  }
}
