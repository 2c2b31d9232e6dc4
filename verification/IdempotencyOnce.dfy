/**
 What the idempotency protocol guarantees when the requests of one key are handled one at a time
 and no handler dies between writing its row and storing its reply.
 */
module IdempotencyOnce {
  import opened Options
  import opened Idempotency
  import opened IdempotencyRuns

  /** Checks find no other handler of their key in flight; handlers that wrote go on to store. */
  predicate Careful(w: World, s: Step) {
    && (s.Check? ==> InFlight(w.handlers, StoreKey(s.req)) == {})
    && (s.Fail? && s.id in w.handlers ==> w.handlers[s.id].Checked?)
  }

  predicate CarefulRun(session: string, plane: string, steps: seq<Step>)
    decreases |steps|
  {
    Run(session, plane, NOTHING, steps) &&
    (steps == [] ||
     (CarefulRun(session, plane, steps[..|steps| - 1]) &&
      Careful(End(session, plane, NOTHING, steps[..|steps| - 1]), steps[|steps| - 1])))
  }

  /** The only row under k, if there is one. */
  function RowUnder(log: seq<Row>, k: string): Row
    requires RowsUnder(log, k) > 0
    decreases |log|
  {
    if KeyOfRow(log[|log| - 1]) == k then log[|log| - 1] else RowUnder(log[..|log| - 1], k)
  }

  lemma RowAppend(log: seq<Row>, r: Row, k: string)
    requires RowsUnder(log + [r], k) == RowsUnder(log, k) + if KeyOfRow(r) == k then 1 else 0
    ensures KeyOfRow(r) == k ==> RowUnder(log + [r], k) == r
    ensures KeyOfRow(r) != k && RowsUnder(log, k) > 0 ==> RowUnder(log + [r], k) == RowUnder(log, k)
  {
    assert (log + [r])[..|log|] == log;
  }

  /** The request whose check last missed the store under k. */
  function LastMiss(session: string, plane: string, w0: World, steps: seq<Step>, k: string): Option<Request>
    requires Run(session, plane, w0, steps)
    decreases |steps|
  {
    if steps == [] then None
    else if Misses(End(session, plane, w0, steps[..|steps| - 1]), steps[|steps| - 1], k)
      then Some(steps[|steps| - 1].req)
    else LastMiss(session, plane, w0, steps[..|steps| - 1], k)
  }

  /** There is exactly one row under k, written for the request first. */
  ghost predicate RowIs(log: seq<Row>, k: string, first: Option<Request>, rowId: string) {
    RowsUnder(log, k) == 1 && first.Some? && RowUnder(log, k) == RowOf(first.value, rowId)
  }

  /**
   Where the protocol stands with one store key: first is the request of its latest missed check.
   Either nothing is under way and nothing was written, or one handler is about to write first's
   row, or it has written it and is about to store, or row and reply are there for good.
   */
  ghost predicate KeyOk(w: World, k: string, first: Option<Request>) {
    var busy := InFlight(w.handlers, k);
    && (forall i: nat, j: nat | i in busy && j in busy :: i == j)
    && (forall i: nat | i in busy :: Some(w.handlers[i].req) == first)
    && (k in w.store ==> busy == {} && RowIs(w.log, k, first, w.store[k].rowId))
    && (k !in w.store && busy == {} ==> RowsUnder(w.log, k) == 0)
    && (forall i: nat | i in busy && w.handlers[i].Checked? :: RowsUnder(w.log, k) == 0)
    && (forall i: nat | i in busy && w.handlers[i].Wrote? :: RowIs(w.log, k, first, w.handlers[i].rowId))
  }

  /** Every reply names the row of its key. */
  ghost predicate RepliesOk(w: World, k: string, first: Option<Request>) {
    forall p | p in w.replies && StoreKey(p.0) == k :: RowIs(w.log, k, first, p.1.rowId)
  }

  lemma CheckKeepsKey(session: string, plane: string, w: World, id: nat, req: Request, k: string,
                      first: Option<Request>)
    requires Enabled(plane, w, Check(id, req)) && Careful(w, Check(id, req))
    requires KeyOk(w, k, first) && RepliesOk(w, k, first)
    ensures
      var s := Check(id, req);
      var first' := if Misses(w, s, k) then Some(req) else first;
      KeyOk(Next(session, plane, w, s), k, first') && RepliesOk(Next(session, plane, w, s), k, first')
  {
    hide RowsUnder, RowUnder, StoreKey;
    var w' := Next(session, plane, w, Check(id, req));
    var before, after := InFlight(w.handlers, k), InFlight(w'.handlers, k);
    if Misses(w, Check(id, req), k) {
      assert before == {};
      assert forall p | p in w.replies :: StoreKey(p.0) != k || RowsUnder(w.log, k) == 1;
      assert after == {id};
    } else {
      assert after == before;
    }
  }

  lemma WriteKeepsKey(session: string, plane: string, w: World, id: nat, rowId: string, k: string,
                      first: Option<Request>)
    requires Enabled(plane, w, Write(id, rowId)) && KeyOk(w, k, first) && RepliesOk(w, k, first)
    ensures var w' := Next(session, plane, w, Write(id, rowId)); KeyOk(w', k, first) && RepliesOk(w', k, first)
  {
    hide RowsUnder, RowUnder, BuildIdempotencyKey;
    var w' := Next(session, plane, w, Write(id, rowId));
    var req := w.handlers[id].req;
    RowsAppend(w.log, RowOf(req, rowId), k);
    RowAppend(w.log, RowOf(req, rowId), k);
    assert InFlight(w'.handlers, k) == InFlight(w.handlers, k);
    assert KeyOfRow(RowOf(req, rowId)) == StoreKey(req);
    if StoreKey(req) == k {
      assert id in InFlight(w.handlers, k);
    }
  }

  lemma RemovalKeepsKey(session: string, plane: string, w: World, s: Step, k: string, first: Option<Request>)
    requires Enabled(plane, w, s) && Careful(w, s) && (s.Store? || s.Fail?)
    requires KeyOk(w, k, first) && RepliesOk(w, k, first)
    ensures var w' := Next(session, plane, w, s); KeyOk(w', k, first) && RepliesOk(w', k, first)
  {
    hide RowsUnder, RowUnder, StoreKey;
    var w' := Next(session, plane, w, s);
    var before := InFlight(w.handlers, k);
    assert InFlight(w'.handlers, k) == before - {s.id};
    if StoreKey(w.handlers[s.id].req) == k {
      assert s.id in before;
      assert before - {s.id} == {};
    } else {
      assert InFlight(w'.handlers, k) == before;
    }
  }

  lemma StepKeepsKey(session: string, plane: string, w: World, s: Step, k: string, first: Option<Request>)
    requires Enabled(plane, w, s) && Careful(w, s) && KeyOk(w, k, first) && RepliesOk(w, k, first)
    ensures
      var first' := if Misses(w, s, k) then Some(s.req) else first;
      KeyOk(Next(session, plane, w, s), k, first') && RepliesOk(Next(session, plane, w, s), k, first')
  {
    hide RowsUnder, StoreKey, InFlight, RowIs;
    match s
    case Check(id, req) => CheckKeepsKey(session, plane, w, id, req, k, first);
    case Write(id, rowId) => WriteKeepsKey(session, plane, w, id, rowId, k, first);
    case Store(_) => RemovalKeepsKey(session, plane, w, s, k, first);
    case Fail(_) => RemovalKeepsKey(session, plane, w, s, k, first);
    case _ =>
  }

  lemma NothingYet(k: string)
    ensures KeyOk(NOTHING, k, None) && RepliesOk(NOTHING, k, None)
  {
  }

  lemma {:induction false} RunKeepsKey(session: string, plane: string, steps: seq<Step>, k: string)
    requires CarefulRun(session, plane, steps)
    ensures
      var w, first := End(session, plane, NOTHING, steps), LastMiss(session, plane, NOTHING, steps, k);
      KeyOk(w, k, first) && RepliesOk(w, k, first)
    decreases |steps|
  {
    hide KeyOk, RepliesOk, Next, Careful, Misses;
    if steps == [] {
      NothingYet(k);
    } else {
      var init := steps[..|steps| - 1];
      RunKeepsKey(session, plane, init, k);
      StepKeepsKey(session, plane, End(session, plane, NOTHING, init), steps[|steps| - 1], k,
                   LastMiss(session, plane, NOTHING, init, k));
    }
  }

  lemma KeyOkBounds(w: World, k: string, first: Option<Request>)
    requires KeyOk(w, k, first)
    ensures RowsUnder(w.log, k) == 0 || (first.Some? && exists rowId :: RowIs(w.log, k, first, rowId))
    ensures RowsUnder(w.log, k) > 0 ==> AboutToWrite(w.handlers, k) == {}
  {
    hide RowsUnder, RowUnder, StoreKey;
    var busy := InFlight(w.handlers, k);
    assert AboutToWrite(w.handlers, k) <= busy;
    if busy != {} {
      var i: nat :| i in busy;
      assert w.handlers[i].Checked? || w.handlers[i].Wrote?;
      assert AboutToWrite(w.handlers, k) <= {i};
    }
  }

  /**
   Every run writes at most one row per key. The row is that of the last request whose check missed
   - one request more than handlers were lost before writing, so without losses the first processed
   one - and every reply ever sent for the key names it.
   */
  lemma AtMostOneRow(session: string, plane: string, steps: seq<Step>, k: string)
    requires CarefulRun(session, plane, steps)
    ensures
      var w, first := End(session, plane, NOTHING, steps), LastMiss(session, plane, NOTHING, steps, k);
      && RowsUnder(w.log, k) <= 1
      && (RowsUnder(w.log, k) == 1 ==>
            && first.Some? && RowUnder(w.log, k).kind == first.value.kind
            && RowUnder(w.log, k).insight == first.value.insight
            && MissCount(session, plane, NOTHING, steps, k) == DropCount(session, plane, NOTHING, steps, k) + 1)
      && (forall p | p in w.replies && StoreKey(p.0) == k ::
            RowsUnder(w.log, k) == 1 && RowUnder(w.log, k).rowId == p.1.rowId)
  {
    hide RowsUnder, RowUnder, StoreKey, Run, End, KeyOk, MissCount, DropCount, LastMiss;
    var w, first := End(session, plane, NOTHING, steps), LastMiss(session, plane, NOTHING, steps, k);
    RunKeepsKey(session, plane, steps, k);
    KeyOkBounds(w, k, first);
    RunConserves(session, plane, NOTHING, steps, k);
    NothingCommitted(k);
  }

  lemma NothingCommitted(k: string)
    ensures Committed(NOTHING, k) == 0
  {
    assert AboutToWrite(NOTHING.handlers, k) == {};
  }

  // ----- rows and actions -----------------------------------------------------------------------

  /** Rows and what may still become rows carry issued keys, and rows the plane's workspace. */
  ghost predicate Sourced(plane: string, w: World) {
    && (forall r | r in w.network :: r.key in w.issued)
    && (forall i | i in w.handlers :: w.handlers[i].req in w.network)
    && (forall i: nat | i < |w.log| :: w.log[i].key in w.issued && w.log[i].workspace == plane)
    && (forall a | a in w.client :: w.client[a].key in w.issued)
  }

  lemma StepKeepsSources(session: string, plane: string, w: World, s: Step)
    requires Enabled(plane, w, s) && Sourced(plane, w)
    ensures Sourced(plane, Next(session, plane, w, s))
  {
    hide StoreKey;
  }

  lemma {:induction false} RunKeepsSources(session: string, plane: string, steps: seq<Step>)
    requires Run(session, plane, NOTHING, steps)
    ensures Sourced(plane, End(session, plane, NOTHING, steps))
    decreases |steps|
  {
    hide Next, Enabled;
    if steps != [] {
      RunKeepsSources(session, plane, steps[..|steps| - 1]);
      hide Sourced;
      StepKeepsSources(session, plane, End(session, plane, NOTHING, steps[..|steps| - 1]), steps[|steps| - 1]);
    }
  }

  /** In one workspace, counting by the bare key is counting by the store key. */
  lemma {:induction false} CountsAgree(plane: string, log: seq<Row>, key: string)
    requires forall i: nat | i < |log| :: log[i].workspace == plane
    ensures CountByKey(log, key) == RowsUnder(log, BuildIdempotencyKey(plane, key))
    decreases |log|
  {
    if log != [] {
      var last := log[|log| - 1];
      CountsAgree(plane, log[..|log| - 1], key);
      SameWorkspaceKeys(plane, last.key, key);
    }
  }

  lemma SameWorkspaceKeys(ws: string, a: string, b: string)
    ensures BuildIdempotencyKey(ws, a) == BuildIdempotencyKey(ws, b) <==> a == b
  {
    var n := |"ws:" + ws + ":idem:"|;
    assert BuildIdempotencyKey(ws, a)[n..] == a && BuildIdempotencyKey(ws, b)[n..] == b;
  }

  lemma {:induction false} CountsTwo(log: seq<Row>, i: nat, j: nat)
    requires i < j < |log| && log[i].key == log[j].key
    ensures CountByKey(log, log[i].key) >= 2
    decreases |log|
  {
    if j < |log| - 1 { CountsTwo(log[..|log| - 1], i, j); } else { CountsOne(log[..j], i); }
  }

  lemma {:induction false} CountsOne(log: seq<Row>, i: nat)
    requires i < |log|
    ensures CountByKey(log, log[i].key) >= 1
    decreases |log|
  {
    if i < |log| - 1 { CountsOne(log[..|log| - 1], i); }
  }

  /** Distinct keys drawn from a finite set: no more of them than the set holds. */
  lemma {:induction false} NoMoreThan(log: seq<Row>, keys: set<string>)
    requires forall i: nat | i < |log| :: log[i].key in keys
    requires forall i: nat, j: nat | i < j < |log| :: log[i].key != log[j].key
    ensures |log| <= |keys|
  {
    if log != [] { NoMoreThan(log[..|log| - 1], keys - {log[|log| - 1].key}); }
  }

  /** The whole log: countByIdempotencyKey never exceeds one, and there are no more rows than actions. */
  lemma NoMoreRowsThanActions(session: string, plane: string, steps: seq<Step>)
    requires CarefulRun(session, plane, steps)
    ensures var w := End(session, plane, NOTHING, steps);
      (forall key :: CountByKey(w.log, key) <= 1) && |w.log| <= |w.issued|
  {
    hide CountByKey, RowsUnder, Next, Run, End, LastMiss, MissCount, DropCount, BuildIdempotencyKey;
    var w := End(session, plane, NOTHING, steps);
    RunKeepsSources(session, plane, steps);
    forall key ensures CountByKey(w.log, key) <= 1 {
      CountsAgree(plane, w.log, key);
      AtMostOneRow(session, plane, steps, BuildIdempotencyKey(plane, key));
    }
    forall i: nat, j: nat | i < j < |w.log| ensures w.log[i].key != w.log[j].key {
      if w.log[i].key == w.log[j].key { CountsTwo(w.log, i, j); }
    }
    NoMoreThan(w.log, w.issued);
  }

  // ----- the client's side ----------------------------------------------------------------------

  predicate Receives(steps: seq<Step>, insight: string) {
    exists i: nat :: i < |steps| && steps[i].Receive? && steps[i].req.insight == insight
  }

  /** Until a reply for the insight arrives, every tap on it goes on with the same key. */
  lemma {:induction false} KeyKeptUntilReply(session: string, plane: string, w0: World, steps: seq<Step>,
                                             insight: string)
    requires Run(session, plane, w0, steps) && !Receives(steps, insight)
    requires insight in w0.client && !w0.client[insight].settled
    ensures
      var c := End(session, plane, w0, steps).client;
      insight in c && !c[insight].settled && c[insight].key == w0.client[insight].key
    decreases |steps|
  {
    if steps != [] {
      var init, last := steps[..|steps| - 1], steps[|steps| - 1];
      assert forall i: nat | i < |init| :: init[i] == steps[i];
      KeyKeptUntilReply(session, plane, w0, init, insight);
      assert !(last.Receive? && last.req.insight == insight);
    }
  }

  // ----- what settled means ---------------------------------------------------------------------

  /** Some reply was sent for the key the insight's action carries now. */
  ghost predicate Answered(session: string, w: World, insight: string) {
    insight in w.client &&
    exists p :: p in w.replies && StoreKey(p.0) == BuildIdempotencyKey(session, w.client[insight].key)
  }

  ghost predicate SettledAreAnswered(session: string, w: World) {
    forall insight | insight in w.client && w.client[insight].settled :: Answered(session, w, insight)
  }

  /** What the screen could check before it settles: the reply belongs to the action there now. */
  predicate OwnReply(session: string, w: World, s: Step) {
    s.Receive? && s.req.insight in w.client ==>
      s.req.key == w.client[s.req.insight].key && s.req.workspace == session
  }

  predicate OwnReplies(session: string, plane: string, steps: seq<Step>)
    requires Run(session, plane, NOTHING, steps)
    decreases |steps|
  {
    steps == [] ||
    (OwnReplies(session, plane, steps[..|steps| - 1]) &&
     OwnReply(session, End(session, plane, NOTHING, steps[..|steps| - 1]), steps[|steps| - 1]))
  }

  /** Replies are never withdrawn, and only a tap changes an action's key. */
  lemma StepKeepsAnswered(session: string, plane: string, w: World, s: Step, insight: string)
    requires Enabled(plane, w, s) && Answered(session, w, insight) && !(s.Tap? && s.insight == insight)
    ensures Answered(session, Next(session, plane, w, s), insight)
  {
    hide BuildIdempotencyKey;
    var w' := Next(session, plane, w, s);
    var p :| p in w.replies && StoreKey(p.0) == BuildIdempotencyKey(session, w.client[insight].key);
    assert p in w'.replies;
  }

  /**
   The exact step: receiving a reply keeps every settled action answered if and only if the action it
   settles had a reply of its own.
   */
  lemma ReceiveExactly(session: string, plane: string, w: World, req: Request, reply: Reply)
    requires Enabled(plane, w, Receive(req, reply)) && SettledAreAnswered(session, w)
    ensures SettledAreAnswered(session, Next(session, plane, w, Receive(req, reply))) <==>
      req.insight !in w.client || Answered(session, w, req.insight)
  {
    hide BuildIdempotencyKey, StoreKey;
    var s := Receive(req, reply);
    var w' := Next(session, plane, w, s);
    assert w'.replies == w.replies;
    forall insight | insight in w.client
      ensures insight in w'.client && w'.client[insight].key == w.client[insight].key
      ensures Answered(session, w', insight) <==> Answered(session, w, insight)
    {
    }
    if req.insight in w.client { assert w'.client[req.insight].settled; }
  }

  lemma OwnReplyAnswers(session: string, w: World, req: Request, reply: Reply)
    requires (req, reply) in w.replies && req.insight in w.client && OwnReply(session, w, Receive(req, reply))
    ensures Answered(session, w, req.insight)
  {
    assert StoreKey((req, reply).0) == BuildIdempotencyKey(session, w.client[req.insight].key);
  }

  /** A reply under another key settles an action it does not belong to. */
  lemma ForeignReply(session: string, plane: string, w: World, req: Request, reply: Reply)
    requires Enabled(plane, w, Receive(req, reply)) && req.workspace == session
    requires req.insight in w.client && req.key != w.client[req.insight].key
    ensures
      var w' := Next(session, plane, w, Receive(req, reply));
      && w'.client[req.insight] == w.client[req.insight].(settled := true)
      && StoreKey(req) != BuildIdempotencyKey(session, w'.client[req.insight].key)
  {
    SameWorkspaceKeys(session, req.key, w.client[req.insight].key);
  }

  lemma StepKeepsSettledAnswered(session: string, plane: string, w: World, s: Step)
    requires Enabled(plane, w, s) && OwnReply(session, w, s) && SettledAreAnswered(session, w)
    ensures SettledAreAnswered(session, Next(session, plane, w, s))
  {
    hide Answered, BuildIdempotencyKey, StoreKey;
    var w' := Next(session, plane, w, s);
    if s.Receive? {
      ReceiveExactly(session, plane, w, s.req, s.reply);
      if s.req.insight in w.client { OwnReplyAnswers(session, w, s.req, s.reply); }
    } else {
      forall insight | insight in w'.client && w'.client[insight].settled ensures Answered(session, w', insight) {
        StepKeepsAnswered(session, plane, w, s, insight);
      }
    }
  }

  lemma {:induction false} RunKeepsSettledAnswered(session: string, plane: string, steps: seq<Step>)
    requires Run(session, plane, NOTHING, steps) && OwnReplies(session, plane, steps)
    ensures SettledAreAnswered(session, End(session, plane, NOTHING, steps))
    decreases |steps|
  {
    hide Next, SettledAreAnswered, OwnReply;
    if steps == [] {
      NothingSettled(session);
    } else {
      var init := steps[..|steps| - 1];
      RunKeepsSettledAnswered(session, plane, init);
      StepKeepsSettledAnswered(session, plane, End(session, plane, NOTHING, init), steps[|steps| - 1]);
    }
  }

  lemma NothingSettled(session: string)
    ensures SettledAreAnswered(session, NOTHING)
  {
  }

  /**
   If every reply is matched against the key before it settles, a settled action has exactly one row,
   the one its replies name.
   */
  lemma SettledMeansOneRow(session: string, plane: string, steps: seq<Step>, insight: string)
    requires CarefulRun(session, plane, steps) && OwnReplies(session, plane, steps)
    requires
      var c := End(session, plane, NOTHING, steps).client;
      insight in c && c[insight].settled
    ensures
      var w := End(session, plane, NOTHING, steps);
      RowsUnder(w.log, BuildIdempotencyKey(session, w.client[insight].key)) == 1
  {
    hide End, OwnReplies, RowsUnder, RowUnder, StoreKey, LastMiss, MissCount, DropCount;
    var w := End(session, plane, NOTHING, steps);
    RunKeepsSettledAnswered(session, plane, steps);
    assert Answered(session, w, insight);
    AtMostOneRow(session, plane, steps, BuildIdempotencyKey(session, w.client[insight].key));
  }

  // ----- what the provisos are for --------------------------------------------------------------

  lemma ExtendRun(session: string, plane: string, steps: seq<Step>, s: Step)
    requires Run(session, plane, NOTHING, steps) && Enabled(plane, End(session, plane, NOTHING, steps), s)
    ensures Run(session, plane, NOTHING, steps + [s])
    ensures End(session, plane, NOTHING, steps + [s]) == Next(session, plane, End(session, plane, NOTHING, steps), s)
    ensures CarefulRun(session, plane, steps) && Careful(End(session, plane, NOTHING, steps), s) ==>
      CarefulRun(session, plane, steps + [s])
  {
    assert (steps + [s])[..|steps|] == steps;
  }

  lemma EmptyRun(ws: string)
    ensures CarefulRun(ws, ws, []) && End(ws, ws, NOTHING, []) == NOTHING
    ensures Run(ws, ws, NOTHING, [])
  {
  }

  /** Where two copies of the request r both passed their checks before either wrote. */
  lemma TwoChecksPass(ws: string, r: Request) returns (steps: seq<Step>)
    requires ws != "" && r == Request(ws, "i", APPROVE, None, "u")
    ensures Run(ws, ws, NOTHING, steps)
    ensures
      var w := End(ws, ws, NOTHING, steps);
      w.log == [] && 0 in w.handlers && w.handlers[0] == Checked(r) && 1 in w.handlers && w.handlers[1] == Checked(r)
  {
    hide StoreKey, Run, End;
    EmptyRun(ws);
    steps := [] + [Tap("i", APPROVE, None, "u")];
    ExtendRun(ws, ws, [], Tap("i", APPROVE, None, "u"));
    ExtendRun(ws, ws, steps, Check(0, r));
    ExtendRun(ws, ws, steps + [Check(0, r)], Check(1, r));
    steps := steps + [Check(0, r)] + [Check(1, r)];
  }

  /** Two copies of one request checked before either is stored: two rows for one action. */
  lemma OverlappingChecksWriteTwice(ws: string)
    requires ws != ""
    ensures exists steps: seq<Step>, k: string ::
      Run(ws, ws, NOTHING, steps) && RowsUnder(End(ws, ws, NOTHING, steps).log, k) == 2
  {
    hide Run, End, RowsUnder, BuildIdempotencyKey;
    var r := Request(ws, "i", APPROVE, None, "u");
    var steps := TwoChecksPass(ws, r);
    ExtendRun(ws, ws, steps, Write(0, "a"));
    ExtendRun(ws, ws, steps + [Write(0, "a")], Write(1, "b"));
    RowsAppend([], RowOf(r, "a"), StoreKey(r));
    RowsAppend([] + [RowOf(r, "a")], RowOf(r, "b"), StoreKey(r));
    NoRows(StoreKey(r));
  }

  lemma NoRows(k: string)
    ensures RowsUnder([], k) == 0
  {
  }

  lemma NothingInFlight(handlers: map<nat, Handler>, k: string)
    requires handlers == map[]
    ensures InFlight(handlers, k) == {}
  {
  }

  /** Where r was answered twice: once by the handler that wrote its row, once from the store. */
  lemma AnsweredTwice(ws: string, r: Request) returns (steps: seq<Step>)
    requires ws != "" && r == Request(ws, "i", APPROVE, None, "u")
    ensures CarefulRun(ws, ws, steps)
    ensures
      var w := End(ws, ws, NOTHING, steps);
      && w.client == map["i" := Pending("u", APPROVE, None, false)] && w.issued == {"u"}
      && w.log == [RowOf(r, "a")] && w.replies == {(r, Reply("a", false)), (r, Reply("a", true))}
  {
    hide BuildIdempotencyKey, Run, End, CarefulRun, InFlight;
    EmptyRun(ws);
    steps := [] + [Tap("i", APPROVE, None, "u")];
    ExtendRun(ws, ws, [], Tap("i", APPROVE, None, "u"));
    NothingInFlight(End(ws, ws, NOTHING, steps).handlers, StoreKey(r));
    ExtendRun(ws, ws, steps, Check(0, r));
    steps := steps + [Check(0, r)];
    ExtendRun(ws, ws, steps, Write(0, "a"));
    steps := steps + [Write(0, "a")];
    ExtendRun(ws, ws, steps, Store(0));
    steps := steps + [Store(0)];
    NothingInFlight(End(ws, ws, NOTHING, steps).handlers, StoreKey(r));
    ExtendRun(ws, ws, steps, Check(1, r));
    steps := steps + [Check(1, r)];
  }

  /**
   settle is told the insight, not the key: the second reply to an old action settles the new one,
   although no row was ever written for it and everything else went well.
   */
  lemma LateReplySettlesTheNextAction(ws: string)
    requires ws != ""
    ensures exists steps: seq<Step> ::
      CarefulRun(ws, ws, steps) &&
      var w := End(ws, ws, NOTHING, steps);
      && "i" in w.client && w.client["i"].settled
      && (forall n: nat | n < |w.log| :: w.log[n].key != w.client["i"].key)
  {
    hide BuildIdempotencyKey, Run, End, CarefulRun, InFlight;
    var r := Request(ws, "i", APPROVE, None, "u");
    var steps := AnsweredTwice(ws, r);
    RunOf(ws, steps);
    ExtendRun(ws, ws, steps, Receive(r, Reply("a", false)));
    steps := steps + [Receive(r, Reply("a", false))];
    ExtendRun(ws, ws, steps, Tap("i", REJECT, None, "v"));
    steps := steps + [Tap("i", REJECT, None, "v")];
    ExtendRun(ws, ws, steps, Receive(r, Reply("a", true)));
    steps := steps + [Receive(r, Reply("a", true))];
    assert "u" != "v";
  }

  lemma RunOf(ws: string, steps: seq<Step>)
    requires CarefulRun(ws, ws, steps)
    ensures Run(ws, ws, NOTHING, steps)
  {
  }
}
