/**
 Whole runs of the idempotency protocol: a client that taps and retries, a network that keeps,
 duplicates and reorders requests and loses replies, and handlers whose check, write and store
 steps interleave with those of other handlers.
 */
module IdempotencyRuns {
  import opened Options
  import opened Idempotency

  /** A handler past its check: about to write its row, or about to store its reply. */
  datatype Handler = Checked(req: Request) | Wrote(req: Request, rowId: string)

  datatype World = World(
    client: PendingMap,
    issued: set<string>,             // every key ever generated
    network: set<Request>,           // every request ever sent; any may arrive at any time, repeatedly
    handlers: map<nat, Handler>,     // in flight on the server
    store: map<string, Reply>,
    log: seq<Row>,
    replies: set<(Request, Reply)>)  // every reply ever sent; any may be lost or arrive late

  datatype Step =
    | Tap(insight: string, kind: Kind, payload: Option<string>, freshKey: string)
    | OtherSends(foreign: Request)
    | Check(id: nat, req: Request)
    | Write(id: nat, rowId: string)
    | Store(id: nat)
    | Fail(id: nat)
    | Receive(req: Request, reply: Reply)

  const NOTHING := World(map[], {}, {}, map[], map[], [], {})

  /** session is the client's workspace, plane the one the data plane serves. */
  predicate Enabled(plane: string, w: World, s: Step) {
    match s
    case Tap(_, _, _, freshKey) => freshKey !in w.issued
    case OtherSends(r) => true
    case Check(id, req) => req in w.network && id !in w.handlers
    case Write(id, _) => id in w.handlers && w.handlers[id].Checked? && w.handlers[id].req.workspace == plane != ""
    case Store(id) => id in w.handlers && w.handlers[id].Wrote?
    case Fail(id) => id in w.handlers
    case Receive(req, reply) => (req, reply) in w.replies
  }

  /**
   What nothing forbids: anyone sends anything, anything sent arrives again and again, handlers die at any
   moment, and every reply ever sent may still be received.
   */
  lemma NothingForbids(plane: string, w: World, r: Request, reply: Reply, id: nat)
    ensures Enabled(plane, w, OtherSends(r))
    ensures r in w.network && id !in w.handlers ==> Enabled(plane, w, Check(id, r))
    ensures id in w.handlers ==> Enabled(plane, w, Fail(id))
    ensures (r, reply) in w.replies ==> Enabled(plane, w, Receive(r, reply))
  {
  }

  function Next(session: string, plane: string, w: World, s: Step): World
    requires Enabled(plane, w, s)
  {
    match s
    case Tap(insight, kind, payload, freshKey) =>
      var action := Initiated(w.client, insight, kind, payload, freshKey);
      w.(client := w.client[insight := action],
         issued := w.issued + {action.key},
         network := w.network + {Request(session, insight, kind, payload, action.key)})
    case OtherSends(r) => w.(issued := w.issued + {r.key}, network := w.network + {r})
    case Check(id, req) =>
      if StoreKey(req) in w.store then w.(replies := w.replies + {(req, w.store[StoreKey(req)].(replay := true))})
      else w.(handlers := w.handlers[id := Checked(req)])
    case Write(id, rowId) =>
      var req := w.handlers[id].req;
      w.(handlers := w.handlers[id := Wrote(req, rowId)], log := w.log + [RowOf(req, rowId)])
    case Store(id) =>
      var h := w.handlers[id];
      w.(handlers := w.handlers - {id},
         store := w.store[StoreKey(h.req) := Reply(h.rowId, false)],
         replies := w.replies + {(h.req, Reply(h.rowId, false))})
    case Fail(id) => w.(handlers := w.handlers - {id})
    case Receive(req, _) => w.(client := Settled(w.client, req.insight))
  }

  predicate Run(session: string, plane: string, w0: World, steps: seq<Step>)
    decreases |steps|, 0
  {
    steps == [] ||
    (Run(session, plane, w0, steps[..|steps| - 1]) &&
     Enabled(plane, End(session, plane, w0, steps[..|steps| - 1]), steps[|steps| - 1]))
  }

  function End(session: string, plane: string, w0: World, steps: seq<Step>): World
    requires Run(session, plane, w0, steps)
    decreases |steps|, 1
  {
    if steps == [] then w0
    else Next(session, plane, End(session, plane, w0, steps[..|steps| - 1]), steps[|steps| - 1])
  }

  /** A handler left alone does in its steps exactly what the router's mutation does in one call. */
  lemma StepsAreTheCall(session: string, plane: string, w: World, id: nat, r: Request, rowId: string)
    requires r in w.network && id !in w.handlers
    ensures
      var (store, log, response) := Handled(plane, w.store, w.log, r, rowId);
      var checked := Next(session, plane, w, Check(id, r));
      if StoreKey(r) in w.store then
        checked == w.(replies := w.replies + {(r, response.reply)})
      else if !Enabled(plane, checked, Write(id, rowId)) then
        response.Unauthorized? && checked.(handlers := w.handlers) == w
      else
        var wrote := Next(session, plane, checked, Write(id, rowId));
        && Enabled(plane, wrote, Store(id))
        && Next(session, plane, wrote, Store(id)) ==
           w.(store := store, log := log, replies := w.replies + {(r, response.reply)})
  {
    hide StoreKey;
    assert w.handlers[id := Checked(r)][id := Wrote(r, rowId)] - {id} == w.handlers;
  }

  // ----- counting -------------------------------------------------------------------------------

  function KeyOfRow(r: Row): string { BuildIdempotencyKey(r.workspace, r.key) }

  /** The rows written under one store key. */
  function RowsUnder(log: seq<Row>, k: string): nat
    decreases |log|
  {
    if log == [] then 0 else RowsUnder(log[..|log| - 1], k) + if KeyOfRow(log[|log| - 1]) == k then 1 else 0
  }

  /** The handlers that have missed the store under k and not written yet. */
  function AboutToWrite(handlers: map<nat, Handler>, k: string): set<nat> {
    set id | id in handlers && handlers[id].Checked? && StoreKey(handlers[id].req) == k
  }

  function InFlight(handlers: map<nat, Handler>, k: string): set<nat> {
    set id | id in handlers && StoreKey(handlers[id].req) == k
  }

  /** Rows written plus rows still to come from handlers already past their check. */
  function Committed(w: World, k: string): nat { RowsUnder(w.log, k) + |AboutToWrite(w.handlers, k)| }

  /** s is a check that misses the store under k. */
  predicate Misses(w: World, s: Step, k: string) {
    s.Check? && StoreKey(s.req) == k && k !in w.store
  }

  /** s loses a handler that has not written yet. */
  predicate Drops(w: World, s: Step, k: string) {
    s.Fail? && s.id in AboutToWrite(w.handlers, k)
  }

  function MissCount(session: string, plane: string, w0: World, steps: seq<Step>, k: string): nat
    requires Run(session, plane, w0, steps)
    decreases |steps|
  {
    if steps == [] then 0
    else
      MissCount(session, plane, w0, steps[..|steps| - 1], k) +
      if Misses(End(session, plane, w0, steps[..|steps| - 1]), steps[|steps| - 1], k) then 1 else 0
  }

  function DropCount(session: string, plane: string, w0: World, steps: seq<Step>, k: string): nat
    requires Run(session, plane, w0, steps)
    decreases |steps|
  {
    if steps == [] then 0
    else
      DropCount(session, plane, w0, steps[..|steps| - 1], k) +
      if Drops(End(session, plane, w0, steps[..|steps| - 1]), steps[|steps| - 1], k) then 1 else 0
  }

  // ----- any interleaving -----------------------------------------------------------------------

  lemma RowsAppend(log: seq<Row>, r: Row, k: string)
    ensures RowsUnder(log + [r], k) == RowsUnder(log, k) + if KeyOfRow(r) == k then 1 else 0
  {
    assert (log + [r])[..|log|] == log;
  }

  lemma AdmissionAdds(handlers: map<nat, Handler>, id: nat, req: Request, k: string)
    requires id !in handlers
    ensures |AboutToWrite(handlers[id := Checked(req)], k)| ==
            |AboutToWrite(handlers, k)| + if StoreKey(req) == k then 1 else 0
  {
    hide StoreKey;
    var before := AboutToWrite(handlers, k);
    assert AboutToWrite(handlers[id := Checked(req)], k) == if StoreKey(req) == k then before + {id} else before;
  }

  lemma CheckConserves(session: string, plane: string, w: World, id: nat, req: Request, k: string)
    requires Enabled(plane, w, Check(id, req))
    ensures
      var s := Check(id, req);
      Committed(Next(session, plane, w, s), k) == Committed(w, k) + (if Misses(w, s, k) then 1 else 0)
  {
    hide RowsUnder, StoreKey, AboutToWrite;
    AdmissionAdds(w.handlers, id, req, k);
  }

  lemma WriteConserves(session: string, plane: string, w: World, id: nat, rowId: string, k: string)
    requires Enabled(plane, w, Write(id, rowId))
    ensures Committed(Next(session, plane, w, Write(id, rowId)), k) == Committed(w, k)
  {
    hide RowsUnder, BuildIdempotencyKey;
    var w' := Next(session, plane, w, Write(id, rowId));
    var before := AboutToWrite(w.handlers, k);
    RowsAppend(w.log, RowOf(w.handlers[id].req, rowId), k);
    assert AboutToWrite(w'.handlers, k) == before - {id};
    assert id in before <==> StoreKey(w.handlers[id].req) == k;
  }

  lemma RemovalConserves(session: string, plane: string, w: World, s: Step, k: string)
    requires Enabled(plane, w, s) && (s.Store? || s.Fail?)
    ensures
      Committed(Next(session, plane, w, s), k) + (if Drops(w, s, k) then 1 else 0) == Committed(w, k)
  {
    hide RowsUnder, StoreKey;
    var w' := Next(session, plane, w, s);
    var before := AboutToWrite(w.handlers, k);
    assert AboutToWrite(w'.handlers, k) == before - {s.id};
  }

  /** The committed rows of a key change by misses and dropped handlers, and by nothing else. */
  lemma StepConserves(session: string, plane: string, w: World, s: Step, k: string)
    requires Enabled(plane, w, s)
    ensures
      Committed(Next(session, plane, w, s), k) + (if Drops(w, s, k) then 1 else 0) ==
      Committed(w, k) + (if Misses(w, s, k) then 1 else 0)
  {
    hide RowsUnder, StoreKey, AboutToWrite;
    match s
    case Check(id, req) => CheckConserves(session, plane, w, id, req, k);
    case Write(id, rowId) => WriteConserves(session, plane, w, id, rowId, k);
    case Store(id) => RemovalConserves(session, plane, w, s, k);
    case Fail(id) => RemovalConserves(session, plane, w, s, k);
    case _ =>
  }

  /** Conservation over whole runs, whatever the interleaving. */
  lemma {:induction false} RunConserves(session: string, plane: string, w0: World, steps: seq<Step>, k: string)
    requires Run(session, plane, w0, steps)
    ensures
      Committed(End(session, plane, w0, steps), k) + DropCount(session, plane, w0, steps, k) ==
      Committed(w0, k) + MissCount(session, plane, w0, steps, k)
    decreases |steps|
  {
    hide Next, Committed, Misses, Drops;
    if steps != [] {
      var init := steps[..|steps| - 1];
      RunConserves(session, plane, w0, init, k);
      StepConserves(session, plane, End(session, plane, w0, init), steps[|steps| - 1], k);
    }
  }

  /** A stored key stays stored, so its checks only ever hit. */
  lemma {:induction false} StoredForGood(session: string, plane: string, w0: World, steps: seq<Step>, k: string)
    requires Run(session, plane, w0, steps) && k in w0.store
    ensures k in End(session, plane, w0, steps).store && MissCount(session, plane, w0, steps, k) == 0
    decreases |steps|
  {
    if steps != [] { StoredForGood(session, plane, w0, steps[..|steps| - 1], k); }
  }

  /**
   In any interleaving, from the first store of a key on, no row comes from a request checked
   later: the log gains at most what handlers already past their check still owe.
   */
  lemma NoRowAfterStore(session: string, plane: string, w0: World, steps: seq<Step>, k: string)
    requires Run(session, plane, w0, steps) && k in w0.store
    ensures RowsUnder(End(session, plane, w0, steps).log, k) <= RowsUnder(w0.log, k) + |AboutToWrite(w0.handlers, k)|
  {
    RunConserves(session, plane, w0, steps, k);
    StoredForGood(session, plane, w0, steps, k);
  }
}
