/**
 The pieces of the morning-brief idempotency protocol: the client's key lifecycle, the server's
 dedup store and its keys, the append-only decision log, and the check / write / store handler.
 */
module Idempotency {
  import opened Options

  datatype Kind = APPROVE | REJECT | EDIT

  // ----- apps/mobile/src/domain/idempotency-client.ts -------------------------------------------

  datatype Pending = Pending(key: string, kind: Kind, payload: Option<string>, settled: bool)

  type PendingMap = map<string, Pending>

  /** An unsettled action keeps its key whatever the user taps now; otherwise the fresh key is used. */
  function Initiated(m: PendingMap, insight: string, kind: Kind, payload: Option<string>, freshKey: string): Pending {
    if insight in m && !m[insight].settled then m[insight].(kind := kind, payload := payload)
    else Pending(freshKey, kind, payload, false)
  }

  function Settled(m: PendingMap, insight: string): PendingMap {
    if insight in m then m[insight := m[insight].(settled := true)] else m
  }

  class ClientIdempotencyStore {
    var pending: PendingMap

    constructor ()
      ensures pending == map[]
    {
      pending := map[];
    }

    method Initiate(insight: string, kind: Kind, payload: Option<string>, freshKey: string) returns (action: Pending)
      modifies this
      ensures
        var open := insight in old(pending) && !old(pending)[insight].settled;
        action == Pending(if open then old(pending)[insight].key else freshKey, kind, payload, false)
      ensures action == Initiated(old(pending), insight, kind, payload, freshKey)
      ensures pending == old(pending)[insight := action]
    {
      if insight in pending {
        var existing := pending[insight];
        if !existing.settled {
          action := Pending(existing.key, kind, payload, existing.settled);
          pending := pending[insight := action];
          return;
        }
      }
      action := Pending(freshKey, kind, payload, false);
      pending := pending[insight := action];
    }

    method Settle(insight: string)
      modifies this
      ensures insight in old(pending) ==> pending == old(pending)[insight := old(pending)[insight].(settled := true)]
      ensures insight !in old(pending) ==> pending == old(pending)
      ensures pending == Settled(old(pending), insight)
    {
      if insight in pending {
        pending := pending[insight := pending[insight].(settled := true)];
      }
    }

    function Get(insight: string): (action: Option<Pending>)
      reads this
      ensures action.Some? <==> insight in pending
      ensures action.Some? ==> action.value == pending[insight]
    {
      if insight in pending then Some(pending[insight]) else None
    }
  }

  // ----- apps/api-gateway/src/domain/idempotency.ts ---------------------------------------------

  function BuildIdempotencyKey(workspace: string, key: string): string {
    "ws:" + workspace + ":idem:" + key
  }

  /** Keys are UUIDs, so they contain no colon. */
  predicate ColonFree(s: string) { ':' !in s }

  lemma ColonInTail(a: string, b: string, x: string, y: string)
    requires a + ":" + b == x + ":" + y && |a| < |x|
    ensures !ColonFree(b)
  {
    assert (x + ":" + y)[|x|] == ':';
    assert (a + ":" + b)[|x|] == b[|x| - |a| - 1];
  }

  /** A colon-free tail is cut off at the last colon. */
  lemma LastColon(a: string, b: string, x: string, y: string)
    requires a + ":" + b == x + ":" + y && ColonFree(b) && ColonFree(y)
    ensures a == x && b == y
  {
    if |a| < |x| { ColonInTail(a, b, x, y); }
    if |x| < |a| { ColonInTail(x, y, a, b); }
    var s := a + ":" + b;
    assert a == s[..|a|] && x == s[..|x|] && b == s[|a| + 1..] && y == s[|x| + 1..];
  }

  /** For colon-free keys the store key determines workspace and key: tenants cannot collide. */
  lemma StoreKeyInjective(ws1: string, key1: string, ws2: string, key2: string)
    requires ColonFree(key1) && ColonFree(key2)
    ensures BuildIdempotencyKey(ws1, key1) == BuildIdempotencyKey(ws2, key2) <==> ws1 == ws2 && key1 == key2
  {
    if BuildIdempotencyKey(ws1, key1) == BuildIdempotencyKey(ws2, key2) {
      var a, b := "ws:" + ws1 + ":idem", "ws:" + ws2 + ":idem";
      assert a + ":" + key1 == BuildIdempotencyKey(ws1, key1);
      assert b + ":" + key2 == BuildIdempotencyKey(ws2, key2);
      LastColon(a, key1, b, key2);
      assert ws1 == a[3..|a| - 5] && ws2 == b[3..|b| - 5];
    }
  }

  /** ws1 is longer than ws2 by some y that reappears in front of key2. */
  ghost predicate Shifted(ws1: string, key1: string, ws2: string, key2: string) {
    exists y: string :: ws1 == ws2 + y && y + (":idem:" + key1) == ":idem:" + key2
  }

  lemma LongerIsShifted(ws1: string, key1: string, ws2: string, key2: string)
    requires BuildIdempotencyKey(ws1, key1) == BuildIdempotencyKey(ws2, key2) && |ws1| >= |ws2|
    ensures Shifted(ws1, key1, ws2, key2)
  {
    var s, n, m := BuildIdempotencyKey(ws1, key1), |ws1| + 3, |ws2| + 3;
    assert ws1 == s[3..n] && ws2 == s[3..m] && s[n..] == ":idem:" + key1 && s[m..] == ":idem:" + key2;
    var y := s[m..n];
    assert ws1 == ws2 + y && y + s[n..] == s[m..];
  }

  lemma ShiftedCollides(ws1: string, key1: string, ws2: string, key2: string)
    requires Shifted(ws1, key1, ws2, key2)
    ensures BuildIdempotencyKey(ws1, key1) == BuildIdempotencyKey(ws2, key2)
  {
    var y: string :| ws1 == ws2 + y && y + (":idem:" + key1) == ":idem:" + key2;
    assert BuildIdempotencyKey(ws1, key1) == "ws:" + ws2 + (y + (":idem:" + key1));
    assert BuildIdempotencyKey(ws2, key2) == "ws:" + ws2 + (":idem:" + key2);
  }

  /** In general two pairs share a store key exactly when one workspace id runs on into the other's key. */
  lemma CollideExactly(ws1: string, key1: string, ws2: string, key2: string)
    ensures BuildIdempotencyKey(ws1, key1) == BuildIdempotencyKey(ws2, key2) <==>
      Shifted(ws1, key1, ws2, key2) || Shifted(ws2, key2, ws1, key1)
  {
    hide BuildIdempotencyKey;
    if Shifted(ws1, key1, ws2, key2) { ShiftedCollides(ws1, key1, ws2, key2); }
    if Shifted(ws2, key2, ws1, key1) { ShiftedCollides(ws2, key2, ws1, key1); }
    if BuildIdempotencyKey(ws1, key1) == BuildIdempotencyKey(ws2, key2) {
      if |ws1| >= |ws2| {
        LongerIsShifted(ws1, key1, ws2, key2);
      } else {
        LongerIsShifted(ws2, key2, ws1, key1);
      }
    }
  }

  /** Such a pair, with colons in a key that no UUID has. */
  lemma ColonsCollide()
    ensures BuildIdempotencyKey("a", "b:idem:c") == BuildIdempotencyKey("a:idem:b", "c")
  {
  }

  // ----- the decision log and the handler -------------------------------------------------------

  datatype Row = Row(rowId: string, workspace: string, insight: string, kind: Kind, key: string)

  datatype Request = Request(workspace: string, insight: string, kind: Kind, payload: Option<string>, key: string)

  datatype Reply = Reply(rowId: string, replay: bool)

  function CountByKey(rows: seq<Row>, key: string): nat
    decreases |rows|
  {
    if rows == [] then 0
    else CountByKey(rows[..|rows| - 1], key) + if rows[|rows| - 1].key == key then 1 else 0
  }

  class InMemoryDecisionLog {
    var rows: seq<Row>

    constructor ()
      ensures rows == []
    {
      rows := [];
    }

    method Insert(row: Row)
      modifies this
      ensures rows == old(rows) + [row]
    {
      rows := rows + [row];
    }

    method CountByIdempotencyKey(key: string) returns (n: nat)
      ensures n == CountByKey(rows, key)
    {
      n := 0;
      for i := 0 to |rows|
        invariant n == CountByKey(rows[..i], key)
      {
        assert rows[..i + 1][..i] == rows[..i];
        if rows[i].key == key {
          n := n + 1;
        }
      }
      assert rows[..|rows|] == rows;
    }
  }

  class InMemoryIdempotencyStore {
    var store: map<string, Reply>

    constructor ()
      ensures store == map[]
    {
      store := map[];
    }

    function Get(key: string): Option<Reply>
      reads this
    {
      if key in store then Some(store[key]) else None
    }

    method Set(key: string, value: Reply)
      modifies this
      ensures store == old(store)[key := value]
    {
      store := store[key := value];
    }
  }

  datatype Response = Unauthorized | Answered(reply: Reply)

  function RowOf(r: Request, rowId: string): Row { Row(rowId, r.workspace, r.insight, r.kind, r.key) }

  function StoreKey(r: Request): string { BuildIdempotencyKey(r.workspace, r.key) }

  /** submitResponse as one uninterrupted call: check, else write and store. */
  function Handled(
    plane: string, store: map<string, Reply>, rows: seq<Row>, r: Request, rowId: string)
    : (map<string, Reply>, seq<Row>, Response)
  {
    var k := StoreKey(r);
    if k in store then (store, rows, Answered(store[k].(replay := true)))
    else if r.workspace == "" || r.workspace != plane then (store, rows, Unauthorized)
    else (store[k := Reply(rowId, false)], rows + [RowOf(r, rowId)], Answered(Reply(rowId, false)))
  }

  /** The router's mutation over its store and the data plane's log. */
  method SubmitResponse(plane: string, store: InMemoryIdempotencyStore, log: InMemoryDecisionLog, r: Request,
                        rowId: string)
    returns (response: Response)
    modifies store, log
    ensures (store.store, log.rows, response) == Handled(plane, old(store.store), old(log.rows), r, rowId)
  {
    var cached := store.Get(StoreKey(r));
    if cached.Some? {
      return Answered(cached.value.(replay := true));
    }
    if r.workspace == "" || r.workspace != plane {
      return Unauthorized;
    }
    log.Insert(RowOf(r, rowId));
    store.Set(StoreKey(r), Reply(rowId, false));
    response := Answered(Reply(rowId, false));
  }
}
