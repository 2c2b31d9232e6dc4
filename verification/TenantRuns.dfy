/**
 Workspaces do not touch each other: whatever is delivered, redelivered, dropped or merged for others, the
 rows of one workspace in both stores stay as they are.
 */
module TenantRuns {
  import opened Options
  import opened ReplacingMergeTree
  import opened FactsConsumer
  import opened FactsMapping
  import opened DeliveryMeaning
  import opened ReplayConvergence

  /** The message names another workspace than x, or none. */
  predicate OfAnother(m: Message, x: string) { m.value.Parsed? ==> m.value.value.workspaceId != x }

  function OrdersOf(t: PgOrders, x: string): PgOrders { map k | k in t && k.workspaceId == x :: t[k] }

  function LinesIn(t: PgLines, x: string): PgLines { map k | k in t && k.workspaceId == x :: t[k] }

  /** What a FINAL read shows of x. */
  function OrdersShownTo(s: Store<OrderKey, ChOrder>, x: string): set<Row<OrderKey, ChOrder>> {
    set r | r in FinalRows(Rows(s)) && r.key.workspaceId == x
  }

  function LinesShownTo(s: Store<LineKey, ChLine>, x: string): set<Row<LineKey, ChLine>> {
    set r | r in FinalRows(Rows(s)) && r.key.workspaceId == x
  }

  /** x sees the same in all four tables. */
  predicate SameFor(x: string, a: World, b: World) {
    && OrdersOf(a.pgOrders, x) == OrdersOf(b.pgOrders, x) && LinesIn(a.pgLines, x) == LinesIn(b.pgLines, x)
    && OrdersShownTo(a.chOrders, x) == OrdersShownTo(b.chOrders, x)
    && LinesShownTo(a.chLines, x) == LinesShownTo(b.chLines, x)
  }

  /** A block of other keys leaves the FINAL rows of a key as they are. */
  lemma InsertElsewhere<K, D>(s: Store<K, D>, block: seq<Fact<K, D>>, r: Row<K, D>)
    requires forall i | 0 <= i < |block| :: block[i].key != r.key
    ensures r in FinalRows(Rows(Apply(s, Insert(block)))) <==> r in FinalRows(Rows(s))
  {
    var added := Stamped(block, s.nextStamp);
    assert Rows(Apply(s, Insert(block))) == Rows(s) + added;
  }

  lemma OrdersElsewhere(s: Store<OrderKey, ChOrder>, block: seq<Fact<OrderKey, ChOrder>>, x: string)
    requires forall i | 0 <= i < |block| :: block[i].key.workspaceId != x
    ensures OrdersShownTo(Apply(s, Insert(block)), x) == OrdersShownTo(s, x)
  {
    hide FinalRows, Rows, Apply;
    forall r: Row<OrderKey, ChOrder> | r.key.workspaceId == x
      ensures r in FinalRows(Rows(Apply(s, Insert(block)))) <==> r in FinalRows(Rows(s))
    {
      InsertElsewhere(s, block, r);
    }
  }

  lemma LinesElsewhere(s: Store<LineKey, ChLine>, block: seq<Fact<LineKey, ChLine>>, x: string)
    requires forall i | 0 <= i < |block| :: block[i].key.workspaceId != x
    ensures LinesShownTo(Apply(s, Insert(block)), x) == LinesShownTo(s, x)
  {
    hide FinalRows, Rows, Apply;
    forall r: Row<LineKey, ChLine> | r.key.workspaceId == x
      ensures r in FinalRows(Rows(Apply(s, Insert(block)))) <==> r in FinalRows(Rows(s))
    {
      InsertElsewhere(s, block, r);
    }
  }

  lemma LinesKept(lib: Lib, before: PgLines, after: PgLines, ws: string, p: Payload, x: string)
    requires LinesLanded(lib, before, after, ws, p) && ws != x
    ensures LinesIn(after, x) == LinesIn(before, x)
  {
    hide PgLineOf, LineId;
  }

  /** A delivery for another workspace changes nothing for x, whatever its outcome. */
  lemma DeliveryForAnother(lib: Lib, w: World, m: Message, now: nat, o: Outcome, x: string)
    requires OfAnother(m, x)
    ensures SameFor(x, w, Deliver(lib, w, m, now, o))
  {
    hide Deliver, Landable, LinesLanded, Apply, FinalRows, Rows, ChOrderOf, ChLineOf, OrderOf, LineId, Cancellable;
    DeliversExactly(lib, w, m, now, o);
    if Landable(lib, m) && o.PgCommits? {
      LandableIsParsed(lib, m);
      var w', e, p := Deliver(lib, w, m, now, o), m.value.value, m.value.value.payload.value;
      LinesKept(lib, w.pgLines, w'.pgLines, e.workspaceId, p, x);
      if Cancellable(lib, p) && !o.orders.Dropped? {
        var fact := w'.pgOrders[OrderKey(e.workspaceId, "SHOPIFY", p.shopifyOrderId.GetOr(""))].fact;
        var block :| OrderBlock(lib, m, fact, now, block) && w'.chOrders == Apply(w.chOrders, Insert(block));
        OrdersElsewhere(w.chOrders, block, x);
      }
      if Cancellable(lib, p) && o.orders.Acked? && !o.lines.Dropped? && Items(p) != [] {
        var block :| ItemBlock(lib, m, now, block) && w'.chLines == Apply(w.chLines, Insert(block));
        LinesElsewhere(w.chLines, block, x);
      }
    }
  }

  /** No delivery of the run is of a message of x. */
  ghost predicate ForOthers(lib: Lib, log: seq<Message>, s0: State, steps: seq<Step>, x: string)
    requires Run(lib, log, s0, steps)
    decreases |steps|
  {
    steps == [] ||
    (ForOthers(lib, log, s0, steps[..|steps| - 1], x) &&
     (steps[|steps| - 1].Delivered? ==>
        var s := End(lib, log, s0, steps[..|steps| - 1]);
        s.pos < |log| && OfAnother(log[s.pos], x)))
  }

  /** So over whole runs, rewinds, rollbacks and merges included. */
  lemma {:induction false} RunForOthers(lib: Lib, log: seq<Message>, s0: State, steps: seq<Step>, x: string)
    requires Run(lib, log, s0, steps) && ForOthers(lib, log, s0, steps, x)
    ensures SameFor(x, s0.world, End(lib, log, s0, steps).world)
    decreases |steps|
  {
    hide Deliver, Apply, FinalRows, Rows;
    if steps != [] {
      var init := steps[..|steps| - 1];
      RunForOthers(lib, log, s0, init, x);
      var s := End(lib, log, s0, init);
      match steps[|steps| - 1] {
        case Delivered(now, outcome) => DeliveryForAnother(lib, s.world, log[s.pos], now, outcome, x);
        case Rewound(_) =>
        case MergedOrders(parts) => MergeKeepsFinal(s.world.chOrders, parts);
        case MergedLines(parts) => MergeKeepsFinal(s.world.chLines, parts);
      }
    }
  }

  /** And a delivery changes the row of no other order of its own workspace, and no other order's lines. */
  lemma DeliveryOfAnotherOrder(lib: Lib, w: World, m: Message, now: nat, o: Outcome, k: OrderKey, line: LineKey)
    requires
      Landable(lib, m) ==>
        var id := m.value.value.payload.value.shopifyOrderId;
        Some(k.vendorOrderId) != id && Some(line.vendorOrderId) != id
    ensures
      var w' := Deliver(lib, w, m, now, o);
      && (k in w'.pgOrders <==> k in w.pgOrders) && (k in w.pgOrders ==> w'.pgOrders[k] == w.pgOrders[k])
      && (line in w'.pgLines <==> line in w.pgLines) && (line in w.pgLines ==> w'.pgLines[line] == w.pgLines[line])
  {
    hide Deliver, Landable, Apply, ChOrderOf, ChLineOf, OrderOf, LineId, Cancellable, PgLineOf, OrderInserted,
      ItemsInserted;
    DeliversExactly(lib, w, m, now, o);
    if Landable(lib, m) { LandableIsParsed(lib, m); }
  }
}
