/**
 Whole runs of the consumer over one partition log: deliveries, rewinds to earlier offsets,
 ClickHouse failures and background merges in any order.
 */
module ReplayConvergence {
  import opened Options
  import opened ReplacingMergeTree
  import opened Replay
  import opened FactsConsumer

  datatype Step =
    | Delivered(now: nat, outcome: Outcome)
    | Rewound(to: nat)
    | MergedOrders(orderParts: set<set<Row<OrderKey, ChOrder>>>)
    | MergedLines(lineParts: set<set<Row<LineKey, ChLine>>>)

  /** pos is the next offset to deliver, high the furthest it has been. */
  datatype State = State(world: World, pos: nat, high: nat)

  function Start(pgOrders: PgOrders, pgLines: PgLines): State {
    State(World(pgOrders, pgLines, Empty(), Empty()), 0, 0)
  }

  ghost predicate StepEnabled(log: seq<Message>, s: State, step: Step) {
    match step
    case Delivered(_, _) => s.pos < |log|
    case Rewound(to) => to <= s.pos
    case MergedOrders(parts) => parts <= s.world.chOrders.parts
    case MergedLines(parts) => parts <= s.world.chLines.parts
  }

  ghost function Next(lib: Lib, log: seq<Message>, s: State, step: Step): State
    requires StepEnabled(log, s, step)
  {
    match step
    case Delivered(now, outcome) =>
      State(Deliver(lib, s.world, log[s.pos], now, outcome), s.pos + 1, if s.high > s.pos then s.high else s.pos + 1)
    case Rewound(to) => s.(pos := to)
    case MergedOrders(parts) => s.(world := s.world.(chOrders := Apply(s.world.chOrders, Merge(parts))))
    case MergedLines(parts) => s.(world := s.world.(chLines := Apply(s.world.chLines, Merge(parts))))
  }

  ghost predicate Run(lib: Lib, log: seq<Message>, s0: State, steps: seq<Step>)
    decreases |steps|, 0
  {
    steps == [] ||
    (Run(lib, log, s0, steps[..|steps| - 1]) &&
     StepEnabled(log, End(lib, log, s0, steps[..|steps| - 1]), steps[|steps| - 1]))
  }

  /** The state a run ends in. */
  ghost function End(lib: Lib, log: seq<Message>, s0: State, steps: seq<Step>): (s: State)
    requires Run(lib, log, s0, steps)
    ensures s0.pos <= s0.high <= |log| ==> s.pos <= s.high <= |log|
    decreases |steps|, 1
  {
    if steps == [] then s0
    else Next(lib, log, End(lib, log, s0, steps[..|steps| - 1]), steps[|steps| - 1])
  }

  /** No Postgres transaction of the run was rolled back. */
  ghost predicate Committing(steps: seq<Step>) {
    forall i | 0 <= i < |steps| :: steps[i].Delivered? ==> steps[i].outcome.PgCommits?
  }

  // ----- what each message writes ---------------------------------------------------------------

  function OrderWrites(lib: Lib, m: Message): map<OrderKey, OrderFact> {
    match Accept(lib, m)
    case None => map[]
    case Some(l) => map[KeyOfOrder(l.workspaceId, l.order) := l.order]
  }

  function LineWrites(lib: Lib, m: Message): map<LineKey, PgLine> {
    match Accept(lib, m)
    case None => map[]
    case Some(l) => UpsertLines(map[], l.workspaceId, l.lines)
  }

  function AllOrderWrites(lib: Lib, log: seq<Message>): seq<map<OrderKey, OrderFact>> {
    seq(|log|, i requires 0 <= i < |log| => OrderWrites(lib, log[i]))
  }

  function AllLineWrites(lib: Lib, log: seq<Message>): seq<map<LineKey, PgLine>> {
    seq(|log|, i requires 0 <= i < |log| => LineWrites(lib, log[i]))
  }

  /** The order columns a message supplies, without the flag it never touches. */
  function Facts(t: PgOrders): map<OrderKey, OrderFact> {
    map k | k in t :: t[k].fact
  }

  // ----- Postgres -------------------------------------------------------------------------------

  lemma {:induction false} UpsertLinesOverlays(t: PgLines, ws: string, lines: seq<LineFact>)
    ensures UpsertLines(t, ws, lines) == t + UpsertLines(map[], ws, lines)
    decreases |lines|
  {
    if lines != [] {
      UpsertLinesOverlays(t, ws, lines[..|lines| - 1]);
    }
  }

  /** What a delivery does to the Postgres tables; ClickHouse never matters to them. */
  lemma DeliverPg(lib: Lib, w: World, m: Message, now: nat, o: Outcome)
    ensures
      var w', accepted := Deliver(lib, w, m, now, o), Accept(lib, m);
      if accepted.None? || o.PgAborts? then w' == w
      else
        && w'.pgOrders == UpsertOrder(w.pgOrders, accepted.value.workspaceId, accepted.value.order)
        && w'.pgLines == UpsertLines(w.pgLines, accepted.value.workspaceId, accepted.value.lines)
  {
    hide Accept, ChOrderRow, LineBlock, InsertIf, UpsertOrder, UpsertLines;
  }

  lemma UpsertOverlays(t: PgOrders, ws: string, o: OrderFact)
    ensures Facts(UpsertOrder(t, ws, o)) == Facts(t) + map[KeyOfOrder(ws, o) := o]
  {
  }

  /** A committed delivery overlays both tables with what the message writes. */
  lemma DeliveryOverlays(lib: Lib, w: World, m: Message, now: nat, o: Outcome)
    requires o.PgCommits?
    ensures
      var w' := Deliver(lib, w, m, now, o);
      && Facts(w'.pgOrders) == Facts(w.pgOrders) + OrderWrites(lib, m)
      && w'.pgLines == w.pgLines + LineWrites(lib, m)
  {
    hide Accept, Deliver, UpsertOrder, UpsertLines, Facts;
    DeliverPg(lib, w, m, now, o);
    match Accept(lib, m) {
      case None =>
      case Some(l) =>
        UpsertLinesOverlays(w.pgLines, l.workspaceId, l.lines);
        UpsertOverlays(w.pgOrders, l.workspaceId, l.order);
    }
  }

  ghost predicate PgSettled(lib: Lib, log: seq<Message>, s0: State, s: State) {
    && Settled(Facts(s0.world.pgOrders), AllOrderWrites(lib, log), s.pos, s.high, Facts(s.world.pgOrders))
    && Settled(s0.world.pgLines, AllLineWrites(lib, log), s.pos, s.high, s.world.pgLines)
  }

  lemma StartIsSettled<K, V>(base: map<K, V>, writes: seq<map<K, V>>)
    ensures Settled(base, writes, 0, 0, base)
  {
    forall k | k in base ensures exists n :: 0 <= n <= 0 && Holds(base, writes, n, k, base[k]) {
      assert Holds(base, writes, 0, k, base[k]);
    }
  }

  lemma StepKeepsPg(lib: Lib, log: seq<Message>, s0: State, s: State, step: Step)
    requires PgSettled(lib, log, s0, s) && StepEnabled(log, s, step)
    requires step.Delivered? ==> step.outcome.PgCommits?
    ensures PgSettled(lib, log, s0, Next(lib, log, s, step))
  {
    hide Settled, Deliver, OrderWrites, LineWrites;
    var orders, lines := AllOrderWrites(lib, log), AllLineWrites(lib, log);
    var facts0, lines0 := Facts(s0.world.pgOrders), s0.world.pgLines;
    match step {
      case Delivered(now, outcome) =>
        DeliveryOverlays(lib, s.world, log[s.pos], now, outcome);
        DeliveryKeepsSettled(facts0, orders, s.pos, s.high, Facts(s.world.pgOrders));
        DeliveryKeepsSettled(lines0, lines, s.pos, s.high, s.world.pgLines);
      case Rewound(to) =>
        RewindKeepsSettled(facts0, orders, s.pos, s.high, Facts(s.world.pgOrders), to);
        RewindKeepsSettled(lines0, lines, s.pos, s.high, s.world.pgLines, to);
      case MergedOrders(_) =>
      case MergedLines(_) =>
    }
  }

  /**
   What every run keeps: each Postgres row is what in-order delivery of some prefix reaching at
   least to the current offset leaves, so no row is older than the last message for its key below
   that offset.
   */
  lemma {:induction false} RunKeepsPg(lib: Lib, log: seq<Message>, s0: State, steps: seq<Step>)
    requires s0.pos == s0.high == 0
    requires Run(lib, log, s0, steps) && Committing(steps)
    ensures PgSettled(lib, log, s0, End(lib, log, s0, steps))
    decreases |steps|
  {
    if steps == [] {
      StartIsSettled(Facts(s0.world.pgOrders), AllOrderWrites(lib, log));
      StartIsSettled(s0.world.pgLines, AllLineWrites(lib, log));
    } else {
      var n := |steps| - 1;
      assert Committing(steps[..n]) by {
        assert forall i | 0 <= i < n :: steps[..n][i] == steps[i];
      }
      RunKeepsPg(lib, log, s0, steps[..n]);
      StepKeepsPg(lib, log, s0, End(lib, log, s0, steps[..n]), steps[n]);
    }
  }

  /** Spelled out for one order: its row comes from a message at or after the last one below pos. */
  lemma OrderRowIsNoOlder(lib: Lib, log: seq<Message>, s0: State, steps: seq<Step>, k: OrderKey, i: nat)
      returns (j: nat)
    requires s0.pos == s0.high == 0
    requires Run(lib, log, s0, steps) && Committing(steps)
    requires End(lib, log, s0, steps).pos <= |log|
    requires LastWriter(AllOrderWrites(lib, log), End(lib, log, s0, steps).pos, k, i)
    ensures
      var s := End(lib, log, s0, steps);
      && i <= j < s.high && j < |log| && k in OrderWrites(lib, log[j])
      && k in s.world.pgOrders && s.world.pgOrders[k].fact == OrderWrites(lib, log[j])[k]
  {
    hide OrderWrites;
    RunKeepsPg(lib, log, s0, steps);
    var s, writes, base := End(lib, log, s0, steps), AllOrderWrites(lib, log), Facts(s0.world.pgOrders);
    OverlayIsLastWrite(base, writes, s.pos, k, i);
    OverlayKeysGrow(base, writes, s.pos, s.high);
    var row := Facts(s.world.pgOrders)[k];
    var n :| s.pos <= n <= s.high && Holds(base, writes, n, k, row);
    j := HeldRowIsNoOlder(base, writes, s.pos, n, k, row, i);
  }

  /** Caught up again, Postgres is exactly what one in-order delivery of the log would have left. */
  lemma PgConverges(lib: Lib, log: seq<Message>, s0: State, steps: seq<Step>)
    requires s0.pos == s0.high == 0
    requires Run(lib, log, s0, steps) && Committing(steps)
    requires End(lib, log, s0, steps).pos == End(lib, log, s0, steps).high
    ensures
      var s := End(lib, log, s0, steps);
      && s.high <= |log|
      && Facts(s.world.pgOrders) == Overlay(Facts(s0.world.pgOrders), AllOrderWrites(lib, log), s.high)
      && s.world.pgLines == Overlay(s0.world.pgLines, AllLineWrites(lib, log), s.high)
  {
    RunKeepsPg(lib, log, s0, steps);
    var s := End(lib, log, s0, steps);
    SettledAtHigh(Facts(s0.world.pgOrders), AllOrderWrites(lib, log), s.high, Facts(s.world.pgOrders));
    SettledAtHigh(s0.world.pgLines, AllLineWrites(lib, log), s.high, s.world.pgLines);
  }

  /** is_new_customer belongs to readers: no delivery changes it, and new rows have none. */
  lemma {:induction false} FlagUntouched(lib: Lib, log: seq<Message>, s0: State, steps: seq<Step>, k: OrderKey)
    requires Run(lib, log, s0, steps)
    ensures
      var before, after := s0.world.pgOrders, End(lib, log, s0, steps).world.pgOrders;
      && (k in before ==> k in after)
      && (k in after ==> after[k].isNewCustomer == if k in before then before[k].isNewCustomer else None)
    decreases |steps|
  {
    hide Deliver, Accept;
    if steps != [] {
      var init, last := steps[..|steps| - 1], steps[|steps| - 1];
      FlagUntouched(lib, log, s0, init, k);
      var s := End(lib, log, s0, init);
      if last.Delivered? {
        DeliverPg(lib, s.world, log[s.pos], last.now, last.outcome);
      }
    }
  }

  // ----- with rollbacks -------------------------------------------------------------------------

  /** The offset among touched whose delivery committed last during the run. */
  ghost function LastCommitted(
    lib: Lib, log: seq<Message>, s0: State, steps: seq<Step>, touched: set<nat>): (j: Option<nat>)
    requires Run(lib, log, s0, steps)
    ensures j.Some? ==> j.value in touched
    decreases |steps|
  {
    if steps == [] then None
    else
      var s, last := End(lib, log, s0, steps[..|steps| - 1]), steps[|steps| - 1];
      if last.Delivered? && last.outcome.PgCommits? && s.pos in touched then Some(s.pos)
      else LastCommitted(lib, log, s0, steps[..|steps| - 1], touched)
  }

  /** The offsets that write k. */
  ghost function Touching<K, V>(writes: seq<map<K, V>>, k: K): set<nat> {
    set i: nat | i < |writes| && k in writes[i]
  }

  /** What the last committed delivery that writes k leaves at k; base where there was none. */
  ghost predicate LeftAt<K, V>(base: map<K, V>, writes: seq<map<K, V>>, k: K, last: Option<nat>, table: map<K, V>) {
    match last
    case None => (k in table <==> k in base) && (k in base ==> table[k] == base[k])
    case Some(j) => j < |writes| && k in writes[j] && k in table && table[k] == writes[j][k]
  }

  /** In every run, rollbacks and all, each row is that of the last committed delivery that writes it. */
  lemma {:induction false} RowsAreLastCommitted(
    lib: Lib, log: seq<Message>, s0: State, steps: seq<Step>, k: OrderKey, line: LineKey)
    requires Run(lib, log, s0, steps)
    ensures
      var w, orders, lines := End(lib, log, s0, steps).world, AllOrderWrites(lib, log), AllLineWrites(lib, log);
      && LeftAt(Facts(s0.world.pgOrders), orders, k,
                LastCommitted(lib, log, s0, steps, Touching(orders, k)), Facts(w.pgOrders))
      && LeftAt(s0.world.pgLines, lines, line,
                LastCommitted(lib, log, s0, steps, Touching(lines, line)), w.pgLines)
    decreases |steps|
  {
    hide Deliver, OrderWrites, LineWrites, Accept, Facts, UpsertOrder, UpsertLines;
    if steps != [] {
      var init, last := steps[..|steps| - 1], steps[|steps| - 1];
      RowsAreLastCommitted(lib, log, s0, init, k, line);
      var s := End(lib, log, s0, init);
      if last.Delivered? {
        if last.outcome.PgCommits? {
          DeliveryOverlays(lib, s.world, log[s.pos], last.now, last.outcome);
        } else {
          DeliverPg(lib, s.world, log[s.pos], last.now, last.outcome);
        }
      }
    }
  }

  /**
   Convergence exactly: after any run, the order row of k is the one in-order delivery up to n leaves
   if and only if the last committed delivery of k wrote what k's last writer below n writes.
   */
  lemma ConvergesExactly(
    lib: Lib, log: seq<Message>, s0: State, steps: seq<Step>, k: OrderKey, n: nat, last: nat)
    requires Run(lib, log, s0, steps) && n <= |log| && LastWriter(AllOrderWrites(lib, log), n, k, last)
    ensures
      var base, writes := Facts(s0.world.pgOrders), AllOrderWrites(lib, log);
      var now := Facts(End(lib, log, s0, steps).world.pgOrders);
      var committed := LastCommitted(lib, log, s0, steps, Touching(writes, k));
      && k in Overlay(base, writes, n)
      && (k in now && now[k] == Overlay(base, writes, n)[k] <==>
          if committed.Some? then writes[committed.value][k] == writes[last][k]
          else k in base && base[k] == writes[last][k])
  {
    hide OrderWrites, Facts, Overlay, LastCommitted;
    var base, writes := Facts(s0.world.pgOrders), AllOrderWrites(lib, log);
    var none: LineKey := LineKey("", "", "", "");
    RowsAreLastCommitted(lib, log, s0, steps, k, none);
    OverlayIsLastWrite(base, writes, n, k, last);
  }

  /** Without the commits, convergence fails: a rolled back delivery is skipped for good. */
  lemma RollbackLosesMessage(lib: Lib, m: Message, l: Landing)
    requires Accept(lib, m) == Some(l)
    ensures
      var s0, steps := Start(map[], map[]), [Delivered(0, PgAborts)];
      && Run(lib, [m], s0, steps)
      && End(lib, [m], s0, steps).pos == End(lib, [m], s0, steps).high == 1
      && End(lib, [m], s0, steps).world.pgOrders == map[]
      && Overlay(map[], AllOrderWrites(lib, [m]), 1) != map[]
  {
    var s0, steps := Start(map[], map[]), [Delivered(0, PgAborts)];
    assert steps[..0] == [];
    assert Run(lib, [m], s0, steps[..0]) && End(lib, [m], s0, steps[..0]) == s0;
    var k := KeyOfOrder(l.workspaceId, l.order);
    assert k in AllOrderWrites(lib, [m])[0];
    assert k in Overlay(map[], AllOrderWrites(lib, [m]), 1);
  }
}
