/**
 When the two stores tell the same story: which message a FINAL read of ClickHouse shows after any
 run, and that it is the one Postgres holds exactly when that message's insert was ever applied.
 */
module ReplayAgreement {
  import opened Options
  import opened ReplacingMergeTree
  import opened Replay
  import opened FactsConsumer
  import opened ReplayConvergence

  // ----- the columns the two stores share -------------------------------------------------------

  predicate Blank(d: Option<string>) { d.None? || d.value == "" }

  /** A ClickHouse order row shows the order: null reads as '', dates are formatted. */
  predicate OrderAgrees(lib: Lib, o: OrderFact, r: ChOrder) {
    && r.customerRef == o.customerRef.GetOr("")
    && r.deliveryPincode == o.deliveryPincode.GetOr("")
    && r.deliveryCity == o.deliveryCity.GetOr("")
    && r.grossSalesMu == o.grossSalesMu && r.discountMu == o.totalDiscountMu
    && r.taxMu == o.totalTaxMu && r.shippingMu == o.shippingMu
    && r.netSalesMu + o.totalDiscountMu == o.grossSalesMu
    && r.currencyCode == o.currencyCode
    && r.paymentMethod == o.paymentMethod.GetOr("")
    && (r.isCod == 1 <==> o.paymentMethod == Some("COD"))
    && r.financialStatus == o.financialStatus.GetOr("")
    && r.fulfillmentStatus == o.fulfillmentStatus.GetOr("")
    && (if Blank(o.cancelledAt) then r.cancelledAt == None
        else
          && lib.parseDate(o.cancelledAt.value).Some?
          && r.cancelledAt == Some(lib.dateTime(lib.parseDate(o.cancelledAt.value).value)))
    && (!Blank(o.processedAt) && lib.parseDate(o.processedAt.value).Some? ==>
          var at := lib.parseDate(o.processedAt.value).value;
          r.placedAt == lib.dateTime64(at) && r.orderDate == lib.date(at))
  }

  predicate LineAgrees(p: PgLine, r: ChLine) {
    && r.vendorProductId == p.vendorProductId && r.sku == p.sku.GetOr("") && r.title == p.title.GetOr("")
    && r.quantity == p.quantity && r.priceMu == p.unitPriceMu && r.lineTotalMu == p.unitPriceMu * p.quantity
  }

  lemma OrderRowAgrees(lib: Lib, o: OrderFact, now: int)
    requires ChOrderRow(lib, o, now).Some?
    ensures OrderAgrees(lib, o, ChOrderRow(lib, o, now).value)
  {
  }

  // ----- which inserts took effect --------------------------------------------------------------

  predicate OrderApplied(lib: Lib, m: Message, now: nat, o: Outcome) {
    && Accept(lib, m).Some? && o.PgCommits? && !o.orders.Dropped?
    && ChOrderRow(lib, Accept(lib, m).value.order, now).Some?
  }

  predicate LinesApplied(lib: Lib, m: Message, now: nat, o: Outcome) {
    OrderApplied(lib, m, now, o) && o.orders.Acked? && !o.lines.Dropped? && Accept(lib, m).value.lines != []
  }

  function LandedNow(log: seq<Message>, s: State, now: nat): Landed
    requires s.pos < |log|
  {
    Landed(s.pos, Version(log[s.pos], now))
  }

  /** Blocks come from messages below n, under the broker's stamp where there is one. */
  predicate LandedBelow(log: seq<Message>, landed: seq<Landed>, n: nat) {
    forall j: nat | j < |landed| ::
      && landed[j].offset < n && landed[j].offset < |log|
      && (log[landed[j].offset].timestamp.Some? ==> landed[j].version == log[landed[j].offset].timestamp.value)
  }

  /** The messages whose order row reached ClickHouse during the run, oldest first, with the version used. */
  ghost function OrdersApplied(lib: Lib, log: seq<Message>, s0: State, steps: seq<Step>): (landed: seq<Landed>)
    requires Run(lib, log, s0, steps)
    ensures s0.pos <= s0.high <= |log| ==> LandedBelow(log, landed, End(lib, log, s0, steps).high)
    decreases |steps|
  {
    if steps == [] then []
    else
      var s, last := End(lib, log, s0, steps[..|steps| - 1]), steps[|steps| - 1];
      OrdersApplied(lib, log, s0, steps[..|steps| - 1]) +
      if last.Delivered? && OrderApplied(lib, log[s.pos], last.now, last.outcome) then [LandedNow(log, s, last.now)]
      else []
  }

  /** The messages whose line items reached ClickHouse during the run, oldest first, with the version used. */
  ghost function LineItemsApplied(lib: Lib, log: seq<Message>, s0: State, steps: seq<Step>): (landed: seq<Landed>)
    requires Run(lib, log, s0, steps)
    ensures s0.pos <= s0.high <= |log| ==> LandedBelow(log, landed, End(lib, log, s0, steps).high)
    decreases |steps|
  {
    if steps == [] then []
    else
      var s, last := End(lib, log, s0, steps[..|steps| - 1]), steps[|steps| - 1];
      LineItemsApplied(lib, log, s0, steps[..|steps| - 1]) +
      if last.Delivered? && LinesApplied(lib, log[s.pos], last.now, last.outcome) then [LandedNow(log, s, last.now)]
      else []
  }

  // ----- what one delivery does to ClickHouse ---------------------------------------------------

  lemma DeliverCh(lib: Lib, w: World, m: Message, now: nat, o: Outcome)
    ensures
      var w' := Deliver(lib, w, m, now, o);
      && (if OrderApplied(lib, m, now, o) then
            var l := Accept(lib, m).value;
            w'.chOrders == Apply(w.chOrders,
                                 Insert([Fact(KeyOfOrder(l.workspaceId, l.order), Version(m, now),
                                              ChOrderRow(lib, l.order, now).value)]))
          else w'.chOrders == w.chOrders)
      && (if LinesApplied(lib, m, now, o) then
            w'.chLines == Apply(w.chLines, Insert(LineBlock(lib, Accept(lib, m).value, Version(m, now), now)))
          else w'.chLines == w.chLines)
  {
    hide Accept, ChOrderRow, LineBlock, Apply, UpsertOrder, UpsertLines;
  }

  /** The block of a message's lines ends, per line, with the row Postgres ends with. */
  lemma {:induction false} LineBlockAgrees(lib: Lib, l: Landing, version: nat, now: int, n: nat)
    requires n <= |l.lines|
    ensures
      var last, pg := LastData(LineBlock(lib, l, version, now)[..n]), UpsertLines(map[], l.workspaceId, l.lines[..n]);
      last.Keys == pg.Keys && forall k | k in pg :: LineAgrees(pg[k], last[k])
  {
    if n > 0 {
      LineBlockAgrees(lib, l, version, now, n - 1);
      var block := LineBlock(lib, l, version, now);
      assert block[..n][..n - 1] == block[..n - 1] && l.lines[..n][..n - 1] == l.lines[..n - 1];
    }
  }

  // ----- the run invariant ----------------------------------------------------------------------

  function Stamps(log: seq<Message>): seq<nat> {
    seq(|log|, i requires 0 <= i < |log| => log[i].timestamp.GetOr(0))
  }

  /** The broker stamped every message below n that writes k, and stamped the last one latest. */
  ghost predicate LastIsNewest<K, V>(log: seq<Message>, writes: seq<map<K, V>>, n: nat, k: K, last: nat)
    requires n <= |writes| == |log|
  {
    && (forall i | 0 <= i < n && k in writes[i] :: log[i].timestamp.Some?)
    && NewestStamp(writes, Stamps(log), n, k, last)
  }

  ghost predicate ChTracks(lib: Lib, log: seq<Message>, w: World, ordersIn: seq<Landed>, linesIn: seq<Landed>,
                           orders: map<OrderKey, Latest<ChOrder>>, lines: map<LineKey, Latest<ChLine>>)
  {
    && Represents(Rows(w.chOrders), orders) && StampsBelow(Rows(w.chOrders), w.chOrders.nextStamp)
    && Represents(Rows(w.chLines), lines) && StampsBelow(Rows(w.chLines), w.chLines.nextStamp)
    && Tracks(orders, AllOrderWrites(lib, log), (o, r) => OrderAgrees(lib, o, r), ordersIn)
    && Tracks(lines, AllLineWrites(lib, log), LineAgrees, linesIn)
  }

  lemma OrdersStep(lib: Lib, log: seq<Message>, s: State, now: nat, o: Outcome, landed: seq<Landed>,
                   view: map<OrderKey, Latest<ChOrder>>)
    returns (view': map<OrderKey, Latest<ChOrder>>)
    requires s.pos < |log|
    requires Represents(Rows(s.world.chOrders), view) && StampsBelow(Rows(s.world.chOrders), s.world.chOrders.nextStamp)
    requires Tracks(view, AllOrderWrites(lib, log), (o, r) => OrderAgrees(lib, o, r), landed)
    ensures
      var w' := Deliver(lib, s.world, log[s.pos], now, o);
      var landed' := landed + if OrderApplied(lib, log[s.pos], now, o) then [LandedNow(log, s, now)] else [];
      && Represents(Rows(w'.chOrders), view') && StampsBelow(Rows(w'.chOrders), w'.chOrders.nextStamp)
      && Tracks(view', AllOrderWrites(lib, log), (o, r) => OrderAgrees(lib, o, r), landed')
  {
    hide Deliver, Accept, Tracks, Represents, StampsBelow, Apply, Rows;
    var m := log[s.pos];
    var writes, agrees := AllOrderWrites(lib, log), (o, r) => OrderAgrees(lib, o, r);
    DeliverCh(lib, s.world, m, now, o);
    if OrderApplied(lib, m, now, o) {
      var l := Accept(lib, m).value;
      var k, row := KeyOfOrder(l.workspaceId, l.order), ChOrderRow(lib, l.order, now).value;
      var block := [Fact(k, Version(m, now), row)];
      ApplyRefines(s.world.chOrders, view, Insert(block));
      OrderRowAgrees(lib, l.order, now);
      assert block[..0] == [] && LastData(block) == map[k := row];
      BlockKeepsTracks(view, writes, agrees, landed, block, LandedNow(log, s, now));
      view' := AbsorbAll(view, block);
    } else {
      assert landed + [] == landed;
      view' := view;
    }
  }

  lemma LinesStep(lib: Lib, log: seq<Message>, s: State, now: nat, o: Outcome, landed: seq<Landed>,
                  view: map<LineKey, Latest<ChLine>>)
    returns (view': map<LineKey, Latest<ChLine>>)
    requires s.pos < |log|
    requires Represents(Rows(s.world.chLines), view) && StampsBelow(Rows(s.world.chLines), s.world.chLines.nextStamp)
    requires Tracks(view, AllLineWrites(lib, log), LineAgrees, landed)
    ensures
      var w' := Deliver(lib, s.world, log[s.pos], now, o);
      var landed' := landed + if LinesApplied(lib, log[s.pos], now, o) then [LandedNow(log, s, now)] else [];
      && Represents(Rows(w'.chLines), view') && StampsBelow(Rows(w'.chLines), w'.chLines.nextStamp)
      && Tracks(view', AllLineWrites(lib, log), LineAgrees, landed')
  {
    hide Deliver, Accept, Tracks, Represents, StampsBelow, Apply, Rows;
    var m := log[s.pos];
    DeliverCh(lib, s.world, m, now, o);
    if LinesApplied(lib, m, now, o) {
      var l := Accept(lib, m).value;
      var block := LineBlock(lib, l, Version(m, now), now);
      ApplyRefines(s.world.chLines, view, Insert(block));
      LineBlockAgrees(lib, l, Version(m, now), now, |l.lines|);
      assert block[..|l.lines|] == block && l.lines[..|l.lines|] == l.lines;
      BlockKeepsTracks(view, AllLineWrites(lib, log), LineAgrees, landed, block, LandedNow(log, s, now));
      view' := AbsorbAll(view, block);
    } else {
      assert landed + [] == landed;
      view' := view;
    }
  }

  lemma StepTracks(lib: Lib, log: seq<Message>, s: State, step: Step, ordersIn: seq<Landed>, linesIn: seq<Landed>,
                   orders: map<OrderKey, Latest<ChOrder>>, lines: map<LineKey, Latest<ChLine>>)
    returns (orders': map<OrderKey, Latest<ChOrder>>, lines': map<LineKey, Latest<ChLine>>)
    requires StepEnabled(log, s, step) && ChTracks(lib, log, s.world, ordersIn, linesIn, orders, lines)
    ensures
      var d := step.Delivered?;
      ChTracks(
        lib, log, Next(lib, log, s, step).world,
        ordersIn +
        (if d && OrderApplied(lib, log[s.pos], step.now, step.outcome) then [LandedNow(log, s, step.now)] else []),
        linesIn +
        (if d && LinesApplied(lib, log[s.pos], step.now, step.outcome) then [LandedNow(log, s, step.now)] else []),
        orders', lines')
  {
    hide Deliver, OrderApplied, LinesApplied, Tracks, Represents, StampsBelow, Apply, Rows, LandedNow;
    orders', lines' := orders, lines;
    if !step.Delivered? { assert ordersIn + [] == ordersIn && linesIn + [] == linesIn; }
    match step {
      case Delivered(now, outcome) =>
        orders' := OrdersStep(lib, log, s, now, outcome, ordersIn, orders);
        lines' := LinesStep(lib, log, s, now, outcome, linesIn, lines);
      case Rewound(_) =>
      case MergedOrders(parts) => ApplyRefines(s.world.chOrders, orders, Merge(parts));
      case MergedLines(parts) => ApplyRefines(s.world.chLines, lines, Merge(parts));
    }
  }

  /** In every run the FINAL registers hold, per key, the write of the block left standing. */
  lemma {:induction false} RunTracks(lib: Lib, log: seq<Message>, s0: State, steps: seq<Step>)
    returns (orders: map<OrderKey, Latest<ChOrder>>, lines: map<LineKey, Latest<ChLine>>)
    requires s0 == Start(s0.world.pgOrders, s0.world.pgLines) && Run(lib, log, s0, steps)
    ensures ChTracks(lib, log, End(lib, log, s0, steps).world,
                     OrdersApplied(lib, log, s0, steps), LineItemsApplied(lib, log, s0, steps), orders, lines)
    decreases |steps|
  {
    if steps == [] {
      orders, lines := map[], map[];
    } else {
      hide ChTracks, OrderApplied, LinesApplied, Next, LandedNow, LandedBelow;
      var init := steps[..|steps| - 1];
      orders, lines := RunTracks(lib, log, s0, init);
      orders, lines := StepTracks(lib, log, End(lib, log, s0, init), steps[|steps| - 1],
                                  OrdersApplied(lib, log, s0, init), LineItemsApplied(lib, log, s0, init),
                                  orders, lines);
    }
  }

  // ----- cancellations nobody can format --------------------------------------------------------

  /** A cancelled_at that new Date cannot read; toISOString throws on it. */
  predicate UnreadableCancellation(lib: Lib, o: OrderFact) {
    !Blank(o.cancelledAt) && lib.parseDate(o.cancelledAt.value).None?
  }

  /**
   Whether a message's order can ever land in ClickHouse: some outcome of its delivery inserts it
   exactly when it is accepted and its cancellation, if any, can be read.
   */
  lemma LandsExactly(lib: Lib, m: Message, now: nat)
    ensures (exists o: Outcome :: OrderApplied(lib, m, now, o)) <==>
      Accept(lib, m).Some? && !UnreadableCancellation(lib, Accept(lib, m).value.order)
  {
    hide Accept;
    if Accept(lib, m).Some? && !UnreadableCancellation(lib, Accept(lib, m).value.order) {
      assert OrderApplied(lib, m, now, PgCommits(Acked, Acked));
    }
  }

  /**
   A cancellation Postgres can store and new Date cannot read, such as infinity: the order is
   committed there, and whatever ClickHouse would have answered, neither of its tables changes.
   */
  lemma UnreadableNeverLands(lib: Lib, w: World, m: Message, now: nat, o: Outcome)
    requires Accept(lib, m).Some? && UnreadableCancellation(lib, Accept(lib, m).value.order)
    ensures
      var l, w' := Accept(lib, m).value, Deliver(lib, w, m, now, o);
      && w'.chOrders == w.chOrders && w'.chLines == w.chLines
      && (o.PgCommits? ==> w'.pgOrders == UpsertOrder(w.pgOrders, l.workspaceId, l.order))
  {
    hide Accept, UpsertOrder, UpsertLines;
  }

  /** So over whole runs: offsets with such a cancellation never count as applied. */
  lemma {:induction false} UnreadableNeverApplied(lib: Lib, log: seq<Message>, s0: State, steps: seq<Step>, i: nat)
    requires Run(lib, log, s0, steps) && i < |log|
    requires Accept(lib, log[i]).Some? ==> UnreadableCancellation(lib, Accept(lib, log[i]).value.order)
    ensures !Ever(OrdersApplied(lib, log, s0, steps), i) && !Ever(LineItemsApplied(lib, log, s0, steps), i)
    decreases |steps|
  {
    hide Accept, Deliver;
    if steps != [] { UnreadableNeverApplied(lib, log, s0, steps[..|steps| - 1], i); }
  }

  // ----- main results ---------------------------------------------------------------------------

  /** A FINAL read shows of k what the block left standing wrote, and k only if there is such a block. */
  ghost predicate Shows<K, D, S>(
    shown: set<Row<K, D>>, writes: seq<map<K, S>>, agrees: (S, D) -> bool, landed: seq<Landed>, k: K)
  {
    var w := Winner(writes, landed, k);
    && (w.Some? <==> exists r :: r in shown && r.key == k)
    && forall r | r in shown && r.key == k ::
         w.Some? && r.version == landed[w.value].version && agrees(writes[landed[w.value].offset][k], r.data)
  }

  lemma RegisterShows<K, D, S>(
    rows: set<Row<K, D>>, view: map<K, Latest<D>>, writes: seq<map<K, S>>, agrees: (S, D) -> bool,
    landed: seq<Landed>, k: K)
    requires Represents(rows, view) && Tracks(view, writes, agrees, landed)
    ensures Shows(FinalRows(rows), writes, agrees, landed, k)
  {
    TracksEverywhere(view, writes, agrees, landed, k);
    hide Winner, Tracks, FinalRows;
  }

  /**
   After any run, whatever the stamps, FINAL shows of an order the message left standing, by version and
   then by insertion, among those whose insert took effect.
   */
  lemma OrdersShown(lib: Lib, log: seq<Message>, s0: State, steps: seq<Step>, k: OrderKey)
    requires s0 == Start(s0.world.pgOrders, s0.world.pgLines) && Run(lib, log, s0, steps)
    ensures Shows(FinalRows(Rows(End(lib, log, s0, steps).world.chOrders)), AllOrderWrites(lib, log),
                  (o, r) => OrderAgrees(lib, o, r), OrdersApplied(lib, log, s0, steps), k)
  {
    var view, _ := RunTracks(lib, log, s0, steps);
    hide Tracks, Represents, Shows, FinalRows, OrdersApplied, LineItemsApplied, AllOrderWrites, AllLineWrites, Rows,
      End;
    RegisterShows(Rows(End(lib, log, s0, steps).world.chOrders), view, AllOrderWrites(lib, log),
                  (o, r) => OrderAgrees(lib, o, r), OrdersApplied(lib, log, s0, steps), k);
  }

  /** The same for line items. */
  lemma LinesShown(lib: Lib, log: seq<Message>, s0: State, steps: seq<Step>, k: LineKey)
    requires s0 == Start(s0.world.pgOrders, s0.world.pgLines) && Run(lib, log, s0, steps)
    ensures Shows(FinalRows(Rows(End(lib, log, s0, steps).world.chLines)), AllLineWrites(lib, log),
                  LineAgrees, LineItemsApplied(lib, log, s0, steps), k)
  {
    var _, view := RunTracks(lib, log, s0, steps);
    hide Tracks, Represents, Shows, FinalRows, OrdersApplied, LineItemsApplied, AllOrderWrites, AllLineWrites, Rows,
      End;
    RegisterShows(Rows(End(lib, log, s0, steps).world.chLines), view, AllLineWrites(lib, log),
                  LineAgrees, LineItemsApplied(lib, log, s0, steps), k);
  }

  /** A message's block stands: no landed block for k has a higher version, nor, from a later insert, the same. */
  ghost predicate MessageStands<K, S>(writes: seq<map<K, S>>, landed: seq<Landed>, k: K, i: nat) {
    exists j: nat :: Stands(writes, landed, k, j) && landed[j].offset == i
  }

  /** When the last message's block stands, FINAL shows that message. */
  lemma LastIsShown<K, D, S>(
    shown: set<Row<K, D>>, writes: seq<map<K, S>>, agrees: (S, D) -> bool, landed: seq<Landed>, k: K, last: nat)
    requires Shows(shown, writes, agrees, landed, k) && MessageStands(writes, landed, k, last)
    ensures last < |writes| && k in writes[last] && exists r :: r in shown && r.key == k
    ensures forall r | r in shown && r.key == k :: agrees(writes[last][k], r.data)
  {
    var j: nat :| Stands(writes, landed, k, j) && landed[j].offset == last;
    WinnerExactly(writes, landed, k, j);
    hide Winner, Stands;
  }

  lemma NewestStandsExactly<K, S>(
    log: seq<Message>, writes: seq<map<K, S>>, landed: seq<Landed>, n: nat, k: K, last: nat)
    requires n <= |writes| == |log| && LastWriter(writes, n, k, last) && LastIsNewest(log, writes, n, k, last)
    requires LandedBelow(log, landed, n)
    ensures
      var w := Winner(writes, landed, k);
      && (Ever(landed, last) <==> MessageStands(writes, landed, k, last))
      && (Ever(landed, last) <==> w.Some? && landed[w.value].version == Stamps(log)[last])
  {
    NewestStands(writes, Stamps(log), landed, n, k, last);
    WinnerStands(writes, landed, k);
    var w := Winner(writes, landed, k);
    hide Winner, Stands, NewestStamp, Stamps, LandedBelow;
    if Ever(landed, last) { assert Stands(writes, landed, k, w.value); }
    if MessageStands(writes, landed, k, last) {
      var j: nat :| Stands(writes, landed, k, j) && landed[j].offset == last;
      WinnerExactly(writes, landed, k, j);
    }
  }

  /**
   Orders: after any run back at its high-water mark the Postgres row is the last message's. FINAL agrees with
   it on every shared column when that message's block stands; and where the broker stamped it latest of the
   key's messages, that is exactly when its insert was ever applied, and FINAL then shows its version.
   */
  lemma OrdersAgree(lib: Lib, log: seq<Message>, s0: State, steps: seq<Step>, k: OrderKey, last: nat)
    requires s0 == Start(s0.world.pgOrders, s0.world.pgLines) && Run(lib, log, s0, steps) && Committing(steps)
    requires End(lib, log, s0, steps).pos == End(lib, log, s0, steps).high
    requires LastWriter(AllOrderWrites(lib, log), End(lib, log, s0, steps).high, k, last)
    ensures
      var w, shown := End(lib, log, s0, steps).world, FinalRows(Rows(End(lib, log, s0, steps).world.chOrders));
      var landed, writes := OrdersApplied(lib, log, s0, steps), AllOrderWrites(lib, log);
      && k in w.pgOrders && w.pgOrders[k].fact == OrderWrites(lib, log[last])[k]
      && (MessageStands(writes, landed, k, last) ==>
            && (exists r :: r in shown && r.key == k)
            && forall r | r in shown && r.key == k :: OrderAgrees(lib, w.pgOrders[k].fact, r.data))
      && (LastIsNewest(log, writes, End(lib, log, s0, steps).high, k, last) ==>
            && (Ever(landed, last) <==> MessageStands(writes, landed, k, last))
            && (Ever(landed, last) <==> exists r :: r in shown && r.key == k && r.version == Stamps(log)[last])
            && (Ever(landed, last) ==> forall r | r in shown && r.key == k :: r.version == Stamps(log)[last]))
  {
    hide OrderWrites, OrdersApplied, OrderAgrees, Rows, Settled, Winner, LandedBelow, NewestStamp, MessageStands;
    var s, writes, landed := End(lib, log, s0, steps), AllOrderWrites(lib, log), OrdersApplied(lib, log, s0, steps);
    PgConverges(lib, log, s0, steps);
    OverlayIsLastWrite(Facts(s0.world.pgOrders), writes, s.high, k, last);
    OrdersShown(lib, log, s0, steps, k);
    var shown := FinalRows(Rows(s.world.chOrders));
    if MessageStands(writes, landed, k, last) {
      LastIsShown(shown, writes, (o, r) => OrderAgrees(lib, o, r), landed, k, last);
    }
    if LastIsNewest(log, writes, s.high, k, last) { NewestStandsExactly(log, writes, landed, s.high, k, last); }
  }

  /** The same for line items. */
  lemma LinesAgree(lib: Lib, log: seq<Message>, s0: State, steps: seq<Step>, k: LineKey, last: nat)
    requires s0 == Start(s0.world.pgOrders, s0.world.pgLines) && Run(lib, log, s0, steps) && Committing(steps)
    requires End(lib, log, s0, steps).pos == End(lib, log, s0, steps).high
    requires LastWriter(AllLineWrites(lib, log), End(lib, log, s0, steps).high, k, last)
    ensures
      var w, shown := End(lib, log, s0, steps).world, FinalRows(Rows(End(lib, log, s0, steps).world.chLines));
      var landed, writes := LineItemsApplied(lib, log, s0, steps), AllLineWrites(lib, log);
      && k in w.pgLines && w.pgLines[k] == LineWrites(lib, log[last])[k]
      && (MessageStands(writes, landed, k, last) ==>
            && (exists r :: r in shown && r.key == k)
            && forall r | r in shown && r.key == k :: LineAgrees(w.pgLines[k], r.data))
      && (LastIsNewest(log, writes, End(lib, log, s0, steps).high, k, last) ==>
            && (Ever(landed, last) <==> MessageStands(writes, landed, k, last))
            && (Ever(landed, last) <==> exists r :: r in shown && r.key == k && r.version == Stamps(log)[last])
            && (Ever(landed, last) ==> forall r | r in shown && r.key == k :: r.version == Stamps(log)[last]))
  {
    hide LineWrites, LineItemsApplied, LineAgrees, Rows, Settled, Winner, LandedBelow, NewestStamp, MessageStands;
    var s, writes, landed := End(lib, log, s0, steps), AllLineWrites(lib, log), LineItemsApplied(lib, log, s0, steps);
    PgConverges(lib, log, s0, steps);
    OverlayIsLastWrite(s0.world.pgLines, writes, s.high, k, last);
    LinesShown(lib, log, s0, steps, k);
    var shown := FinalRows(Rows(s.world.chLines));
    if MessageStands(writes, landed, k, last) { LastIsShown(shown, writes, LineAgrees, landed, k, last); }
    if LastIsNewest(log, writes, s.high, k, last) { NewestStandsExactly(log, writes, landed, s.high, k, last); }
  }
}
