/**
 What one delivery means in the message's own fields: which messages land, in which rows of the four
 tables, and with what in them.
 */
module DeliveryMeaning {
  import opened Digits
  import opened Options
  import opened ReplacingMergeTree
  import opened FactsConsumer
  import opened FactsMapping

  // ----- which messages land --------------------------------------------------------------------

  predicate Converts(lib: Lib, amount: Option<string>, currency: string) {
    lib.toMinorUnits(amount.GetOr("0"), currency).Some?
  }

  /** An order id, a raw order that is absent or can be read, and amounts that are numbers. */
  predicate Mappable(lib: Lib, p: Payload) {
    var currency := lib.upper(p.currency.GetOr("INR"));
    && p.shopifyOrderId.Some? && p.shopifyOrderId.value != "" && !p.raw.Malformed?
    && Converts(lib, p.totalDiscounts, currency) && Converts(lib, p.totalTax, currency)
    && Converts(lib, if HasSubtotal(p) then p.subtotalPrice else p.totalPrice, currency)
    && forall i: nat | i < |Items(p)| :: Converts(lib, Items(p)[i].price, currency)
  }

  predicate NoDate(d: Option<string>) { d == None || d == Some("") }

  /** A workspace, the event type order, a payload, and a created_at that is absent or a date. */
  predicate Landable(lib: Lib, m: Message) {
    && m.value.Parsed? && m.value.value.workspaceId != "" && m.value.value.eventType == "order"
    && m.value.value.payload.Parsed?
    && var p := m.value.value.payload.value;
       Mappable(lib, p) && (NoDate(p.createdAt) || lib.parseDate(p.createdAt.value).Some?)
  }

  lemma {:induction false} LinesMapExactly(lib: Lib, orderId: string, currency: string, items: seq<RawLine>)
    ensures MapLines(lib, orderId, currency, items).Some? <==>
      forall i: nat | i < |items| :: Converts(lib, items[i].price, currency)
    decreases |items|
  {
    if items != [] {
      var n := |items| - 1;
      LinesMapExactly(lib, orderId, currency, items[..n]);
      assert forall i: nat | i < n :: items[..n][i] == items[i];
    }
  }

  lemma MapsExactly(lib: Lib, e: Envelope)
    ensures MapEnvelopeToFacts(lib, e).Some? <==> e.payload.Parsed? && Mappable(lib, e.payload.value)
  {
    if e.payload.Parsed? {
      var p := e.payload.value;
      LinesMapExactly(lib, p.shopifyOrderId.GetOr(""), lib.upper(p.currency.GetOr("INR")), Items(p));
      hide MapLines;
    }
  }

  /** Accepted are exactly these messages, under their own workspace, with their own order and lines. */
  lemma AcceptsExactly(lib: Lib, m: Message)
    ensures Accept(lib, m).Some? <==> Landable(lib, m)
    ensures Accept(lib, m).Some? ==>
      var l, p := Accept(lib, m).value, m.value.value.payload.value;
      l.workspaceId == m.value.value.workspaceId && OrderOf(lib, p, l.order) && LinesOf(lib, p, l.lines)
  {
    hide MapEnvelopeToFacts, Mappable, OrderOf, LineOf;
    if m.value.Parsed? {
      var e := m.value.value;
      MapsExactly(lib, e);
      if MapEnvelopeToFacts(lib, e).Some? {
        MappingIsFaithful(lib, e);
        DateOfOrder(lib, e.payload.value, MapEnvelopeToFacts(lib, e).value.order);
      }
    }
  }

  lemma DateOfOrder(lib: Lib, p: Payload, o: OrderFact)
    requires OrderOf(lib, p, o)
    ensures o.processedAt == p.createdAt && o.cancelledAt == p.cancelledAt && Some(o.vendorOrderId) == p.shopifyOrderId
    ensures o.currencyCode == lib.upper(p.currency.GetOr("INR"))
  {
  }

  predicate LinesOf(lib: Lib, p: Payload, lines: seq<LineFact>) {
    && |lines| == |Items(p)|
    && forall i: nat | i < |lines| ::
         LineOf(lib, p.shopifyOrderId.GetOr(""), lib.upper(p.currency.GetOr("INR")), Items(p)[i], i, lines[i])
  }

  // ----- rows -----------------------------------------------------------------------------------

  /** The id of an item, or the order's id and the item's place. */
  function LineId(p: Payload, i: nat): string
    requires i < |Items(p)|
  {
    if Items(p)[i].id.Some? then Items(p)[i].id.value else p.shopifyOrderId.GetOr("") + ":" + Show(i)
  }

  /** The row of item i in either store. */
  function RowKey(ws: string, p: Payload, i: nat): LineKey
    requires i < |Items(p)|
  {
    LineKey(ws, "SHOPIFY", p.shopifyOrderId.GetOr(""), LineId(p, i))
  }

  /** A Postgres row tells the item. */
  predicate PgLineOf(lib: Lib, p: Payload, item: RawLine, row: PgLine) {
    && IsGid("gid://shopify/Product/", item.productId, row.vendorProductId)
    && row.sku == item.sku && row.title == item.title && row.quantity == item.quantity.GetOr(0)
    && Some(row.unitPriceMu) == lib.toMinorUnits(item.price.GetOr("0"), lib.upper(p.currency.GetOr("INR")))
    && row.gstSlabBp == lib.gstSlabBp
  }

  /** The moment an order counts for: created_at, or the clock. */
  function Moment(lib: Lib, p: Payload, now: int): int {
    if NoDate(p.createdAt) then now else lib.parseDate(p.createdAt.value).GetOr(now)
  }

  /** A ClickHouse row tells the order fact, the moment and the clock, column by column. */
  predicate ChOrderOf(lib: Lib, p: Payload, o: OrderFact, now: int, r: ChOrder) {
    && r.orderDate == lib.date(Moment(lib, p, now)) && r.placedAt == lib.dateTime64(Moment(lib, p, now))
    && r.customerRef == o.customerRef.GetOr("") && r.deliveryPincode == o.deliveryPincode.GetOr("")
    && r.deliveryCity == o.deliveryCity.GetOr("")
    && r.grossSalesMu == o.grossSalesMu && r.discountMu == o.totalDiscountMu && r.taxMu == o.totalTaxMu
    && r.shippingMu == 0 && r.netSalesMu + r.discountMu == r.grossSalesMu && r.totalRefundMu == 0
    && r.currencyCode == o.currencyCode && r.paymentMethod == o.paymentMethod.GetOr("")
    && (r.isCod == 1 || r.isCod == 0) && (r.isCod == 1 <==> o.paymentMethod == Some("COD")) && r.orderType == ""
    && r.financialStatus == p.financialStatus.GetOr("") && r.fulfillmentStatus == p.fulfillmentStatus.GetOr("")
    && (NoDate(p.cancelledAt) ==> r.cancelledAt == None)
    && (!NoDate(p.cancelledAt) ==>
          && lib.parseDate(p.cancelledAt.value).Some?
          && r.cancelledAt == Some(lib.dateTime(lib.parseDate(p.cancelledAt.value).value)))
    && r.ingestedAt == lib.dateTime(now)
  }

  /** A ClickHouse row tells the item; its currency is always INR. */
  predicate ChLineOf(lib: Lib, p: Payload, item: RawLine, now: int, r: ChLine) {
    && IsGid("gid://shopify/Product/", item.productId, r.vendorProductId)
    && IsGid("gid://shopify/ProductVariant/", item.variantId, r.vendorVariantId)
    && r.sku == item.sku.GetOr("") && r.title == item.title.GetOr("") && r.quantity == item.quantity.GetOr(0)
    && Some(r.priceMu) == lib.toMinorUnits(item.price.GetOr("0"), lib.upper(p.currency.GetOr("INR")))
    && r.lineTotalMu == r.priceMu * r.quantity && r.discountMu == 0 && r.taxMu == 0 && r.cogsMu == 0
    && r.currencyCode == "INR" && r.orderDate == lib.date(Moment(lib, p, now)) && r.ingestedAt == lib.dateTime(now)
  }

  // ----- Postgres -------------------------------------------------------------------------------

  /** The order's row is there, is the event's own, and keeps its flag; no other row has changed. */
  predicate OrderLanded(lib: Lib, before: PgOrders, after: PgOrders, ws: string, p: Payload) {
    var k := OrderKey(ws, "SHOPIFY", p.shopifyOrderId.GetOr(""));
    && k in after && OrderOf(lib, p, after[k].fact)
    && after[k].isNewCustomer == (if k in before then before[k].isNewCustomer else None)
    && after == before[k := after[k]]
  }

  /** No item behind i has its row. */
  predicate LastOfRow(p: Payload, i: nat)
    requires i < |Items(p)|
  {
    forall j: nat | i < j < |Items(p)| :: LineId(p, j) != LineId(p, i)
  }

  /** Every item's row is there, and is that of the last item with its id; no other row has changed. */
  ghost predicate LinesLanded(lib: Lib, before: PgLines, after: PgLines, ws: string, p: Payload) {
    && (forall i: nat | i < |Items(p)| :: RowKey(ws, p, i) in after)
    && (forall i: nat | i < |Items(p)| && LastOfRow(p, i) :: PgLineOf(lib, p, Items(p)[i], after[RowKey(ws, p, i)]))
    && (forall k | k in before :: k in after)
    && (forall k | k in after ::
          (exists i: nat :: i < |Items(p)| && RowKey(ws, p, i) == k) || (k in before && after[k] == before[k]))
  }

  lemma LineIdOf(lib: Lib, p: Payload, lines: seq<LineFact>, i: nat, ws: string)
    requires LinesOf(lib, p, lines) && i < |lines|
    ensures KeyOfLine(ws, lines[i]) == RowKey(ws, p, i) && lines[i].vendorLineId == LineId(p, i)
    ensures PgLineOf(lib, p, Items(p)[i], PgRowOfLine(lines[i]))
  {
  }

  /** The upserts of the first n lines. */
  ghost predicate FirstLanded(t: PgLines, after: PgLines, ws: string, lines: seq<LineFact>, n: nat)
    requires n <= |lines|
  {
    && (forall i: nat | i < n :: KeyOfLine(ws, lines[i]) in after)
    && (forall i: nat | i < n && (forall j: nat | i < j < n :: KeyOfLine(ws, lines[j]) != KeyOfLine(ws, lines[i])) ::
          after[KeyOfLine(ws, lines[i])] == PgRowOfLine(lines[i]))
    && (forall k | k in t :: k in after)
    && (forall k | k in after ::
          (exists i: nat :: i < n && KeyOfLine(ws, lines[i]) == k) || (k in t && after[k] == t[k]))
  }

  lemma {:induction false} UpsertsLand(t: PgLines, ws: string, lines: seq<LineFact>, n: nat)
    requires n <= |lines|
    ensures FirstLanded(t, UpsertLines(t, ws, lines[..n]), ws, lines, n)
    decreases n
  {
    hide KeyOfLine, PgRowOfLine;
    if n > 0 {
      UpsertsLand(t, ws, lines, n - 1);
      assert lines[..n][..n - 1] == lines[..n - 1] && lines[..n][n - 1] == lines[n - 1];
      OneMoreLands(t, UpsertLines(t, ws, lines[..n - 1]), ws, lines, n - 1);
    }
  }

  /** The last of n + 1 lines stands; of the others those whose key it does not take. */
  lemma OneMoreLands(t: PgLines, after: PgLines, ws: string, lines: seq<LineFact>, n: nat)
    requires n < |lines| && FirstLanded(t, after, ws, lines, n)
    ensures FirstLanded(t, after[KeyOfLine(ws, lines[n]) := PgRowOfLine(lines[n])], ws, lines, n + 1)
  {
    hide KeyOfLine, PgRowOfLine;
    var more := after[KeyOfLine(ws, lines[n]) := PgRowOfLine(lines[n])];
    forall i: nat | i < n + 1 && (forall j: nat | i < j < n + 1 :: KeyOfLine(ws, lines[j]) != KeyOfLine(ws, lines[i]))
      ensures KeyOfLine(ws, lines[i]) in more && more[KeyOfLine(ws, lines[i])] == PgRowOfLine(lines[i])
    {
      if i < n { assert KeyOfLine(ws, lines[n]) != KeyOfLine(ws, lines[i]); }
    }
    forall x | x in more
      ensures (exists i: nat :: i < n + 1 && KeyOfLine(ws, lines[i]) == x) || (x in t && more[x] == t[x])
    {
      OneMoreKey(t, after, ws, lines, n, x);
    }
  }

  lemma OneMoreKey(t: PgLines, after: PgLines, ws: string, lines: seq<LineFact>, n: nat, x: LineKey)
    requires n < |lines| && FirstLanded(t, after, ws, lines, n)
    requires x in after || x == KeyOfLine(ws, lines[n])
    ensures
      var more := after[KeyOfLine(ws, lines[n]) := PgRowOfLine(lines[n])];
      (exists i: nat :: i < n + 1 && KeyOfLine(ws, lines[i]) == x) || (x in t && more[x] == t[x])
  {
    hide KeyOfLine, PgRowOfLine;
    if x != KeyOfLine(ws, lines[n]) && exists i: nat :: i < n && KeyOfLine(ws, lines[i]) == x {
      var i: nat :| i < n && KeyOfLine(ws, lines[i]) == x;
    }
  }

  /** The lines' keys and rows are those of the items. */
  ghost predicate Alike(lib: Lib, ws: string, p: Payload, lines: seq<LineFact>) {
    && |lines| == |Items(p)|
    && forall i: nat | i < |lines| ::
         KeyOfLine(ws, lines[i]) == RowKey(ws, p, i) && PgLineOf(lib, p, Items(p)[i], PgRowOfLine(lines[i]))
  }

  lemma LinesAlike(lib: Lib, ws: string, p: Payload, lines: seq<LineFact>)
    requires LinesOf(lib, p, lines)
    ensures Alike(lib, ws, p, lines)
  {
    hide LinesOf, PgLineOf, RowKey, KeyOfLine, PgRowOfLine, LineId;
    ItemsOf(lib, p, lines);
    forall i: nat | i < |lines|
      ensures KeyOfLine(ws, lines[i]) == RowKey(ws, p, i) && PgLineOf(lib, p, Items(p)[i], PgRowOfLine(lines[i]))
    {
      LineIdOf(lib, p, lines, i, ws);
    }
  }

  lemma LandsLines(lib: Lib, t: PgLines, ws: string, p: Payload, lines: seq<LineFact>)
    requires LinesOf(lib, p, lines)
    ensures LinesLanded(lib, t, UpsertLines(t, ws, lines), ws, p)
  {
    hide *;
    LinesAlike(lib, ws, p, lines);
    UpsertsLand(t, ws, lines, |lines|);
    assert lines[..|lines|] == lines;
    AlikeLands(lib, t, UpsertLines(t, ws, lines), ws, p, lines);
  }

  lemma AlikeLands(lib: Lib, t: PgLines, after: PgLines, ws: string, p: Payload, lines: seq<LineFact>)
    requires Alike(lib, ws, p, lines) && FirstLanded(t, after, ws, lines, |lines|)
    ensures LinesLanded(lib, t, after, ws, p)
  {
    hide PgLineOf, RowKey, KeyOfLine, PgRowOfLine, LineId, LastOfRow, Items;
    forall i: nat | i < |lines| && LastOfRow(p, i) ensures PgLineOf(lib, p, Items(p)[i], after[RowKey(ws, p, i)]) {
      LastIsLast(lib, ws, p, lines, i);
    }
    forall k | k in after
      ensures (exists i: nat :: i < |Items(p)| && RowKey(ws, p, i) == k) || (k in t && after[k] == t[k])
    {
      if exists i: nat :: i < |lines| && KeyOfLine(ws, lines[i]) == k {
        var i: nat :| i < |lines| && KeyOfLine(ws, lines[i]) == k;
        assert RowKey(ws, p, i) == k;
      }
    }
  }

  lemma LastIsLast(lib: Lib, ws: string, p: Payload, lines: seq<LineFact>, i: nat)
    requires Alike(lib, ws, p, lines) && i < |lines| && LastOfRow(p, i)
    ensures forall j: nat | i < j < |lines| :: KeyOfLine(ws, lines[j]) != KeyOfLine(ws, lines[i])
  {
    hide PgLineOf, RowKey, KeyOfLine, PgRowOfLine, LineId;
    forall j: nat | i < j < |lines| ensures KeyOfLine(ws, lines[j]) != KeyOfLine(ws, lines[i]) {
      SameRow(ws, p, i, j);
    }
  }

  lemma ItemsOf(lib: Lib, p: Payload, lines: seq<LineFact>)
    requires LinesOf(lib, p, lines)
    ensures |lines| == |Items(p)|
  {
  }

  lemma SameRow(ws: string, p: Payload, i: nat, j: nat)
    requires i < |Items(p)| && j < |Items(p)|
    ensures RowKey(ws, p, i) == RowKey(ws, p, j) <==> LineId(p, i) == LineId(p, j)
  {
  }

  // ----- ClickHouse -----------------------------------------------------------------------------

  /** The block of an order insert: one row, the order's, under the broker's stamp or the clock. */
  predicate OrderBlock(lib: Lib, m: Message, o: OrderFact, now: nat, block: seq<Fact<OrderKey, ChOrder>>)
    requires m.value.Parsed? && m.value.value.payload.Parsed?
  {
    var e, p := m.value.value, m.value.value.payload.value;
    && |block| == 1 && block[0].key == OrderKey(e.workspaceId, "SHOPIFY", p.shopifyOrderId.GetOr(""))
    && block[0].version == m.timestamp.GetOr(now) && ChOrderOf(lib, p, o, now, block[0].data)
  }

  /** The block of a line insert: the items in order. */
  predicate ItemBlock(lib: Lib, m: Message, now: nat, block: seq<Fact<LineKey, ChLine>>)
    requires m.value.Parsed? && m.value.value.payload.Parsed?
  {
    var e, p := m.value.value, m.value.value.payload.value;
    && |block| == |Items(p)|
    && forall i: nat | i < |block| ::
         && block[i].key == RowKey(e.workspaceId, p, i) && block[i].version == m.timestamp.GetOr(now)
         && ChLineOf(lib, p, Items(p)[i], now, block[i].data)
  }

  predicate Cancellable(lib: Lib, p: Payload) { NoDate(p.cancelledAt) || lib.parseDate(p.cancelledAt.value).Some? }

  lemma OrderInsert(lib: Lib, m: Message, l: Landing, now: nat)
    requires Landable(lib, m) && OrderOf(lib, m.value.value.payload.value, l.order)
    requires l.workspaceId == m.value.value.workspaceId
    ensures
      var p, row := m.value.value.payload.value, ChOrderRow(lib, l.order, now);
      && (row.Some? <==> Cancellable(lib, p))
      && (row.Some? ==>
            OrderBlock(lib, m, l.order, now, [Fact(KeyOfOrder(l.workspaceId, l.order), Version(m, now), row.value)]))
  {
  }

  lemma LineInsert(lib: Lib, m: Message, l: Landing, now: nat)
    requires Landable(lib, m) && OrderOf(lib, m.value.value.payload.value, l.order)
    requires LinesOf(lib, m.value.value.payload.value, l.lines) && l.workspaceId == m.value.value.workspaceId
    ensures ItemBlock(lib, m, now, LineBlock(lib, l, Version(m, now), now))
  {
    hide OrderOf, Mappable, RowKey, KeyOfLine;
    var p := m.value.value.payload.value;
    DateOfOrder(lib, p, l.order);
    forall i: nat | i < |l.lines|
      ensures KeyOfLine(l.workspaceId, l.lines[i]) == RowKey(m.value.value.workspaceId, p, i)
      ensures ChLineOf(lib, p, Items(p)[i],
                       now, ChLineRow(lib, l.lines[i], lib.date(DateOr(lib, l.order.processedAt, now)), now))
    {
      LineIdOf(lib, p, l.lines, i, l.workspaceId);
    }
  }

  /** One insert of such a block, or none. */
  ghost predicate OrderInserted(lib: Lib, m: Message, o: OrderFact, now: nat, before: Store<OrderKey, ChOrder>,
                                after: Store<OrderKey, ChOrder>)
    requires m.value.Parsed? && m.value.value.payload.Parsed?
  {
    exists block :: OrderBlock(lib, m, o, now, block) && after == Apply(before, Insert(block))
  }

  ghost predicate ItemsInserted(lib: Lib, m: Message, now: nat, before: Store<LineKey, ChLine>,
                                after: Store<LineKey, ChLine>)
    requires m.value.Parsed? && m.value.value.payload.Parsed?
  {
    exists block :: ItemBlock(lib, m, now, block) && after == Apply(before, Insert(block))
  }

  // ----- one delivery ---------------------------------------------------------------------------

  /**
   A delivery, by the message's own fields: it lands exactly when the message says enough and the
   transaction commits; then Postgres has its order and its lines; ClickHouse gets the order unless its
   cancellation cannot be read or the insert is dropped, and the lines behind an acknowledged order insert.
   */
  lemma DeliversExactly(lib: Lib, w: World, m: Message, now: nat, o: Outcome)
    ensures
      var w' := Deliver(lib, w, m, now, o);
      if !Landable(lib, m) || o.PgAborts? then w' == w
      else
        var e, p := m.value.value, m.value.value.payload.value;
        var k := OrderKey(e.workspaceId, "SHOPIFY", p.shopifyOrderId.GetOr(""));
        && OrderLanded(lib, w.pgOrders, w'.pgOrders, e.workspaceId, p)
        && LinesLanded(lib, w.pgLines, w'.pgLines, e.workspaceId, p)
        && (if Cancellable(lib, p) && !o.orders.Dropped? then
              OrderInserted(lib, m, w'.pgOrders[k].fact, now, w.chOrders, w'.chOrders)
            else w'.chOrders == w.chOrders)
        && (if Cancellable(lib, p) && o.orders.Acked? && !o.lines.Dropped? && Items(p) != [] then
              ItemsInserted(lib, m, now, w.chLines, w'.chLines)
            else w'.chLines == w.chLines)
  {
    hide Accept, Landable, OrderOf, LinesOf, LinesLanded, UpsertLines, ChOrderRow, LineBlock, Cancellable, OrderBlock,
      ItemBlock, Apply;
    AcceptsExactly(lib, m);
    if Landable(lib, m) && o.PgCommits? {
      LandableIsParsed(lib, m);
      var l, p := Accept(lib, m).value, m.value.value.payload.value;
      DateOfOrder(lib, p, l.order);
      ItemsOf(lib, p, l.lines);
      LandsLines(lib, w.pgLines, l.workspaceId, p, l.lines);
      OrderInsert(lib, m, l, now);
      LineInsert(lib, m, l, now);
    }
  }

  lemma LandableIsParsed(lib: Lib, m: Message)
    requires Landable(lib, m)
    ensures m.value.Parsed? && m.value.value.payload.Parsed? && m.value.value.payload.value.shopifyOrderId.Some?
  {
  }
}
