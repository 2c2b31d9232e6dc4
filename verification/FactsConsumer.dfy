/**
 The Kafka consumer that lands Shopify order events: what one message maps to, the Postgres upserts
 in one transaction, and the ClickHouse inserts that may fail on their own.
 */
module FactsConsumer {
  import opened Digits
  import opened Options
  import opened ReplacingMergeTree
  import opened Replay

  /** A field holding JSON text: absent or empty, not parseable, or parsed. */
  datatype Text<+T> = Blank | Malformed | Parsed(value: T)

  datatype Message = Message(value: Text<Envelope>, timestamp: Option<nat>)

  datatype Envelope = Envelope(workspaceId: string, eventType: string, payload: Text<Payload>)

  datatype Payload = Payload(
    shopifyOrderId: Option<string>, orderNumber: Option<string>,
    financialStatus: Option<string>, fulfillmentStatus: Option<string>,
    totalPrice: Option<string>, subtotalPrice: Option<string>, totalDiscounts: Option<string>, totalTax: Option<string>,
    currency: Option<string>, createdAt: Option<string>, cancelledAt: Option<string>, raw: Text<RawOrder>)

  datatype RawOrder = RawOrder(
    customerId: Option<string>, gateway: Option<string>, gatewayNames: Option<seq<string>>,
    zip: Option<string>, city: Option<string>, lineItems: Option<seq<RawLine>>)

  datatype RawLine = RawLine(
    id: Option<string>, productId: Option<string>, variantId: Option<string>, sku: Option<string>,
    title: Option<string>,
    quantity: Option<int>, price: Option<string>)

  /** The library functions the mapping calls; None stands for a thrown error. */
  datatype Lib = Lib(
    toMinorUnits: (string, string) -> Option<int>,
    customerRef: Option<string> -> Option<string>,
    classifyPayment: Option<seq<string>> -> Option<string>,
    gstSlabBp: int,
    upper: string -> string,
    parseDate: string -> Option<int>,
    date: int -> string, dateTime: int -> string, dateTime64: int -> string)

  // ----- facts ----------------------------------------------------------------------------------

  const VENDOR: string := "SHOPIFY"

  datatype OrderFact = OrderFact(
    vendorOrderId: string, orderNumber: Option<string>,
    financialStatus: Option<string>, fulfillmentStatus: Option<string>, paymentMethod: Option<string>,
    currencyCode: string,
    grossSalesMu: int, totalDiscountMu: int, totalTaxMu: int, shippingMu: int, customerRef: Option<string>,
    deliveryPincode: Option<string>, deliveryCity: Option<string>, processedAt: Option<string>,
    cancelledAt: Option<string>)

  datatype LineFact = LineFact(
    vendorOrderId: string, vendorLineId: string, vendorProductId: string, vendorVariantId: string,
    sku: Option<string>, title: Option<string>, quantity: int, unitPriceMu: int, gstSlabBp: int)

  datatype Mapped = Mapped(order: OrderFact, lines: seq<LineFact>)

  function ToGid(kind: string, id: Option<string>): string {
    if id.Some? && id.value != "" then "gid://shopify/" + kind + "/" + id.value else ""
  }

  function MapLine(lib: Lib, orderId: string, currency: string, li: RawLine, idx: nat): Option<LineFact> {
    match lib.toMinorUnits(li.price.GetOr("0"), currency)
    case None => None
    case Some(price) =>
      Some(LineFact(orderId, if li.id.Some? then li.id.value else orderId + ":" + Show(idx),
                    ToGid("Product", li.productId), ToGid("ProductVariant", li.variantId),
                    li.sku, li.title, li.quantity.GetOr(0), price, lib.gstSlabBp))
  }

  function MapLines(lib: Lib, orderId: string, currency: string, items: seq<RawLine>): Option<seq<LineFact>>
    decreases |items|
  {
    if items == [] then Some([])
    else
      var n := |items| - 1;
      match MapLines(lib, orderId, currency, items[..n])
      case None => None
      case Some(front) =>
        match MapLine(lib, orderId, currency, items[n], n)
        case None => None
        case Some(last) => Some(front + [last])
  }

  /** Gross sales before tax: the subtotal, or the total with the tax taken out. */
  function GrossSales(lib: Lib, p: Payload, currency: string, tax: int): Option<int> {
    if p.subtotalPrice.Some? && p.subtotalPrice.value !in {"", "0", "0.00"} then
      lib.toMinorUnits(p.subtotalPrice.value, currency)
    else
      match lib.toMinorUnits(p.totalPrice.GetOr("0"), currency)
      case None => None
      case Some(total) => Some(total - tax)
  }

  function GatewayNames(raw: RawOrder): Option<seq<string>> {
    if raw.gatewayNames.Some? then raw.gatewayNames
    else if raw.gateway.Some? && raw.gateway.value != "" then Some([raw.gateway.value])
    else None
  }

  const NO_RAW_ORDER := RawOrder(None, None, None, None, None, None)

  function MapOrder(lib: Lib, p: Payload, orderId: string, currency: string, raw: RawOrder): Option<OrderFact> {
    match (lib.toMinorUnits(p.totalDiscounts.GetOr("0"), currency), lib.toMinorUnits(p.totalTax.GetOr("0"), currency))
    case (Some(discount), Some(tax)) =>
      (match GrossSales(lib, p, currency, tax)
       case None => None
       case Some(gross) =>
         Some(OrderFact(orderId, p.orderNumber, p.financialStatus, p.fulfillmentStatus,
                        lib.classifyPayment(GatewayNames(raw)), currency, gross, discount, tax, 0,
                        lib.customerRef(raw.customerId), raw.zip, raw.city, p.createdAt, p.cancelledAt)))
    case _ => None
  }

  /** mapEnvelopeToFacts; None where it throws. */
  function MapEnvelopeToFacts(lib: Lib, e: Envelope): Option<Mapped> {
    if !e.payload.Parsed? then None
    else
      var p := e.payload.value;
      var currency := lib.upper(p.currency.GetOr("INR"));
      var orderId := p.shopifyOrderId.GetOr("");
      if orderId == "" || p.raw.Malformed? then None
      else
        var raw := if p.raw.Parsed? then p.raw.value else NO_RAW_ORDER;
        match (MapOrder(lib, p, orderId, currency, raw), MapLines(lib, orderId, currency, raw.lineItems.GetOr([])))
        case (Some(order), Some(lines)) => Some(Mapped(order, lines))
        case _ => None
  }

  /** What a message lands; None when eachMessage logs and skips it before any write. */
  datatype Landing = Landing(workspaceId: string, order: OrderFact, lines: seq<LineFact>)

  predicate ReadableDate(lib: Lib, d: Option<string>) {
    d.Some? && d.value != "" ==> lib.parseDate(d.value).Some?
  }

  function Accept(lib: Lib, m: Message): Option<Landing> {
    if !m.value.Parsed? then None
    else
      var e := m.value.value;
      if e.workspaceId == "" || e.payload.Blank? || e.eventType != "order" then None
      else
        match MapEnvelopeToFacts(lib, e)
        case None => None
        case Some(facts) =>
          if !ReadableDate(lib, facts.order.processedAt) then None
          else Some(Landing(e.workspaceId, facts.order, facts.lines))
  }

  // ----- Postgres -------------------------------------------------------------------------------

  datatype OrderKey = OrderKey(workspaceId: string, vendor: string, vendorOrderId: string)
  datatype LineKey = LineKey(workspaceId: string, vendor: string, vendorOrderId: string, vendorLineId: string)

  datatype PgOrder = PgOrder(fact: OrderFact, isNewCustomer: Option<bool>)
  datatype PgLine = PgLine(
    vendorProductId: string, sku: Option<string>, title: Option<string>, quantity: int, unitPriceMu: int,
    gstSlabBp: int)

  type PgOrders = map<OrderKey, PgOrder>
  type PgLines = map<LineKey, PgLine>

  function KeyOfOrder(ws: string, o: OrderFact): OrderKey { OrderKey(ws, VENDOR, o.vendorOrderId) }
  function KeyOfLine(ws: string, li: LineFact): LineKey { LineKey(ws, VENDOR, li.vendorOrderId, li.vendorLineId) }
  function PgRowOfLine(li: LineFact): PgLine {
    PgLine(li.vendorProductId, li.sku, li.title, li.quantity, li.unitPriceMu, li.gstSlabBp)
  }

  /** The conflict clause overwrites every column it lists; is_new_customer is not among them. */
  function UpsertOrder(t: PgOrders, ws: string, o: OrderFact): PgOrders {
    var k := KeyOfOrder(ws, o);
    t[k := PgOrder(o, if k in t then t[k].isNewCustomer else None)]
  }

  function UpsertLines(t: PgLines, ws: string, lines: seq<LineFact>): PgLines
    decreases |lines|
  {
    if lines == [] then t
    else
      var n := |lines| - 1;
      UpsertLines(t, ws, lines[..n])[KeyOfLine(ws, lines[n]) := PgRowOfLine(lines[n])]
  }

  // ----- ClickHouse -----------------------------------------------------------------------------

  datatype ChOrder = ChOrder(
    orderDate: string, placedAt: string, customerRef: string, deliveryPincode: string, deliveryCity: string,
    grossSalesMu: int, discountMu: int, taxMu: int, shippingMu: int, netSalesMu: int, totalRefundMu: int,
    currencyCode: string, paymentMethod: string, isCod: int, orderType: string,
    financialStatus: string, fulfillmentStatus: string, cancelledAt: Option<string>, ingestedAt: string)

  datatype ChLine = ChLine(
    vendorProductId: string, vendorVariantId: string, sku: string, title: string, quantity: int,
    priceMu: int, lineTotalMu: int, discountMu: int, taxMu: int, cogsMu: int,
    currencyCode: string, orderDate: string, ingestedAt: string)

  /** new Date(text), or the clock when the text is absent or empty. */
  function DateOr(lib: Lib, d: Option<string>, now: int): int {
    if d.Some? && d.value != "" then lib.parseDate(d.value).GetOr(now) else now
  }

  /** cancelled_at for ClickHouse; the outer None is the RangeError of an unreadable date. */
  function ChCancelledAt(lib: Lib, d: Option<string>): Option<Option<string>> {
    if d.None? || d.value == "" then Some(None)
    else
      match lib.parseDate(d.value)
      case None => None
      case Some(ms) => Some(Some(lib.dateTime(ms)))
  }

  function ChOrderRow(lib: Lib, o: OrderFact, now: int): Option<ChOrder> {
    var processedAt := DateOr(lib, o.processedAt, now);
    match ChCancelledAt(lib, o.cancelledAt)
    case None => None
    case Some(cancelledAt) =>
      Some(ChOrder(
             lib.date(processedAt), lib.dateTime64(processedAt),
             o.customerRef.GetOr(""), o.deliveryPincode.GetOr(""), o.deliveryCity.GetOr(""),
             o.grossSalesMu, o.totalDiscountMu, o.totalTaxMu, o.shippingMu, o.grossSalesMu - o.totalDiscountMu, 0,
             o.currencyCode, o.paymentMethod.GetOr(""), if o.paymentMethod == Some("COD") then 1 else 0, "",
             o.financialStatus.GetOr(""), o.fulfillmentStatus.GetOr(""), cancelledAt, lib.dateTime(now)))
  }

  function ChLineRow(lib: Lib, li: LineFact, orderDate: string, now: int): ChLine {
    ChLine(li.vendorProductId, li.vendorVariantId, li.sku.GetOr(""), li.title.GetOr(""), li.quantity,
           li.unitPriceMu, li.unitPriceMu * li.quantity, 0, 0, 0, "INR", orderDate, lib.dateTime(now))
  }

  function LineBlock(lib: Lib, l: Landing, version: nat, now: int): seq<Fact<LineKey, ChLine>> {
    var orderDate := lib.date(DateOr(lib, l.order.processedAt, now));
    seq(|l.lines|, i requires 0 <= i < |l.lines| =>
      Fact(KeyOfLine(l.workspaceId, l.lines[i]), version, ChLineRow(lib, l.lines[i], orderDate, now)))
  }

  // ----- one delivery ---------------------------------------------------------------------------

  datatype World = World(
    pgOrders: PgOrders, pgLines: PgLines, chOrders: Store<OrderKey, ChOrder>, chLines: Store<LineKey, ChLine>)

  /** An insert call succeeds, fails, or is applied with the reply lost (and so still throws). */
  datatype InsertOutcome = Acked | Dropped | ReplyLost

  datatype Outcome = PgAborts | PgCommits(orders: InsertOutcome, lines: InsertOutcome)

  function Version(m: Message, now: nat): nat { m.timestamp.GetOr(now) }

  function InsertIf<K(==), D(==)>(s: Store<K, D>, block: seq<Fact<K, D>>, o: InsertOutcome): Store<K, D> {
    if o.Dropped? then s else Apply(s, Insert(block))
  }

  /** The two ClickHouse inserts inside their own try block. */
  function InsertFacts(lib: Lib, w: World, l: Landing, version: nat, now: nat, o: Outcome): World
    requires o.PgCommits?
  {
    match ChOrderRow(lib, l.order, now)
    case None => w
    case Some(row) =>
      var w1 := w.(chOrders := InsertIf(w.chOrders, [Fact(KeyOfOrder(l.workspaceId, l.order), version, row)],
                                        o.orders));
      if o.orders.Acked? && l.lines != [] then
        w1.(chLines := InsertIf(w1.chLines, LineBlock(lib, l, version, now), o.lines))
      else w1
  }

  function CommitFacts(w: World, l: Landing): World {
    w.(pgOrders := UpsertOrder(w.pgOrders, l.workspaceId, l.order),
       pgLines := UpsertLines(w.pgLines, l.workspaceId, l.lines))
  }

  function Deliver(lib: Lib, w: World, m: Message, now: nat, o: Outcome): World {
    match Accept(lib, m)
    case None => w
    case Some(l) =>
      if o.PgAborts? then w else InsertFacts(lib, CommitFacts(w, l), l, Version(m, now), now, o)
  }

  /** The running consumer and the stores it writes. */
  class Consumer {
    const lib: Lib
    var pgOrders: PgOrders
    var pgLines: PgLines
    var chOrders: Store<OrderKey, ChOrder>
    var chLines: Store<LineKey, ChLine>

    ghost function State(): World
      reads this
    {
      World(pgOrders, pgLines, chOrders, chLines)
    }

    constructor (lib: Lib)
      ensures this.lib == lib && State() == World(map[], map[], Empty(), Empty())
    {
      this.lib := lib;
      pgOrders, pgLines := map[], map[];
      chOrders, chLines := Empty(), Empty();
    }

    method PgUpsertOrder(ws: string, o: OrderFact)
      modifies this`pgOrders
      ensures
        var k := OrderKey(ws, "SHOPIFY", o.vendorOrderId);
        var flag := if k in old(pgOrders) then old(pgOrders)[k].isNewCustomer else None;
        pgOrders == old(pgOrders)[k := PgOrder(o, flag)] == UpsertOrder(old(pgOrders), ws, o)
    {
      var k := KeyOfOrder(ws, o);
      var flag := if k in pgOrders then pgOrders[k].isNewCustomer else None;
      pgOrders := pgOrders[k := PgOrder(o, flag)];
    }

    method PgUpsertLineItem(ws: string, li: LineFact)
      modifies this`pgLines
      ensures
        var k := LineKey(ws, "SHOPIFY", li.vendorOrderId, li.vendorLineId);
        var row := PgLine(li.vendorProductId, li.sku, li.title, li.quantity, li.unitPriceMu, li.gstSlabBp);
        pgLines == old(pgLines)[k := row] == old(pgLines)[KeyOfLine(ws, li) := PgRowOfLine(li)]
    {
      pgLines := pgLines[KeyOfLine(ws, li) := PgRowOfLine(li)];
    }

    /** The transaction: the order, then its line items one after the other. */
    method PgTransaction(l: Landing)
      modifies this`pgOrders, this`pgLines
      ensures pgOrders == UpsertOrder(old(pgOrders), l.workspaceId, l.order)
      ensures pgLines == UpsertLines(old(pgLines), l.workspaceId, l.lines)
    {
      PgUpsertOrder(l.workspaceId, l.order);
      for i := 0 to |l.lines|
        invariant pgLines == UpsertLines(old(pgLines), l.workspaceId, l.lines[..i])
        invariant pgOrders == UpsertOrder(old(pgOrders), l.workspaceId, l.order)
      {
        assert l.lines[..i + 1][..i] == l.lines[..i];
        PgUpsertLineItem(l.workspaceId, l.lines[i]);
      }
      assert l.lines[..|l.lines|] == l.lines;
    }

    /** eachMessage: skip, or commit to Postgres and then try ClickHouse. */
    method EachMessage(m: Message, now: nat, o: Outcome)
      modifies this
      ensures State() == Deliver(lib, old(State()), m, now, o)
    {
      var accepted := Accept(lib, m);
      if accepted.None? || o.PgAborts? {
        return;
      }
      var l := accepted.value;
      var version := Version(m, now);
      PgTransaction(l);
      var row := ChOrderRow(lib, l.order, now);
      if row.None? {
        return;
      }
      chOrders := InsertIf(chOrders, [Fact(KeyOfOrder(l.workspaceId, l.order), version, row.value)], o.orders);
      if !o.orders.Acked? {
        return;
      }
      if l.lines != [] {
        chLines := InsertIf(chLines, LineBlock(lib, l, version, now), o.lines);
      }
    }
  }
}
