/**
 What an order event turns into: where every figure of the facts comes from, and that no line item
 is lost on the way to Postgres.
 */
module FactsMapping {
  import opened Digits
  import opened Options
  import opened FactsConsumer

  /** An absent, empty or zero subtotal does not count. */
  predicate HasSubtotal(p: Payload) {
    && p.subtotalPrice.Some? && p.subtotalPrice.value != "" && p.subtotalPrice.value != "0"
    && p.subtotalPrice.value != "0.00"
  }

  /** The payment method comes from the gateway names, or else from the one gateway named, or from none. */
  predicate PaidBy(lib: Lib, raw: RawOrder, paid: Option<string>) {
    match (raw.gatewayNames, raw.gateway)
    case (Some(names), _) => paid == lib.classifyPayment(Some(names))
    case (None, Some(name)) => paid == lib.classifyPayment(if name == "" then None else Some([name]))
    case (None, None) => paid == lib.classifyPayment(None)
  }

  /** Every figure of o is the payload's, in the payload's currency; gross sales carry no tax. */
  predicate OrderOf(lib: Lib, p: Payload, o: OrderFact) {
    && Some(o.vendorOrderId) == p.shopifyOrderId && o.vendorOrderId != ""
    && o.currencyCode == lib.upper(p.currency.GetOr("INR"))
    && Some(o.totalTaxMu) == lib.toMinorUnits(p.totalTax.GetOr("0"), o.currencyCode)
    && Some(o.totalDiscountMu) == lib.toMinorUnits(p.totalDiscounts.GetOr("0"), o.currencyCode)
    && (if HasSubtotal(p) then Some(o.grossSalesMu) == lib.toMinorUnits(p.subtotalPrice.value, o.currencyCode)
        else Some(o.grossSalesMu + o.totalTaxMu) == lib.toMinorUnits(p.totalPrice.GetOr("0"), o.currencyCode))
    && o.shippingMu == 0
    && o.orderNumber == p.orderNumber && o.financialStatus == p.financialStatus
    && o.fulfillmentStatus == p.fulfillmentStatus
    && o.processedAt == p.createdAt && o.cancelledAt == p.cancelledAt
    && (p.raw.Parsed? ==>
          && o.customerRef == lib.customerRef(p.raw.value.customerId)
          && o.deliveryPincode == p.raw.value.zip && o.deliveryCity == p.raw.value.city
          && PaidBy(lib, p.raw.value, o.paymentMethod))
    && (!p.raw.Parsed? ==>
          && o.customerRef == lib.customerRef(None) && o.deliveryPincode == None && o.deliveryCity == None
          && o.paymentMethod == lib.classifyPayment(None))
  }

  /** The id behind its prefix, or nothing for no id. */
  predicate IsGid(prefix: string, id: Option<string>, gid: string) {
    if id == None || id == Some("") then gid == "" else gid == prefix + id.value
  }

  /** li is the fact of the item at position idx: what the item says, under its own id or its place. */
  predicate LineOf(lib: Lib, orderId: string, currency: string, item: RawLine, idx: nat, li: LineFact) {
    && li.vendorOrderId == orderId
    && (item.id.Some? ==> li.vendorLineId == item.id.value)
    && (item.id.None? ==> li.vendorLineId == orderId + ":" + Show(idx))
    && li.sku == item.sku && li.title == item.title && li.quantity == item.quantity.GetOr(0)
    && Some(li.unitPriceMu) == lib.toMinorUnits(item.price.GetOr("0"), currency)
    && IsGid("gid://shopify/Product/", item.productId, li.vendorProductId)
    && IsGid("gid://shopify/ProductVariant/", item.variantId, li.vendorVariantId)
    && li.gstSlabBp == lib.gstSlabBp
  }

  function Items(p: Payload): seq<RawLine> {
    if p.raw.Parsed? then p.raw.value.lineItems.GetOr([]) else []
  }

  lemma {:induction false} LinesMap(lib: Lib, orderId: string, currency: string, items: seq<RawLine>)
    ensures var lines := MapLines(lib, orderId, currency, items);
      lines.Some? ==>
        |lines.value| == |items| &&
        forall i: nat | i < |items| :: LineOf(lib, orderId, currency, items[i], i, lines.value[i])
    decreases |items|
  {
    hide LineOf, MapLine;
    if items != [] {
      var n := |items| - 1;
      LinesMap(lib, orderId, currency, items[..n]);
      LineMaps(lib, orderId, currency, items[n], n);
    }
  }

  lemma LineMaps(lib: Lib, orderId: string, currency: string, item: RawLine, idx: nat)
    ensures var li := MapLine(lib, orderId, currency, item, idx);
      li.Some? ==> LineOf(lib, orderId, currency, item, idx, li.value)
  {
    ProductGid(item);
    hide ToGid, IsGid;
  }

  lemma ProductGid(item: RawLine)
    ensures IsGid("gid://shopify/Product/", item.productId, ToGid("Product", item.productId))
    ensures IsGid("gid://shopify/ProductVariant/", item.variantId, ToGid("ProductVariant", item.variantId))
  {
    GidParts("Product", "gid://shopify/Product/", item.productId);
    GidParts("ProductVariant", "gid://shopify/ProductVariant/", item.variantId);
  }

  lemma GidParts(kind: string, prefix: string, id: Option<string>)
    requires prefix == "gid://shopify/" + kind + "/"
    ensures IsGid(prefix, id, ToGid(kind, id))
  {
  }

  /** The facts of an event are its own order and its own items, one line fact each, in order. */
  lemma MappingIsFaithful(lib: Lib, e: Envelope)
    requires MapEnvelopeToFacts(lib, e).Some?
    ensures e.payload.Parsed?
    ensures
      var p, facts := e.payload.value, MapEnvelopeToFacts(lib, e).value;
      && OrderOf(lib, p, facts.order)
      && |facts.lines| == |Items(p)|
      && forall i: nat | i < |facts.lines| ::
           LineOf(lib, facts.order.vendorOrderId, facts.order.currencyCode, Items(p)[i], i, facts.lines[i])
  {
    hide LineOf, MapLines;
    var p := e.payload.value;
    LinesMap(lib, p.shopifyOrderId.GetOr(""), lib.upper(p.currency.GetOr("INR")), Items(p));
  }

  lemma ShowInjective(m: nat, n: nat)
    requires Show(m) == Show(n)
    ensures m == n
  {
    ValueOfShow(m);
    ValueOfShow(n);
  }

  /** Items without ids get line ids of their own. */
  lemma PlacesAreDistinct(orderId: string, i: nat, j: nat)
    requires orderId + ":" + Show(i) == orderId + ":" + Show(j)
    ensures i == j
  {
    var n := |orderId + ":"|;
    assert (orderId + ":" + Show(i))[n..] == Show(i) && (orderId + ":" + Show(j))[n..] == Show(j);
    ShowInjective(i, j);
  }

  predicate LineIdsDistinct(lines: seq<LineFact>) {
    forall i: nat, j: nat | i < j < |lines| :: lines[i].vendorLineId != lines[j].vendorLineId
  }

  /** pg holds one row per line, each line's own. */
  ghost predicate HoldsLines(ws: string, lines: seq<LineFact>, pg: PgLines) {
    && |pg| == |lines|
    && (forall i: nat | i < |lines| ::
          KeyOfLine(ws, lines[i]) in pg && pg[KeyOfLine(ws, lines[i])] == PgRowOfLine(lines[i]))
    && forall k | k in pg :: exists i: nat :: i < |lines| && k == KeyOfLine(ws, lines[i])
  }

  lemma DifferentKeys(ws: string, a: LineFact, b: LineFact)
    requires a.vendorLineId != b.vendorLineId
    ensures KeyOfLine(ws, a) != KeyOfLine(ws, b)
  {
  }

  lemma KeysGrow(ws: string, lines: seq<LineFact>, li: LineFact, k: LineKey)
    requires k == KeyOfLine(ws, li) || exists i: nat :: i < |lines| && k == KeyOfLine(ws, lines[i])
    ensures exists i: nat :: i < |lines + [li]| && k == KeyOfLine(ws, (lines + [li])[i])
  {
    hide KeyOfLine;
    var all := lines + [li];
    if k == KeyOfLine(ws, li) {
      assert all[|lines|] == li;
    } else {
      var i: nat :| i < |lines| && k == KeyOfLine(ws, lines[i]);
      assert all[i] == lines[i];
    }
  }

  lemma OneMoreKey(pg: PgLines, k: LineKey, row: PgLine)
    requires k !in pg
    ensures |pg[k := row]| == |pg| + 1
  {
    assert pg[k := row].Keys == pg.Keys + {k};
  }

  lemma OneMoreLine(ws: string, lines: seq<LineFact>, li: LineFact, pg: PgLines)
    requires HoldsLines(ws, lines, pg) && forall i: nat | i < |lines| :: lines[i].vendorLineId != li.vendorLineId
    ensures HoldsLines(ws, lines + [li], pg[KeyOfLine(ws, li) := PgRowOfLine(li)])
  {
    hide PgRowOfLine, KeyOfLine;
    var k, all := KeyOfLine(ws, li), lines + [li];
    forall i: nat | i < |lines| ensures KeyOfLine(ws, lines[i]) != k { DifferentKeys(ws, lines[i], li); }
    OneMoreKey(pg, k, PgRowOfLine(li));
    var pg' := pg[k := PgRowOfLine(li)];
    forall x | x in pg' ensures exists i: nat :: i < |all| && x == KeyOfLine(ws, all[i]) {
      KeysGrow(ws, lines, li, x);
    }
    forall i: nat | i < |all|
      ensures KeyOfLine(ws, all[i]) in pg' && pg'[KeyOfLine(ws, all[i])] == PgRowOfLine(all[i])
    {
      assert all[i] == if i < |lines| then lines[i] else li;
    }
  }

  /** One Postgres row per line with a line id of its own, holding that line. */
  lemma {:induction false} NoLineIsLost(ws: string, lines: seq<LineFact>)
    requires LineIdsDistinct(lines)
    ensures HoldsLines(ws, lines, UpsertLines(map[], ws, lines))
    decreases |lines|
  {
    if lines != [] {
      var n := |lines| - 1;
      var front, last := lines[..n], lines[n];
      assert lines == front + [last];
      assert forall i: nat | i < n :: front[i].vendorLineId != last.vendorLineId;
      NoLineIsLost(ws, front);
      hide HoldsLines, KeyOfLine, PgRowOfLine;
      OneMoreLine(ws, front, last, UpsertLines(map[], ws, front));
    }
  }

  /** An event whose items carry no ids lands as many lines in Postgres as it has items. */
  lemma ItemsWithoutIdsAllLand(lib: Lib, e: Envelope, ws: string)
    requires MapEnvelopeToFacts(lib, e).Some? && e.payload.Parsed?
    requires forall i: nat | i < |Items(e.payload.value)| :: Items(e.payload.value)[i].id.None?
    ensures |UpsertLines(map[], ws, MapEnvelopeToFacts(lib, e).value.lines)| == |Items(e.payload.value)|
  {
    hide UpsertLines, MapEnvelopeToFacts;
    MappingIsFaithful(lib, e);
    var facts := MapEnvelopeToFacts(lib, e).value;
    forall i: nat, j: nat | i < j < |facts.lines| ensures facts.lines[i].vendorLineId != facts.lines[j].vendorLineId {
      var id := facts.order.vendorOrderId;
      assert LineOf(lib, id, facts.order.currencyCode, Items(e.payload.value)[i], i, facts.lines[i]);
      if facts.lines[i].vendorLineId == facts.lines[j].vendorLineId { PlacesAreDistinct(id, i, j); }
    }
    NoLineIsLost(ws, facts.lines);
  }
}
