/** LineItemConsumer.consume: a line-item change event becomes either
    nothing or one upsertLineItem call; there is no id guard. */
module LineItemConsumer {
  import opened Java
  import opened Json
  import opened Entities
  import opened EntityStore
  import opened Service

  /** The unit price: a textual `price` through Double.parseDouble with 0.0
      on failure, any other non-null value through asDouble, and 0.0 when
      the field is missing or null. */
  function Price(p: Payload, parseDouble: DoubleParser): real {
    if HasValue(p, "price") then
      if p["price"].JText? then parseDouble(p["price"].s).GetOr(0.0)
      else AsDouble(p["price"], parseDouble)
    else 0.0
  }

  lemma PriceCases(p: Payload, parseDouble: DoubleParser)
    ensures !HasValue(p, "price") ==> Price(p, parseDouble) == 0.0
    ensures "price" in p && p["price"].JFloat? ==> Price(p, parseDouble) == p["price"].x
    ensures "price" in p && p["price"].JInt? ==> Price(p, parseDouble) == p["price"].i as real
    ensures "price" in p && p["price"].JText? && parseDouble(p["price"].s).None? ==> Price(p, parseDouble) == 0.0
    ensures "price" in p && p["price"].JText? && parseDouble(p["price"].s).Some? ==>
      Price(p, parseDouble) == parseDouble(p["price"].s).value
  {
  }

  /** The line item the setters build. */
  function LineItemOf(p: Payload, parseDouble: DoubleParser): LineItem {
    LineItem(
      IdValue(p, "id"),
      IdValue(p, "order_id"),
      StringValue(p, "product_code"),
      IntValue(p, "quantity", parseDouble),
      Price(p, parseDouble))
  }

  /** The decision consume takes: only the envelope gate, no id guard. */
  function Normalize(msg: Envelope, parseDouble: DoubleParser): (a: Action<LineItem>)
    ensures a.Upsert? <==> IsUpsertOp(msg.op) && msg.after.Some?
    ensures !IsUpsertOp(msg.op) ==> a == Skip(IgnoredOp)
    ensures IsUpsertOp(msg.op) && msg.after.None? ==> a == Skip(NullAfter)
    ensures a.Upsert? ==> var p := msg.after.value;
      && a.record.id == IdValue(p, "id")
      && a.record.orderId == IdValue(p, "order_id")
      && a.record.productName == StringValue(p, "product_code")
      && a.record.quantity == IntValue(p, "quantity", parseDouble)
      && a.record.unitPrice == Price(p, parseDouble)
      && (a.record.id.None? <==> "id" !in p)
      && (a.record.orderId.None? <==> "order_id" !in p)
      && (a.record.productName.Some? <==> HasValue(p, "product_code"))
      && (!HasValue(p, "quantity") ==> a.record.quantity == 0)
      && (!HasValue(p, "price") ==> a.record.unitPrice == 0.0)
  {
    match Gate(msg)
    case Skip(reason) => Skip(reason)
    case Upsert(p) => Upsert(LineItemOf(p, parseDouble))
  }

  /** consume: apply the decision; an exception from the store is caught, so
      the store is left as it was. */
  method Consume(state: OrderState, msg: Envelope, parseDouble: DoubleParser)
    modifies state
    ensures var a := Normalize(msg, parseDouble);
      a.Upsert? ==> state.Model() == After(EntityStore.UpsertLineItem(old(state.Model()), a.record), old(state.Model()))
    ensures Normalize(msg, parseDouble).Skip? ==> state.Model() == old(state.Model())
    ensures old(state.Valid()) ==> state.Valid()
  {
    var action := Normalize(msg, parseDouble);
    if action.Upsert? {
      var thrown := state.UpsertLineItem(action.record);
    }
  }

  /** A well-formed line-item row becomes the item it describes, whether its
      price arrives as a number or as text that parses. */
  lemma RowRoundTrip(op: string, id: int, orderId: int, product: string, quantity: int,
                     price: real, priceText: string, parseDouble: DoubleParser)
    requires op in {"c", "u", "r"}
    requires parseDouble(priceText) == Some(price)
    ensures var p := map["id" := JInt(id), "order_id" := JInt(orderId), "product_code" := JText(product),
                         "quantity" := JInt(quantity), "price" := JText(priceText)];
      Normalize(Envelope(Some(op), Some(p)), parseDouble) ==
        Upsert(LineItem(Some(DecimalString(id)), Some(DecimalString(orderId)), Some(product), quantity, price))
    ensures var p := map["id" := JInt(id), "order_id" := JInt(orderId), "product_code" := JText(product),
                         "quantity" := JInt(quantity), "price" := JFloat(price, priceText)];
      Normalize(Envelope(Some(op), Some(p)), parseDouble) ==
        Upsert(LineItem(Some(DecimalString(id)), Some(DecimalString(orderId)), Some(product), quantity, price))
  {
  }

  /** Unlike the other two streams, an event without an id is still applied;
      its item is filed with a null id, and from then on every line item of
      the same order makes upsertLineItem throw, which consume swallows. */
  lemma MissingIdPoisonsOrder(s: Store, op: string, p: Payload, later: Envelope, parseDouble: DoubleParser)
    requires op in {"c", "u", "r"}
    requires "id" !in p
    requires var first := LineItemOf(p, parseDouble); EntityStore.UpsertLineItem(s, first).Ok?
    requires Normalize(later, parseDouble).Upsert?
    requires Normalize(later, parseDouble).record.orderId == IdValue(p, "order_id")
    ensures Normalize(Envelope(Some(op), Some(p)), parseDouble) == Upsert(LineItemOf(p, parseDouble))
    ensures var t := EntityStore.UpsertLineItem(s, LineItemOf(p, parseDouble)).value;
      EntityStore.UpsertLineItem(t, Normalize(later, parseDouble).record) == Thrown(NullPointer)
  {
    LineItemWithoutIdBlocksOrder(s, LineItemOf(p, parseDouble), Normalize(later, parseDouble).record);
  }
}
