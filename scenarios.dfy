/** A worked ingestion: a customer, an order and two line items, through the
    three normalisers, the store and the read side. */
module Scenarios {
  import opened Java
  import opened Time
  import opened Json
  import opened Entities
  import opened EntityStore
  import opened Views
  import CustomerConsumer
  import OrderConsumer
  import LineItemConsumer

  const CustomerMessage: Envelope :=
    Envelope(Some("c"), Some(map["user_id" := JText("42"), "first_name" := JText("Ana"), "last_name" := JText("Lee")]))

  const OrderMessage: Envelope :=
    Envelope(Some("c"), Some(map["id" := JInt(100), "customer_id" := JText("42"), "order_ts" := JInt(1690000000000000)]))

  const FirstItemMessage: Envelope :=
    Envelope(Some("c"), Some(map["id" := JInt(1), "order_id" := JInt(100), "product_code" := JText("SKU1"),
                                 "quantity" := JInt(2), "price" := JText("9.99")]))

  const SecondItemMessage: Envelope :=
    Envelope(Some("c"), Some(map["id" := JInt(2), "order_id" := JInt(100), "quantity" := JInt(1), "price" := JInt(5)]))

  const AnaLee: Customer := Customer(Some("42"), "Ana Lee", None)
  const Order100: Order := Order(Some("100"), Some("42"), 0.0, Some(Instant(1690000000, 0)))
  const Item1: LineItem := LineItem(Some("1"), Some("100"), Some("SKU1"), 2, 9.99)
  const Item2: LineItem := LineItem(Some("2"), Some("100"), None, 1, 5.0)

  lemma DecimalIds()
    ensures DecimalString(1) == "1" && DecimalString(2) == "2" && DecimalString(100) == "100"
  {
    assert NatDigits(10) == NatDigits(1) + [DigitChar(0)];
    assert NatDigits(100) == NatDigits(10) + [DigitChar(0)];
  }

  /** The customer row is keyed by its user id and named "Ana Lee". */
  lemma CustomerIsNormalised()
    ensures CustomerConsumer.Normalize(CustomerMessage) == Upsert(AnaLee)
  {
    var p := CustomerMessage.after.value;
    CustomerConsumer.FullNameCases(p, "Ana", "Lee");
    assert "Ana" + " " + "Lee" == "Ana Lee";
    assert CustomerConsumer.CustomerId(p) == Some("42");
  }

  /** The order row: decimal id, and the microsecond timestamp split into
      whole seconds; no total yet. */
  lemma OrderIsNormalised(parseDouble: DoubleParser, parseInstant: OrderConsumer.InstantParser, now: Instant)
    ensures OrderConsumer.Normalize(OrderMessage, parseDouble, parseInstant, now) == Upsert(Order100)
  {
    DecimalIds();
    OrderConsumer.OfEpochMicrosSplit(1690000000000000);
  }

  /** The two item rows: a textual and a numeric price. */
  lemma ItemsAreNormalised(parseDouble: DoubleParser)
    requires parseDouble("9.99") == Some(9.99)
    ensures LineItemConsumer.Normalize(FirstItemMessage, parseDouble) == Upsert(Item1)
    ensures LineItemConsumer.Normalize(SecondItemMessage, parseDouble) == Upsert(Item2)
  {
    DecimalIds();
  }

  const Events: seq<Event> := [CustomerEvent(AnaLee), OrderEvent(Order100), LineItemEvent(Item1), LineItemEvent(Item2)]

  /** The store after the four events. */
  const Final: Store := Store(
    map[Some("42") := AnaLee],
    map[Some("100") := Order100.(totalAmount := 24.98)],
    map[Some("100") := [Item1, Item2]])

  lemma IngestAll()
    ensures ApplyAll(Empty, Events) == Final
  {
    var k := Some("100");
    var s1 := Apply(Empty, Events[0]);
    var s2 := Apply(s1, Events[1]);
    assert ItemsOf(s2, k) == [] && s2.orders[k] == Order100;
    FirstItem(s2, Item1);
    var s3 := Apply(s2, Events[2]);
    SecondItem(s3, Item1, Item2);
    var s4 := Apply(s3, Events[3]);
    PairTotal(Item1, Item2);
    assert Amount(Item1) + Amount(Item2) == 24.98;
    assert s4.customers == Final.customers;
    assert s4.lineItems == Final.lineItems;
    assert s4.orders == Final.orders;
    ApplyAllFour(Empty, Events);
  }

  lemma ApplyAllFour(s: Store, es: seq<Event>)
    requires |es| == 4
    ensures ApplyAll(s, es) == Apply(Apply(Apply(Apply(s, es[0]), es[1]), es[2]), es[3])
  {
    assert es[1..] == [es[1], es[2], es[3]];
    ApplyThree(Apply(s, es[0]), es[1], es[2], es[3]);
  }

  /** With a single stored order, every positive limit shows that order. */
  lemma SingleOrderView(s: Store, k: Key, limit: int, now: Instant)
    requires s.orders.Keys == {k} && s.orders[k].id.Some? && limit >= 1
    ensures RecentOrders(s, limit, [k], now) == Ok([OrderViewOf(s, s.orders[k], now)])
  {
    SingleNamedKey(s.orders, k);
    var sel := SelectRecent(s.orders, [k], limit);
    assert |sel| == 1;
    assert sel[0] in sel;
    assert sel[0] == s.orders[k];
    var r := RecentOrders(s, limit, [k], now);
    assert r.value == [OrderViewOf(s, sel[0], now)];
  }

  lemma SingleNamedKey(orders: map<Key, Order>, k: Key)
    requires orders.Keys == {k} && orders[k].id.Some?
    ensures NamedKeys(orders) == {k}
  {
  }

  /** recentOrders(1) shows the order with its customer's name and the
      recomputed total. */
  lemma RecentOrderView(now: Instant)
    ensures RecentOrders(Final, 1, [Some("100")], now) ==
      Ok([OrderView("100", "Ana Lee", 24.98, Instant(1690000000, 0))])
  {
    SingleOrderView(Final, Some("100"), 1, now);
  }

  /** The loyalty row: a spend of 24.98 earns 2498 points. */
  lemma LoyaltyOfAnaLee()
    ensures OrderCustomerIds(Final) == {"42"}
    ensures LoyaltyRow(Final, "42") == LoyaltyView("42", "Ana Lee", 24.98, 2498)
  {
    var rest := Final.orders - {Some("100")};
    assert rest == map[];
    SpendRemove(Final.orders, "42", Some("100"));
    assert Trunc(24.98 * 100.0) == 2498;
  }
}
