/** The read side of OrderState over a store value: the recent-orders
    selection, the picking lists, per-customer spend, the diagnostic id sets
    and the counts. The class in module Service is proved against these. */
module Views {
  import opened Java
  import opened Time
  import opened Entities
  import opened EntityStore
  import opened Sorting
  import opened Warehouse

  // ---------------------------------------------------------------------------
  // The customer join.

  /** `customerId != null ? customers.get(customerId) : null`, then the name
      or "Unknown". */
  function CustomerName(s: Store, customerId: Option<string>): string {
    if customerId.Some? && customerId in s.customers then s.customers[customerId].name else "Unknown"
  }

  /** An order whose customer has not arrived (or never will) is shown as
      "Unknown", and one whose customer is stored shows that customer's name. */
  lemma CustomerNameJoin(s: Store, customerId: Option<string>)
    ensures customerId.None? || customerId !in s.customers ==> CustomerName(s, customerId) == "Unknown"
    ensures customerId.Some? && customerId in s.customers ==>
      CustomerName(s, customerId) == s.customers[customerId].name
  {
  }

  // ---------------------------------------------------------------------------
  // Selecting the most recent orders.

  /** `ks` lists every key of the map once: the encounter order of a HashMap's
      values, which the model does not fix. */
  ghost predicate IsEnumeration(ks: seq<Key>, keys: set<Key>) {
    && (forall k :: k in ks <==> k in keys)
    && (forall i, j :: 0 <= i < j < |ks| ==> ks[i] != ks[j])
  }

  /** The keys of the orders that pass `order.getId() != null`. */
  ghost function NamedKeys(orders: map<Key, Order>): set<Key> {
    set k | k in orders && orders[k].id.Some?
  }

  /** `orders.values().stream().filter(order -> order.getId() != null)`, in
      the encounter order `ks`. */
  function NamedOrders(orders: map<Key, Order>, ks: seq<Key>): (r: seq<Order>)
    ensures forall o :: o in r ==> o in orders.Values && o.id.Some?
    ensures forall k :: k in ks && k in orders && orders[k].id.Some? ==> orders[k] in r
  {
    if ks == [] then []
    else
      var rest := NamedOrders(orders, ks[1..]);
      if ks[0] in orders && orders[ks[0]].id.Some? then [orders[ks[0]]] + rest else rest
  }

  /** Over an enumeration of the keys, exactly one order per named key passes
      the filter. */
  lemma {:induction false} NamedOrdersCount(orders: map<Key, Order>, ks: seq<Key>)
    requires forall i, j :: 0 <= i < j < |ks| ==> ks[i] != ks[j]
    ensures |NamedOrders(orders, ks)| == |set k | k in ks && k in orders && orders[k].id.Some?|
  {
    if ks != [] {
      var tail := ks[1..];
      forall i, j | 0 <= i < j < |tail| ensures tail[i] != tail[j] {
        assert tail[i] == ks[i + 1] && tail[j] == ks[j + 1];
      }
      NamedOrdersCount(orders, tail);
      assert ks[0] !in tail by {
        forall i | 0 <= i < |tail| ensures tail[i] != ks[0] {
          assert tail[i] == ks[i + 1];
        }
      }
      NamedKeysCons(orders, ks);
    }
  }

  lemma NamedKeysCons(orders: map<Key, Order>, ks: seq<Key>)
    requires ks != []
    ensures var here := set k | k in ks && k in orders && orders[k].id.Some?;
      var tail := set k | k in ks[1..] && k in orders && orders[k].id.Some?;
      here == (if ks[0] in orders && orders[ks[0]].id.Some? then {ks[0]} else {}) + tail
  {
    assert ks == [ks[0]] + ks[1..];
  }

  lemma NamedOrdersCover(orders: map<Key, Order>, ks: seq<Key>)
    requires IsEnumeration(ks, orders.Keys)
    ensures |NamedOrders(orders, ks)| == |NamedKeys(orders)|
  {
    NamedOrdersCount(orders, ks);
    assert (set k | k in ks && k in orders && orders[k].id.Some?) == NamedKeys(orders);
  }

  /** The sort key: `createdAt != null ? createdAt : Instant.EPOCH`, compared
      on the time line. */
  function CreatedKey(o: Order): int {
    EpochNanos(o.createdAt.GetOr(Epoch))
  }

  function Min(a: int, b: int): int {
    if a <= b then a else b
  }

  /** Filter, stable sort newest first, then `.limit(limit)`. */
  function SelectRecent(orders: map<Key, Order>, ks: seq<Key>, limit: nat): (r: seq<Order>)
    requires IsEnumeration(ks, orders.Keys)
    ensures |r| == Min(limit, |NamedKeys(orders)|)
    ensures multiset(r) <= multiset(NamedOrders(orders, ks))
    ensures NonIncreasing(r, CreatedKey)
    ensures forall o :: o in r ==> o in orders.Values && o.id.Some?
    ensures forall k :: k in orders && orders[k].id.Some? && orders[k] !in r ==>
      forall i :: 0 <= i < |r| ==> CreatedKey(orders[k]) <= CreatedKey(r[i])
  {
    var named := NamedOrders(orders, ks);
    var sorted := SortDesc(named, CreatedKey);
    NamedOrdersCover(orders, ks);
    KeptPrefix(orders, named, sorted, Min(limit, |sorted|));
    PrefixSubMultiset(sorted, Min(limit, |sorted|));
    sorted[..Min(limit, |sorted|)]
  }

  lemma PrefixSubMultiset<T>(s: seq<T>, n: nat)
    requires n <= |s|
    ensures multiset(s[..n]) <= multiset(s)
  {
    assert s == s[..n] + s[n..];
  }

  /** The first `n` of the sorted filtered orders are stored orders with an
      id, and no stored order with an id that is left out is newer than one
      that is kept. */
  lemma KeptPrefix(orders: map<Key, Order>, named: seq<Order>, sorted: seq<Order>, n: nat)
    requires forall o :: o in named ==> o in orders.Values && o.id.Some?
    requires forall k :: k in orders && orders[k].id.Some? ==> orders[k] in named
    requires multiset(sorted) == multiset(named) && NonIncreasing(sorted, CreatedKey)
    requires n <= |sorted|
    ensures NonIncreasing(sorted[..n], CreatedKey)
    ensures forall o :: o in sorted[..n] ==> o in orders.Values && o.id.Some?
    ensures forall k :: k in orders && orders[k].id.Some? && orders[k] !in sorted[..n] ==>
      forall i :: 0 <= i < n ==> CreatedKey(orders[k]) <= CreatedKey(sorted[..n][i])
  {
    forall k | k in orders && orders[k].id.Some? && orders[k] !in sorted[..n]
      ensures forall i :: 0 <= i < n ==> CreatedKey(orders[k]) <= CreatedKey(sorted[i])
    {
      assert orders[k] in multiset(named);
      assert orders[k] in multiset(sorted);
      PrefixDominates(sorted, CreatedKey, n, orders[k]);
    }
    forall o | o in sorted[..n] ensures o in orders.Values && o.id.Some? {
      assert o in multiset(sorted);
      assert o in multiset(named);
    }
  }

  /** One row of the recent-orders view. */
  function OrderViewOf(s: Store, o: Order, now: Instant): OrderView
    requires o.id.Some?
  {
    OrderView(o.id.value, CustomerName(s, o.customerId), o.totalAmount, o.createdAt.GetOr(now))
  }

  /** getRecentOrders(limit): `.limit` rejects a negative size; otherwise the
      selected orders, each joined to its customer's name, a missing
      createdAt shown as the current instant. */
  function RecentOrders(s: Store, limit: int, ks: seq<Key>, now: Instant): (r: Result<seq<OrderView>>)
    requires IsEnumeration(ks, s.orders.Keys)
    ensures r.Thrown? <==> limit < 0
    ensures r.Thrown? ==> r.exception == IllegalArgument
    ensures r.Ok? ==> |r.value| == Min(limit, |NamedKeys(s.orders)|)
    ensures r.Ok? ==> var sel := SelectRecent(s.orders, ks, limit);
      |r.value| == |sel| && forall i :: 0 <= i < |sel| ==> sel[i].id.Some? && r.value[i] == OrderViewOf(s, sel[i], now)
    ensures r.Ok? ==> forall v :: v in r.value ==>
      exists k :: k in s.orders && s.orders[k].id == Some(v.orderId) && v == OrderViewOf(s, s.orders[k], now)
  {
    if limit < 0 then Thrown(IllegalArgument)
    else
      var sel := SelectRecent(s.orders, ks, limit);
      RowsAreStoredViews(s, sel, now);
      Ok(RowsOf(s, sel, now))
  }

  /** The rows of a selection: each order joined to its customer's name. */
  function RowsOf(s: Store, sel: seq<Order>, now: Instant): (rows: seq<OrderView>)
    requires forall o :: o in sel ==> o.id.Some?
    ensures |rows| == |sel|
    ensures forall i :: 0 <= i < |sel| ==> rows[i] == OrderViewOf(s, sel[i], now)
  {
    seq(|sel|, i requires 0 <= i < |sel| => OrderViewOf(s, sel[i], now))
  }

  lemma RowsAreStoredViews(s: Store, sel: seq<Order>, now: Instant)
    requires forall o :: o in sel ==> o in s.orders.Values && o.id.Some?
    ensures forall v :: v in RowsOf(s, sel, now) ==>
      exists k :: k in s.orders && s.orders[k].id == Some(v.orderId) && v == OrderViewOf(s, s.orders[k], now)
  {
    var rows := RowsOf(s, sel, now);
    forall v | v in rows
      ensures exists k :: k in s.orders && s.orders[k].id == Some(v.orderId) && v == OrderViewOf(s, s.orders[k], now)
    {
      var i :| 0 <= i < |rows| && rows[i] == v;
      assert sel[i] in sel;
      var k :| k in s.orders && s.orders[k] == sel[i];
    }
  }

  /** When every stored order carries a createdAt (the order stream always
      sets one), the recent-orders rows come newest first. */
  lemma RecentOrdersNewestFirst(s: Store, limit: int, ks: seq<Key>, now: Instant)
    requires IsEnumeration(ks, s.orders.Keys)
    requires forall k :: k in s.orders ==> s.orders[k].createdAt.Some?
    requires limit >= 0
    ensures var rows := RecentOrders(s, limit, ks, now).value;
      forall i, j :: 0 <= i < j < |rows| ==> EpochNanos(rows[i].createdAt) >= EpochNanos(rows[j].createdAt)
  {
    var sel := SelectRecent(s.orders, ks, limit);
    var rows := RecentOrders(s, limit, ks, now).value;
    forall i, j | 0 <= i < j < |rows| ensures EpochNanos(rows[i].createdAt) >= EpochNanos(rows[j].createdAt) {
      assert sel[i] in sel && sel[j] in sel;
      var ki :| ki in s.orders && s.orders[ki] == sel[i];
      var kj :| kj in s.orders && s.orders[kj] == sel[j];
      assert CreatedKey(sel[i]) >= CreatedKey(sel[j]);
    }
  }

  // ---------------------------------------------------------------------------
  // Picking lists.

  /** `new LineItemView(productName != null ? productName : "Unknown Product", quantity)`. */
  function ItemView(li: LineItem): LineItemView {
    LineItemView(li.productName.GetOr("Unknown Product"), li.quantity)
  }

  /** Σ quantity over stored line items. */
  function Quantities(items: seq<LineItem>): int {
    if items == [] then 0 else items[0].quantity + Quantities(items[1..])
  }

  /** The picking list of one order: one entry per stored line item, in list
      order, with the same quantities. */
  function PickingItems(items: seq<LineItem>): (r: seq<LineItemView>)
    ensures |r| == |items|
    ensures forall i :: 0 <= i < |items| ==>
      r[i].quantity == items[i].quantity &&
      (items[i].productName.Some? ==> r[i].productName == items[i].productName.value) &&
      (items[i].productName.None? ==> r[i].productName == "Unknown Product")
    ensures SumQuantities(r) == Quantities(items)
  {
    if items == [] then [] else [ItemView(items[0])] + PickingItems(items[1..])
  }

  // ---------------------------------------------------------------------------
  // Spend per customer.

  /** What one order adds to customer `c`'s spend. */
  function Contribution(o: Order, c: string): real {
    if o.customerId == Some(c) then o.totalAmount else 0.0
  }

  /** Σ totalAmount over the orders of customer `c`, over a map whose
      iteration order is not fixed: one key at a time, whichever. */
  ghost function Spend(orders: map<Key, Order>, c: string): real
    decreases |orders|
  {
    if orders == map[] then 0.0
    else
      var k :| k in orders;
      Contribution(orders[k], c) + Spend(orders - {k}, c)
  }

  /** The spend does not depend on which key is taken first. */
  lemma {:induction false} SpendRemove(orders: map<Key, Order>, c: string, k: Key)
    requires k in orders
    ensures Spend(orders, c) == Contribution(orders[k], c) + Spend(orders - {k}, c)
    decreases |orders|
  {
    var j :| j in orders && Spend(orders, c) == Contribution(orders[j], c) + Spend(orders - {j}, c);
    if j != k {
      var rest := orders - {j};
      SpendRemove(rest, c, k);
      SpendRemove(orders - {k}, c, j);
      assert rest - {k} == (orders - {k}) - {j};
    }
  }

  /** A customer with no order spends nothing. */
  lemma {:induction false} SpendWithoutOrders(orders: map<Key, Order>, c: string)
    requires forall k :: k in orders ==> orders[k].customerId != Some(c)
    ensures Spend(orders, c) == 0.0
    decreases |orders|
  {
    if orders != map[] {
      var k :| k in orders;
      SpendRemove(orders, c, k);
      SpendWithoutOrders(orders - {k}, c);
    }
  }

  /** `(long) (totalSpend * 100)`: truncation toward zero, not rounding. */
  function LoyaltyPoints(totalSpend: real): int {
    Trunc(totalSpend * 100.0)
  }

  /** `new LoyaltyView(customerId, customerName, totalSpend, loyaltyPoints)`
      for a given spend. */
  function LoyaltyViewOf(s: Store, c: string, totalSpend: real): LoyaltyView {
    LoyaltyView(c, CustomerName(s, Some(c)), totalSpend, LoyaltyPoints(totalSpend))
  }

  /** The loyalty row of customer `c`. */
  ghost function LoyaltyRow(s: Store, c: string): LoyaltyView {
    LoyaltyViewOf(s, c, Spend(s.orders, c))
  }

  function PointsKey(v: LoyaltyView): int {
    v.loyaltyPoints
  }

  /** Points never exceed a hundred times the spend, and fall short of it by
      less than one point; a spend of 12.349 earns 1234 points. */
  lemma LoyaltyPointsTruncate(totalSpend: real)
    requires totalSpend >= 0.0
    ensures 0 <= LoyaltyPoints(totalSpend)
    ensures LoyaltyPoints(totalSpend) as real <= totalSpend * 100.0 < LoyaltyPoints(totalSpend) as real + 1.0
    ensures LoyaltyPoints(12.349) == 1234
  {
    assert 1234.0 <= 12.349 * 100.0 < 1235.0;
  }

  // ---------------------------------------------------------------------------
  // Diagnostics and counts.

  /** getOrderCustomerIds: the distinct non-null customer ids of the orders. */
  function OrderCustomerIds(s: Store): (ids: set<string>)
    ensures forall c :: c in ids <==> exists k :: k in s.orders && s.orders[k].customerId == Some(c)
  {
    set k | k in s.orders && s.orders[k].customerId.Some? :: s.orders[k].customerId.value
  }

  /** The debug endpoint's missingCustomerIds: order customer ids without a
      stored customer. */
  function MissingCustomerIds(s: Store): (ids: set<string>)
    ensures forall c :: c in ids <==> c in OrderCustomerIds(s) && Some(c) !in s.customers
  {
    set c | c in OrderCustomerIds(s) && Some(c) !in s.customers
  }

  /** The orders of a missing customer render "Unknown"; those of a customer
      who is not missing render the stored name (which may itself be
      "Unknown"). */
  lemma MissingCustomerRendersUnknown(s: Store, c: string)
    requires c in OrderCustomerIds(s)
    ensures c in MissingCustomerIds(s) ==> CustomerName(s, Some(c)) == "Unknown"
    ensures c !in MissingCustomerIds(s) ==> Some(c) in s.customers && CustomerName(s, Some(c)) == s.customers[Some(c)].name
  {
  }

  /** A subset is no larger than its superset. */
  lemma {:induction false} SubsetSize<T>(a: set<T>, b: set<T>)
    requires a <= b
    ensures |a| <= |b|
    decreases b
  {
    if a != {} {
      var x :| x in a;
      SubsetSize(a - {x}, b - {x});
    }
  }

  lemma MapUpdateSize<K, V>(m: map<K, V>, k: K, v: V)
    ensures |m[k := v]| == |m| + (if k in m then 0 else 1)
  {
    if k in m {
      assert m[k := v].Keys == m.Keys;
    } else {
      assert m[k := v].Keys == m.Keys + {k};
    }
  }

  /** No upsert deletes: the id sets only grow, and a count grows by one
      exactly when the upserted id is new. */
  lemma UpsertsNeverShrink(s: Store, e: Event)
    ensures s.customers.Keys <= Apply(s, e).customers.Keys
    ensures s.orders.Keys <= Apply(s, e).orders.Keys
    ensures e.CustomerEvent? ==> |Apply(s, e).customers| == |s.customers| + (if e.c.id in s.customers then 0 else 1)
    ensures e.OrderEvent? ==> |Apply(s, e).orders| == |s.orders| + (if e.o.id in s.orders then 0 else 1)
    ensures !e.CustomerEvent? ==> Apply(s, e).customers == s.customers
    ensures !e.OrderEvent? ==> Apply(s, e).orders.Keys == s.orders.Keys
  {
    match e {
      case CustomerEvent(c) =>
        MapUpdateSize(s.customers, c.id, c);
      case OrderEvent(o) =>
        var items := ItemsOf(s, o.id);
        MapUpdateSize(s.orders, o.id, if items != [] then o.(totalAmount := LineTotal(items)) else o);
      case LineItemEvent(li) =>
        if UpsertLineItem(s, li).Ok? {
          UpsertLineItemFrame(s, li);
        }
    }
  }
}
