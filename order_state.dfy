/** OrderState: the in-memory materialised view. The three maps are fields
    the upserts reassign; each method is proved against the value-level
    transition or projection of modules EntityStore and Views. */
module Service {
  import opened Java
  import opened Time
  import opened Entities
  import opened EntityStore
  import opened Sorting
  import opened Warehouse
  import opened Views

  /** A warehouse entry built from order `o` of store `s`. */
  ghost predicate Describes(v: WarehouseView, s: Store, o: Order, now: Instant)
    reads v
  {
    && o.id.Some?
    && v.orderId == o.id.value
    && v.customerName == CustomerName(s, o.customerId)
    && v.createdAt == o.createdAt.GetOr(now)
    && v.items == Some(PickingItems(ItemsOf(s, o.id)))
    && v.Valid()
  }

  class OrderState {
    var customers: map<Key, Customer>
    var orders: map<Key, Order>
    var lineItemsByOrder: map<Key, seq<LineItem>>

    /** The three maps as a store value. */
    function Model(): Store
      reads this
    {
      Store(customers, orders, lineItemsByOrder)
    }

    ghost predicate Valid()
      reads this
    {
      EntityStore.Valid(Model())
    }

    constructor ()
      ensures Model() == Empty && Valid()
    {
      customers := map[];
      orders := map[];
      lineItemsByOrder := map[];
      EmptyIsValid();
    }

    method UpsertCustomer(c: Customer)
      modifies this
      ensures Model() == EntityStore.UpsertCustomer(old(Model()), c)
      ensures old(Valid()) ==> Valid()
    {
      customers := customers[c.id := c];
      if EntityStore.Valid(old(Model())) {
        UpsertCustomerKeepsInvariant(old(Model()), c);
      }
    }

    method UpsertOrder(o: Order)
      modifies this
      ensures Model() == EntityStore.UpsertOrder(old(Model()), o)
      ensures old(Valid()) ==> Valid()
    {
      var order := o;
      if o.id in lineItemsByOrder && lineItemsByOrder[o.id] != [] {
        order := order.(totalAmount := LineTotal(lineItemsByOrder[o.id]));
      }
      orders := orders[o.id := order];
      if EntityStore.Valid(old(Model())) {
        UpsertOrderKeepsInvariant(old(Model()), o);
      }
    }

    /** Returns whether removeIf threw; when it does nothing has changed. */
    method UpsertLineItem(li: LineItem) returns (thrown: bool)
      modifies this
      ensures thrown <==> EntityStore.UpsertLineItem(old(Model()), li).Thrown?
      ensures Model() == After(EntityStore.UpsertLineItem(old(Model()), li), old(Model()))
      ensures old(Valid()) ==> Valid()
    {
      var items := if li.orderId in lineItemsByOrder then lineItemsByOrder[li.orderId] else [];
      assert items == ItemsOf(Model(), li.orderId);
      thrown := FindNullId(items);
      if thrown {
        return;
      }
      var kept := Compact(items, li.id);
      UpsertLineItemShape(Model(), li);
      var updated := kept + [li];
      lineItemsByOrder := lineItemsByOrder[li.orderId := updated];
      if li.orderId in orders {
        orders := orders[li.orderId := orders[li.orderId].(totalAmount := LineTotal(updated))];
      }
      if EntityStore.Valid(old(Model())) {
        UpsertLineItemKeepsInvariant(old(Model()), li);
      }
    }

    /** getCustomerCount: the number of stored customers. */
    method GetCustomerCount() returns (n: int)
      ensures n == |Model().customers.Keys|
    {
      n := |customers|;
    }

    /** getOrderCount: the number of stored orders, null-id ones included. */
    method GetOrderCount() returns (n: int)
      ensures n == |Model().orders.Keys|
      ensures n >= |NamedKeys(Model().orders)|
    {
      n := |orders|;
      SubsetSize(NamedKeys(orders), orders.Keys);
    }

    /** getLoyaltyByCustomer: one row per distinct customer id among the
        orders, carrying that customer's spend and its points, highest points
        first. */
    method GetLoyaltyByCustomer() returns (r: seq<LoyaltyView>)
      ensures CustomerIds(r) == OrderCustomerIds(Model())
      ensures |r| == |OrderCustomerIds(Model())|
      ensures forall i :: 0 <= i < |r| ==> r[i] == LoyaltyRow(Model(), r[i].customerId)
      ensures forall i, j :: 0 <= i < j < |r| ==> r[i].customerId != r[j].customerId
      ensures NonIncreasing(r, PointsKey)
    {
      var spend := TotalSpendByCustomer();
      var rows := BuildRows(Model(), spend);
      RowsAreLoyaltyRows(rows, Model(), spend);
      r := SortDesc(rows, PointsKey);
      RowsKeepCustomers(rows, r, Model());
    }

    /** The first loop: `merge(customerId, totalAmount, Double::sum)` over the
        orders with a customer id. */
    method TotalSpendByCustomer() returns (spend: map<string, real>)
      ensures spend.Keys == OrderCustomerIds(Model())
      ensures forall c :: c in spend ==> spend[c] == Spend(orders, c)
    {
      spend := map[];
      var rest := orders;
      while rest != map[]
        invariant Summed(spend, rest, orders)
        decreases |rest|
      {
        var k :| k in rest;
        SumStep(spend, rest, orders, k);
        spend := Merge(spend, rest[k]);
        rest := rest - {k};
      }
      SumDone(spend, rest, orders);
    }

    /** getWarehouseOrders: the orders getRecentOrders selects, each as a new
        WarehouseView holding its picking list. */
    method GetWarehouseOrders(limit: int, ks: seq<Key>, now: Instant) returns (r: Result<seq<WarehouseView>>)
      requires IsEnumeration(ks, orders.Keys)
      ensures r.Thrown? <==> limit < 0
      ensures r.Ok? ==>
        var sel := SelectRecent(orders, ks, limit);
        && |r.value| == |sel|
        && (forall i :: 0 <= i < |sel| ==> fresh(r.value[i]) && Describes(r.value[i], Model(), sel[i], now))
        && (forall i, j :: 0 <= i < j < |sel| ==> r.value[i] != r.value[j])
    {
      if limit < 0 {
        return Thrown(IllegalArgument);
      }
      var sel := SelectRecent(orders, ks, limit);
      var views := BuildViews(Model(), sel, now);
      return Ok(views);
    }
  }

  /** The first pass of `removeIf(li -> li.getId().equals(id))`: ArrayList
      applies the filter to every entry before it removes any, and an entry
      with a null id makes `getId().equals` throw. */
  method FindNullId(items: seq<LineItem>) returns (found: bool)
    ensures found <==> HasNullId(items)
  {
    var i := 0;
    while i < |items|
      invariant 0 <= i <= |items|
      invariant forall j :: 0 <= j < i ==> items[j].id.Some?
    {
      if items[i].id.None? {
        return true;
      }
      i := i + 1;
    }
    return false;
  }

  /** The second pass of removeIf: the entries the filter rejects are kept,
      in their order. */
  method Compact(items: seq<LineItem>, id: Key) returns (kept: seq<LineItem>)
    ensures kept == WithoutId(items, id)
  {
    kept := [];
    var i := 0;
    while i < |items|
      invariant 0 <= i <= |items|
      invariant kept == WithoutId(items[..i], id)
    {
      WithoutIdStep(items, i, id);
      if items[i].id != id {
        kept := kept + [items[i]];
      }
      i := i + 1;
    }
    assert items[..i] == items;
  }

  /** The `map` stage of getWarehouseOrders. */
  method BuildViews(s: Store, sel: seq<Order>, now: Instant) returns (views: seq<WarehouseView>)
    requires forall o :: o in sel ==> o.id.Some?
    ensures |views| == |sel|
    ensures forall i :: 0 <= i < |sel| ==> fresh(views[i]) && Describes(views[i], s, sel[i], now)
    ensures forall i, j :: 0 <= i < j < |sel| ==> views[i] != views[j]
  {
    views := [];
    var i := 0;
    while i < |sel|
      invariant 0 <= i <= |sel| && |views| == i
      invariant forall j :: 0 <= j < i ==> fresh(views[j]) && Describes(views[j], s, sel[j], now)
      invariant forall j, l :: 0 <= j < l < i ==> views[j] != views[l]
    {
      assert sel[i] in sel;
      var v := NewView(s, sel[i], now);
      views := views + [v];
      i := i + 1;
    }
  }

  /** The `map` stage of getWarehouseOrders for one order. */
  method NewView(s: Store, o: Order, now: Instant) returns (v: WarehouseView)
    requires o.id.Some?
    ensures fresh(v) && Describes(v, s, o, now)
  {
    v := new WarehouseView(o.id.value, CustomerName(s, o.customerId), o.createdAt.GetOr(now), Some(PickingItems(ItemsOf(s, o.id))));
  }

  /** `spend.merge(customerId, totalAmount, Double::sum)` for one order; an
      order without a customer id adds nothing. */
  function Merge(spend: map<string, real>, o: Order): (r: map<string, real>)
    ensures o.customerId.None? ==> r == spend
    ensures o.customerId.Some? ==> r.Keys == spend.Keys + {o.customerId.value}
    ensures forall c :: (if c in r then r[c] else 0.0) == (if c in spend then spend[c] else 0.0) + Contribution(o, c)
  {
    if o.customerId.None? then spend
    else
      var c := o.customerId.value;
      spend[c := if c in spend then spend[c] + o.totalAmount else o.totalAmount]
  }

  /** The first loop so far: `rest` is what is left of the orders, and the
      spend map holds the ids and sums of the orders already seen. */
  ghost predicate Summed(spend: map<string, real>, rest: map<Key, Order>, orders: map<Key, Order>) {
    && (forall k :: k in rest ==> k in orders && rest[k] == orders[k])
    && (forall c :: c in spend <==> exists k :: k in orders && k !in rest && orders[k].customerId == Some(c))
    && (forall c :: (if c in spend then spend[c] else 0.0) + Spend(rest, c) == Spend(orders, c))
  }

  lemma SumStep(spend: map<string, real>, rest: map<Key, Order>, orders: map<Key, Order>, k: Key)
    requires Summed(spend, rest, orders) && k in rest
    ensures Summed(Merge(spend, rest[k]), rest - {k}, orders)
  {
    var next := Merge(spend, rest[k]);
    forall c ensures (if c in next then next[c] else 0.0) + Spend(rest - {k}, c) == Spend(orders, c) {
      SpendRemove(rest, c, k);
    }
    forall c ensures c in next <==> exists j :: j in orders && j !in rest - {k} && orders[j].customerId == Some(c) {
      if rest[k].customerId == Some(c) {
        assert k in orders && k !in rest - {k};
      }
    }
  }

  lemma SumDone(spend: map<string, real>, rest: map<Key, Order>, orders: map<Key, Order>)
    requires Summed(spend, rest, orders) && rest == map[]
    ensures spend.Keys == OrderCustomerIds(Store(map[], orders, map[]))
    ensures forall c :: c in spend ==> spend[c] == Spend(orders, c)
  {
    forall c | c in spend ensures spend[c] == Spend(orders, c) {
      assert Spend(rest, c) == 0.0;
    }
  }

  /** The second loop of getLoyaltyByCustomer: one row per entry of the
      spend map. */
  method BuildRows(m: Store, spend: map<string, real>) returns (rows: seq<LoyaltyView>)
    ensures CustomerIds(rows) == spend.Keys
    ensures |rows| == |spend.Keys|
    ensures RowsFor(rows, m, spend)
  {
    rows := [];
    var todo := spend.Keys;
    while todo != {}
      invariant Built(rows, todo, m, spend)
      decreases |todo|
    {
      var c :| c in todo;
      var row := LoyaltyViewOf(m, c, spend[c]);
      BuildStep(rows, todo, c, m, spend);
      rows := rows + [row];
      todo := todo - {c};
    }
  }

  /** The rows built so far: one for every customer no longer to do. */
  ghost predicate Built(rows: seq<LoyaltyView>, todo: set<string>, m: Store, spend: map<string, real>) {
    && todo <= spend.Keys
    && CustomerIds(rows) == spend.Keys - todo
    && |rows| + |todo| == |spend.Keys|
    && RowsFor(rows, m, spend)
  }

  lemma BuildStep(rows: seq<LoyaltyView>, todo: set<string>, c: string, m: Store, spend: map<string, real>)
    requires Built(rows, todo, m, spend) && c in todo
    ensures Built(rows + [LoyaltyViewOf(m, c, spend[c])], todo - {c}, m, spend)
  {
    RowsForAppend(rows, LoyaltyViewOf(m, c, spend[c]), m, spend);
  }

  /** The customer ids of a list of loyalty rows. */
  function CustomerIds(rows: seq<LoyaltyView>): (ids: set<string>)
    ensures forall i :: 0 <= i < |rows| ==> rows[i].customerId in ids
    ensures forall c :: c in ids ==> exists i :: 0 <= i < |rows| && rows[i].customerId == c
  {
    if rows == [] then {}
    else
      var init := rows[..|rows| - 1];
      assert forall i :: 0 <= i < |init| ==> init[i] == rows[i];
      CustomerIds(init) + {rows[|rows| - 1].customerId}
  }

  /** Each row carries its customer's spend, and no customer has two rows. */
  ghost predicate RowsFor(rows: seq<LoyaltyView>, s: Store, spend: map<string, real>) {
    && (forall i :: 0 <= i < |rows| ==>
          rows[i].customerId in spend && rows[i] == LoyaltyViewOf(s, rows[i].customerId, spend[rows[i].customerId]))
    && (forall i, j :: 0 <= i < j < |rows| ==> rows[i].customerId != rows[j].customerId)
  }

  lemma RowsForAppend(rows: seq<LoyaltyView>, row: LoyaltyView, s: Store, spend: map<string, real>)
    requires RowsFor(rows, s, spend)
    requires row.customerId in spend && row == LoyaltyViewOf(s, row.customerId, spend[row.customerId])
    requires row.customerId !in CustomerIds(rows)
    ensures RowsFor(rows + [row], s, spend)
    ensures CustomerIds(rows + [row]) == CustomerIds(rows) + {row.customerId}
  {
    var r := rows + [row];
    assert r[..|rows|] == rows;
    RowsForRows(rows, row, s, spend);
    RowsForDistinct(rows, row);
  }

  lemma RowsForRows(rows: seq<LoyaltyView>, row: LoyaltyView, s: Store, spend: map<string, real>)
    requires forall i :: 0 <= i < |rows| ==>
      rows[i].customerId in spend && rows[i] == LoyaltyViewOf(s, rows[i].customerId, spend[rows[i].customerId])
    requires row.customerId in spend && row == LoyaltyViewOf(s, row.customerId, spend[row.customerId])
    ensures var r := rows + [row]; forall i :: 0 <= i < |r| ==>
      r[i].customerId in spend && r[i] == LoyaltyViewOf(s, r[i].customerId, spend[r[i].customerId])
  {
    var r := rows + [row];
    forall i | 0 <= i < |r| ensures r[i].customerId in spend && r[i] == LoyaltyViewOf(s, r[i].customerId, spend[r[i].customerId]) {
      if i < |rows| {
        assert r[i] == rows[i];
      } else {
        assert r[i] == row;
      }
    }
  }

  lemma RowsForDistinct(rows: seq<LoyaltyView>, row: LoyaltyView)
    requires forall i, j :: 0 <= i < j < |rows| ==> rows[i].customerId != rows[j].customerId
    requires row.customerId !in CustomerIds(rows)
    ensures var r := rows + [row]; forall i, j :: 0 <= i < j < |r| ==> r[i].customerId != r[j].customerId
  {
    var r := rows + [row];
    forall i, j | 0 <= i < j < |r| ensures r[i].customerId != r[j].customerId {
      assert r[i] == rows[i];
      if j < |rows| {
        assert r[j] == rows[j];
      } else {
        assert r[j] == row;
        assert rows[i].customerId in CustomerIds(rows);
      }
    }
  }

  /** With the spend map of the first loop, every built row is its
      customer's loyalty row. */
  lemma RowsAreLoyaltyRows(rows: seq<LoyaltyView>, s: Store, spend: map<string, real>)
    requires RowsFor(rows, s, spend)
    requires forall c :: c in spend ==> spend[c] == Spend(s.orders, c)
    ensures forall i :: 0 <= i < |rows| ==> rows[i] == LoyaltyRow(s, rows[i].customerId)
    ensures forall i, j :: 0 <= i < j < |rows| ==> rows[i].customerId != rows[j].customerId
  {
  }

  /** Sorting the rows keeps one row per customer. */
  lemma RowsKeepCustomers(rows: seq<LoyaltyView>, r: seq<LoyaltyView>, s: Store)
    requires multiset(r) == multiset(rows)
    requires forall i :: 0 <= i < |rows| ==> rows[i] == LoyaltyRow(s, rows[i].customerId)
    requires forall i, j :: 0 <= i < j < |rows| ==> rows[i].customerId != rows[j].customerId
    ensures forall i :: 0 <= i < |r| ==> r[i] == LoyaltyRow(s, r[i].customerId)
    ensures forall i, j :: 0 <= i < j < |r| ==> r[i].customerId != r[j].customerId
    ensures CustomerIds(r) == CustomerIds(rows)
  {
    forall x | x in r ensures x in rows {
      assert x in multiset(r);
    }
    forall x | x in rows ensures x in r {
      assert x in multiset(rows);
    }
    forall i | 0 <= i < |r| ensures r[i] == LoyaltyRow(s, r[i].customerId) {
      assert r[i] in rows;
    }
    DistinctUnderPermutation(rows, r);
    forall i, j | 0 <= i < j < |r| ensures r[i].customerId != r[j].customerId {
      assert r[i] in rows && r[j] in rows;
    }
    forall c | c in CustomerIds(r) ensures c in CustomerIds(rows) {
      var i :| 0 <= i < |r| && r[i].customerId == c;
      assert r[i] in rows;
    }
    forall c | c in CustomerIds(rows) ensures c in CustomerIds(r) {
      var i :| 0 <= i < |rows| && rows[i].customerId == c;
      assert rows[i] in r;
    }
  }
}
