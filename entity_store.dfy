/** The state of OrderState as a value: three keyed tables, the three upserts
    as transitions, the order-total recomputation, and the invariant the
    upserts keep. The class in module Service is proved against these
    functions. */
module EntityStore {
  import opened Java
  import opened Entities

  /** A HashMap key: the entity's id, which may be null. */
  type Key = Option<string>

  datatype Store = Store(
    customers: map<Key, Customer>,
    orders: map<Key, Order>,
    lineItems: map<Key, seq<LineItem>>)

  const Empty: Store := Store(map[], map[], map[])

  // ---------------------------------------------------------------------------
  // Aggregate recomputation: an order's total is Σ unitPrice × quantity.

  function Amount(li: LineItem): real {
    li.unitPrice * li.quantity as real
  }

  function LineTotal(items: seq<LineItem>): real {
    if items == [] then 0.0 else Amount(items[0]) + LineTotal(items[1..])
  }

  lemma {:induction false} LineTotalAppend(a: seq<LineItem>, b: seq<LineItem>)
    ensures LineTotal(a + b) == LineTotal(a) + LineTotal(b)
  {
    if a == [] {
      assert a + b == b;
    } else {
      assert (a + b)[0] == a[0];
      assert (a + b)[1..] == a[1..] + b;
      LineTotalAppend(a[1..], b);
    }
  }

  lemma LineTotalRemove(b: seq<LineItem>, i: int)
    requires 0 <= i < |b|
    ensures LineTotal(b) == Amount(b[i]) + LineTotal(b[..i] + b[i + 1..])
  {
    assert b == b[..i] + ([b[i]] + b[i + 1..]);
    LineTotalAppend(b[..i], [b[i]] + b[i + 1..]);
    LineTotalAppend(b[..i], b[i + 1..]);
    assert ([b[i]] + b[i + 1..])[1..] == b[i + 1..];
  }

  lemma MultisetRemove<T>(b: seq<T>, i: int)
    requires 0 <= i < |b|
    ensures multiset(b[..i] + b[i + 1..]) == multiset(b) - multiset{b[i]}
  {
    assert b == b[..i] + [b[i]] + b[i + 1..];
  }

  /** The total does not depend on the order of the line items. */
  lemma {:induction false} LineTotalPermutation(a: seq<LineItem>, b: seq<LineItem>)
    requires multiset(a) == multiset(b)
    ensures LineTotal(a) == LineTotal(b)
  {
    if a != [] {
      var x := a[0];
      assert x in multiset(b) by {
        assert x in multiset(a);
      }
      var i :| 0 <= i < |b| && b[i] == x;
      MultisetRemove(b, i);
      assert multiset(a[1..]) == multiset(a) - multiset{x} by {
        assert a == [x] + a[1..];
      }
      LineTotalPermutation(a[1..], b[..i] + b[i + 1..]);
      LineTotalRemove(b, i);
    } else {
      assert b == [];
    }
  }

  // ---------------------------------------------------------------------------
  // The line-item list of one order.

  /** `lineItemsByOrder.get(k)`, an absent list read as empty. */
  function ItemsOf(s: Store, k: Key): seq<LineItem> {
    if k in s.lineItems then s.lineItems[k] else []
  }

  /** `a` is `b` with some entries left out, the rest in their order. */
  ghost predicate IsSubsequence<T>(a: seq<T>, b: seq<T>) {
    a == [] || (b != [] && ((a[0] == b[0] && IsSubsequence(a[1..], b[1..])) || IsSubsequence(a, b[1..])))
  }

  /** `removeIf(li -> li.getId().equals(id))` on a list without null ids:
      exactly the entries with another id survive, in their order. */
  function WithoutId(items: seq<LineItem>, id: Key): (r: seq<LineItem>)
    ensures forall x :: x in r <==> x in items && x.id != id
    ensures IsSubsequence(r, items)
    ensures (forall i :: 0 <= i < |items| ==> items[i].id != id) ==> r == items
  {
    if items == [] then []
    else
      var rest := WithoutId(items[1..], id);
      assert items == [items[0]] + items[1..];
      if items[0].id == id then rest
      else
        assert ([items[0]] + rest)[1..] == rest;
        [items[0]] + rest
  }

  /** removeIf keeps every entry with another id as often as it occurs, and
      no entry with the id. */
  lemma {:induction false} WithoutIdCounts(items: seq<LineItem>, id: Key)
    ensures forall y :: multiset(WithoutId(items, id))[y] == if y.id == id then 0 else multiset(items)[y]
    decreases |items|
  {
    if items != [] {
      var tail := items[1..];
      WithoutIdCounts(tail, id);
      assert items == [items[0]] + tail;
      assert multiset(items) == multiset{items[0]} + multiset(tail);
      if items[0].id != id {
        var rest := WithoutId(tail, id);
        assert WithoutId(items, id) == [items[0]] + rest;
        assert multiset(WithoutId(items, id)) == multiset{items[0]} + multiset(rest);
      }
    }
  }

  /** removeIf keeps the ids of a list with unique ids unique. */
  lemma {:induction false} WithoutIdKeepsUnique(items: seq<LineItem>, id: Key)
    requires UniqueIds(items)
    ensures UniqueIds(WithoutId(items, id))
    decreases |items|
  {
    if items != [] {
      var tail := items[1..];
      TailUnique(items);
      WithoutIdKeepsUnique(tail, id);
      if items[0].id != id {
        var rest := WithoutId(tail, id);
        forall y | y in rest ensures y.id != items[0].id {
          var p :| 0 <= p < |tail| && tail[p] == y;
          assert items[p + 1] == y;
        }
        ConsUnique(items[0], rest);
      }
    }
  }

  lemma TailUnique(items: seq<LineItem>)
    requires items != [] && UniqueIds(items)
    ensures UniqueIds(items[1..])
  {
    var tail := items[1..];
    forall i, j | 0 <= i < j < |tail| ensures tail[i].id != tail[j].id {
      assert tail[i] == items[i + 1] && tail[j] == items[j + 1];
    }
  }

  lemma ConsUnique(h: LineItem, rest: seq<LineItem>)
    requires UniqueIds(rest)
    requires forall y :: y in rest ==> y.id != h.id
    ensures UniqueIds([h] + rest)
  {
    var r := [h] + rest;
    forall i, j | 0 <= i < j < |r| ensures r[i].id != r[j].id {
      assert r[j] == rest[j - 1] && r[j] in rest;
      if i > 0 {
        assert r[i] == rest[i - 1];
      }
    }
  }

  /** A stored entry whose id is null makes removeIf's `li.getId().equals(..)`
      throw NullPointerException. */
  predicate HasNullId(items: seq<LineItem>) {
    exists i :: 0 <= i < |items| && items[i].id.None?
  }

  // ---------------------------------------------------------------------------
  // The three upserts.

  /** upsertCustomer: replace by id. */
  function UpsertCustomer(s: Store, c: Customer): Store {
    s.(customers := s.customers[c.id := c])
  }

  /** upsertOrder: replace by id, then take the total from the order's line
      items if it has any. */
  function UpsertOrder(s: Store, o: Order): Store {
    var items := ItemsOf(s, o.id);
    s.(orders := s.orders[o.id := if items != [] then o.(totalAmount := LineTotal(items)) else o])
  }

  /** upsertLineItem: drop the entry with the same id, append the new one, and
      recompute the total of the order if it is stored. ArrayList.removeIf
      tests every entry before it removes any, so when an entry with a null id
      is already stored it throws and nothing changes. */
  function UpsertLineItem(s: Store, li: LineItem): Result<Store> {
    var items := ItemsOf(s, li.orderId);
    if HasNullId(items) then Thrown(NullPointer)
    else
      var updated := WithoutId(items, li.id) + [li];
      var orders :=
        if li.orderId in s.orders
        then s.orders[li.orderId := s.orders[li.orderId].(totalAmount := LineTotal(updated))]
        else s.orders;
      Ok(Store(s.customers, orders, s.lineItems[li.orderId := updated]))
  }

  /** The store after a call that may have thrown. */
  function After(r: Result<Store>, s: Store): Store {
    if r.Ok? then r.value else s
  }

  /** A normalised change event, as the consumers hand it to the store. */
  datatype Event = CustomerEvent(c: Customer) | OrderEvent(o: Order) | LineItemEvent(li: LineItem)

  function Apply(s: Store, e: Event): Store {
    match e
    case CustomerEvent(c) => UpsertCustomer(s, c)
    case OrderEvent(o) => UpsertOrder(s, o)
    case LineItemEvent(li) => After(UpsertLineItem(s, li), s)
  }

  function ApplyAll(s: Store, es: seq<Event>): Store
    decreases |es|
  {
    if es == [] then s else ApplyAll(Apply(s, es[0]), es[1..])
  }

  // ---------------------------------------------------------------------------
  // The invariant.

  ghost predicate UniqueIds(items: seq<LineItem>) {
    forall i, j :: 0 <= i < j < |items| ==> items[i].id != items[j].id
  }

  ghost predicate FiledUnder(items: seq<LineItem>, k: Key) {
    forall i :: 0 <= i < |items| ==> items[i].orderId == k
  }

  /** Every stored order whose id has a non-empty line-item list carries the
      total of that list. */
  ghost predicate TotalsConsistent(s: Store) {
    forall k :: k in s.orders && k in s.lineItems && s.lineItems[k] != [] ==>
      s.orders[k].totalAmount == LineTotal(s.lineItems[k])
  }

  ghost predicate Valid(s: Store) {
    && (forall k :: k in s.customers ==> s.customers[k].id == k)
    && (forall k :: k in s.orders ==> s.orders[k].id == k)
    && (forall k :: k in s.lineItems ==> FiledUnder(s.lineItems[k], k) && UniqueIds(s.lineItems[k]))
    && TotalsConsistent(s)
  }

  lemma EmptyIsValid()
    ensures Valid(Empty)
  {
  }

  lemma UpsertCustomerKeepsInvariant(s: Store, c: Customer)
    requires Valid(s)
    ensures Valid(UpsertCustomer(s, c))
  {
  }

  lemma UpsertOrderKeepsInvariant(s: Store, o: Order)
    requires Valid(s)
    ensures Valid(UpsertOrder(s, o))
  {
  }

  lemma {:induction false} UpsertLineItemKeepsInvariant(s: Store, li: LineItem)
    requires Valid(s)
    ensures Valid(After(UpsertLineItem(s, li), s))
  {
    var k := li.orderId;
    if !HasNullId(ItemsOf(s, k)) {
      UpsertLineItemShape(s, li);
      UpsertedListValid(ItemsOf(s, k), li);
    }
  }

  /** The list upsertLineItem files stays under its order and keeps its ids
      unique. */
  lemma UpsertedListValid(items: seq<LineItem>, li: LineItem)
    requires FiledUnder(items, li.orderId) && UniqueIds(items)
    ensures var updated := WithoutId(items, li.id) + [li];
      FiledUnder(updated, li.orderId) && UniqueIds(updated)
  {
    var w := WithoutId(items, li.id);
    var updated := w + [li];
    WithoutIdKeepsUnique(items, li.id);
    forall i | 0 <= i < |updated| ensures updated[i].orderId == li.orderId {
      if i < |w| {
        assert w[i] in w;
      }
    }
    forall i, j | 0 <= i < j < |updated| ensures updated[i].id != updated[j].id {
      assert updated[i] in w;
    }
  }

  /** The invariant holds after any sequence of upserts from the empty store:
      whatever the arrival order, a stored order with line items carries
      their total. */
  lemma {:induction false} ReplayKeepsInvariant(s: Store, es: seq<Event>)
    requires Valid(s)
    ensures Valid(ApplyAll(s, es))
    decreases |es|
  {
    if es != [] {
      match es[0] {
        case CustomerEvent(c) => UpsertCustomerKeepsInvariant(s, c);
        case OrderEvent(o) => UpsertOrderKeepsInvariant(s, o);
        case LineItemEvent(li) => UpsertLineItemKeepsInvariant(s, li);
      }
      ReplayKeepsInvariant(Apply(s, es[0]), es[1..]);
    }
  }

  // ---------------------------------------------------------------------------
  // What each upsert does, and what repeating it does.

  /** upsertCustomer stores the customer at its id and touches no other
      customer, no order and no line item. */
  lemma UpsertCustomerEffect(s: Store, c: Customer)
    ensures var t := UpsertCustomer(s, c);
      && c.id in t.customers && t.customers[c.id] == c
      && t.customers.Keys == s.customers.Keys + {c.id}
      && (forall k :: k in s.customers && k != c.id ==> t.customers[k] == s.customers[k])
      && t.orders == s.orders && t.lineItems == s.lineItems
  {
  }

  /** upsertOrder stores the order at its id; when line items for that id are
      already stored it carries their total, otherwise the total it arrived
      with. No other order, no customer and no line item changes. */
  lemma UpsertOrderEffect(s: Store, o: Order)
    ensures var t := UpsertOrder(s, o);
      && o.id in t.orders
      && t.orders[o.id].(totalAmount := o.totalAmount) == o
      && (ItemsOf(s, o.id) != [] ==> t.orders[o.id].totalAmount == LineTotal(ItemsOf(s, o.id)))
      && (ItemsOf(s, o.id) == [] ==> t.orders[o.id] == o)
      && t.orders.Keys == s.orders.Keys + {o.id}
      && (forall k :: k in s.orders && k != o.id ==> t.orders[k] == s.orders[k])
      && t.customers == s.customers && t.lineItems == s.lineItems
  {
  }

  /** The store a successful upsertLineItem leaves, written out. */
  lemma UpsertLineItemShape(s: Store, li: LineItem)
    requires !HasNullId(ItemsOf(s, li.orderId))
    ensures var updated := WithoutId(ItemsOf(s, li.orderId), li.id) + [li];
      UpsertLineItem(s, li) == Ok(Store(
        s.customers,
        if li.orderId in s.orders
        then s.orders[li.orderId := s.orders[li.orderId].(totalAmount := LineTotal(updated))]
        else s.orders,
        s.lineItems[li.orderId := updated]))
  {
  }

  /** upsertLineItem throws exactly when a stored entry of the order has a
      null id; otherwise the new item ends the order's list, it is the only
      entry with its id, and the entries before it are the old list without
      that id. */
  lemma UpsertLineItemEffect(s: Store, li: LineItem)
    ensures UpsertLineItem(s, li).Thrown? <==> HasNullId(ItemsOf(s, li.orderId))
    ensures UpsertLineItem(s, li).Ok? ==>
      var items := ItemsOf(UpsertLineItem(s, li).value, li.orderId);
      && items != [] && items[|items| - 1] == li
      && items[..|items| - 1] == WithoutId(ItemsOf(s, li.orderId), li.id)
      && (forall i :: 0 <= i < |items| - 1 ==> items[i].id != li.id)
  {
    if !HasNullId(ItemsOf(s, li.orderId)) {
      UpsertLineItemShape(s, li);
      var w := WithoutId(ItemsOf(s, li.orderId), li.id);
      var items := ItemsOf(UpsertLineItem(s, li).value, li.orderId);
      assert items == w + [li];
      assert items[..|w|] == w;
      forall i | 0 <= i < |w| ensures w[i].id != li.id {
        assert w[i] in w;
      }
    }
  }

  /** A successful upsertLineItem gives a stored order the total of its new
      list, creates no order, and leaves the other orders, the other lists and
      the customers as they were. */
  lemma UpsertLineItemFrame(s: Store, li: LineItem)
    requires UpsertLineItem(s, li).Ok?
    ensures var t := UpsertLineItem(s, li).value;
      && (li.orderId in s.orders ==>
            t.orders[li.orderId] == s.orders[li.orderId].(totalAmount := LineTotal(ItemsOf(t, li.orderId))))
      && t.orders.Keys == s.orders.Keys
      && (forall k :: k in s.orders && k != li.orderId ==> t.orders[k] == s.orders[k])
      && (forall k :: k != li.orderId ==> ItemsOf(t, k) == ItemsOf(s, k))
      && t.customers == s.customers
  {
    UpsertLineItemShape(s, li);
  }

  /** Once one entry of an order has a null id, every later line item of that
      order throws and leaves the store as it was. */
  lemma LineItemWithoutIdBlocksOrder(s: Store, first: LineItem, later: LineItem)
    requires first.id.None? && UpsertLineItem(s, first).Ok?
    requires later.orderId == first.orderId
    ensures UpsertLineItem(UpsertLineItem(s, first).value, later) == Thrown(NullPointer)
  {
    var w := WithoutId(ItemsOf(s, first.orderId), first.id);
    var t := UpsertLineItem(s, first).value;
    assert ItemsOf(t, later.orderId) == w + [first];
    assert (w + [first])[|w|].id.None?;
  }

  lemma {:induction false} WithoutIdAppend(a: seq<LineItem>, b: seq<LineItem>, id: Key)
    ensures WithoutId(a + b, id) == WithoutId(a, id) + WithoutId(b, id)
  {
    if a == [] {
      assert a + b == b;
    } else {
      assert (a + b)[0] == a[0];
      assert (a + b)[1..] == a[1..] + b;
      WithoutIdAppend(a[1..], b, id);
    }
  }

  /** One more entry seen by removeIf: it is kept unless it has the id. */
  lemma WithoutIdStep(items: seq<LineItem>, i: int, id: Key)
    requires 0 <= i < |items|
    ensures WithoutId(items[..i + 1], id) ==
      WithoutId(items[..i], id) + (if items[i].id != id then [items[i]] else [])
  {
    assert items[..i + 1] == items[..i] + [items[i]];
    WithoutIdAppend(items[..i], [items[i]], id);
    assert [items[i]][1..] == [];
  }

  lemma UpsertLineItemIdempotent(s: Store, li: LineItem)
    requires UpsertLineItem(s, li).Ok?
    ensures var once := UpsertLineItem(s, li).value;
      After(UpsertLineItem(once, li), once) == once
  {
    var items := ItemsOf(s, li.orderId);
    UpsertLineItemShape(s, li);
    var once := UpsertLineItem(s, li).value;
    var updated := WithoutId(items, li.id) + [li];
    assert ItemsOf(once, li.orderId) == updated;
    if li.id.None? {
      assert updated[|updated| - 1].id.None?;
      assert HasNullId(updated);
    } else {
      ReupsertList(items, li);
      UpsertLineItemShape(once, li);
      var twice := UpsertLineItem(once, li).value;
      assert twice.lineItems == once.lineItems;
      assert twice.orders == once.orders;
    }
  }

  /** Upserting an item into a list that already ends with it, after removeIf,
      gives the same list back. */
  lemma ReupsertList(items: seq<LineItem>, li: LineItem)
    requires !HasNullId(items) && li.id.Some?
    ensures var updated := WithoutId(items, li.id) + [li];
      !HasNullId(updated) && WithoutId(updated, li.id) + [li] == updated
  {
    var w := WithoutId(items, li.id);
    var updated := w + [li];
    forall i | 0 <= i < |updated| ensures updated[i].id.Some? {
      if i < |w| {
        assert w[i] in w;
      }
    }
    WithoutIdAppend(w, [li], li.id);
    assert WithoutId(w, li.id) == w by {
      forall i | 0 <= i < |w| ensures w[i].id != li.id {
        assert w[i] in w;
      }
    }
    assert WithoutId([li], li.id) == [] by {
      assert [li][1..] == [];
    }
  }

  /** Delivering the same event twice leaves the store as delivering it once:
      Debezium's at-least-once redelivery is harmless. */
  lemma UpsertsAreIdempotent(s: Store, e: Event)
    ensures Apply(Apply(s, e), e) == Apply(s, e)
  {
    match e {
      case CustomerEvent(c) =>
      case OrderEvent(o) =>
        assert ItemsOf(Apply(s, e), o.id) == ItemsOf(s, o.id);
      case LineItemEvent(li) =>
        if UpsertLineItem(s, li).Ok? {
          UpsertLineItemIdempotent(s, li);
        }
    }
  }

  // ---------------------------------------------------------------------------
  // Arrival order.

  lemma ApplyThree(s: Store, e1: Event, e2: Event, e3: Event)
    ensures ApplyAll(s, [e1, e2, e3]) == Apply(Apply(Apply(s, e1), e2), e3)
  {
    var s1, s2, s3 := Apply(s, e1), Apply(Apply(s, e1), e2), Apply(Apply(Apply(s, e1), e2), e3);
    assert [e1, e2, e3][1..] == [e2, e3];
    assert [e2, e3][1..] == [e3];
    assert [e3][1..] == [];
    assert ApplyAll(s3, []) == s3;
    assert ApplyAll(s2, [e3]) == s3;
    assert ApplyAll(s1, [e2, e3]) == s3;
  }

  /** An order and two of its line items end with the same total, the sum of
      the two amounts, whether the order arrives first, between or last (the
      three orders with `b` before `a` are this lemma with the two swapped). */
  lemma ArrivalOrderIrrelevant(s: Store, o: Order, a: LineItem, b: LineItem)
    requires ItemsOf(s, o.id) == []
    requires a.orderId == o.id && b.orderId == o.id
    requires a.id.Some? && b.id.Some? && a.id != b.id
    ensures var t := ApplyAll(s, [OrderEvent(o), LineItemEvent(a), LineItemEvent(b)]);
      o.id in t.orders && t.orders[o.id].totalAmount == Amount(a) + Amount(b)
    ensures var t := ApplyAll(s, [LineItemEvent(a), OrderEvent(o), LineItemEvent(b)]);
      o.id in t.orders && t.orders[o.id].totalAmount == Amount(a) + Amount(b)
    ensures var t := ApplyAll(s, [LineItemEvent(a), LineItemEvent(b), OrderEvent(o)]);
      o.id in t.orders && t.orders[o.id].totalAmount == Amount(a) + Amount(b)
  {
    var e1, e2, e3 := OrderEvent(o), LineItemEvent(a), LineItemEvent(b);
    ApplyThree(s, e1, e2, e3);
    ApplyThree(s, e2, e1, e3);
    ApplyThree(s, e2, e3, e1);
    PairTotal(a, b);
    var k := o.id;
    // Order, a, b.
    var s1 := Apply(s, e1);
    assert ItemsOf(s1, k) == [] && k in s1.orders;
    FirstItem(s1, a);
    var s2 := Apply(s1, e2);
    SecondItem(s2, a, b);
    // a, order, b.
    FirstItem(s, a);
    var u1 := Apply(s, e2);
    var u2 := Apply(u1, e1);
    assert ItemsOf(u2, k) == [a] && k in u2.orders;
    SecondItem(u2, a, b);
    // a, b, order.
    SecondItem(u1, a, b);
  }

  lemma PairTotal(a: LineItem, b: LineItem)
    ensures LineTotal([a, b]) == Amount(a) + Amount(b)
  {
    assert [a, b][1..] == [b];
    assert LineTotal([b]) == Amount(b) by {
      assert [b][1..] == [];
    }
  }

  /** The first item of an order with no items makes it the order's list. */
  lemma FirstItem(t: Store, a: LineItem)
    requires ItemsOf(t, a.orderId) == []
    ensures UpsertLineItem(t, a).Ok?
    ensures var u := UpsertLineItem(t, a).value;
      && ItemsOf(u, a.orderId) == [a]
      && u.orders.Keys == t.orders.Keys
  {
    UpsertLineItemShape(t, a);
    assert WithoutId([], a.id) == [];
  }

  /** A second item with another id is appended after the first, and the
      stored order's total becomes the sum of the two. */
  lemma SecondItem(t: Store, a: LineItem, b: LineItem)
    requires ItemsOf(t, b.orderId) == [a] && a.id.Some? && a.id != b.id
    ensures UpsertLineItem(t, b).Ok?
    ensures var u := UpsertLineItem(t, b).value;
      && ItemsOf(u, b.orderId) == [a, b]
      && u.orders.Keys == t.orders.Keys
      && (b.orderId in t.orders ==> u.orders[b.orderId].totalAmount == LineTotal([a, b]))
  {
    assert !HasNullId([a]);
    UpsertLineItemShape(t, b);
    assert WithoutId([a], b.id) == [a] by {
      assert [a][1..] == [];
    }
  }
}
