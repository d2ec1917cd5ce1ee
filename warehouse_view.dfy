/** WarehouseView: a picking-list entry whose `totalItems` field is derived
    from its item list by the constructor and by setItems. */
module Warehouse {
  import opened Java
  import opened Time
  import opened Entities

  /** Σ quantity over a list of item views. */
  function SumQuantities(items: seq<LineItemView>): int {
    if items == [] then 0 else items[0].quantity + SumQuantities(items[1..])
  }

  /** `items != null ? Σ quantity : 0`. */
  function TotalItems(items: Option<seq<LineItemView>>): int {
    if items.Some? then SumQuantities(items.value) else 0
  }

  lemma {:induction false} SumQuantitiesAppend(a: seq<LineItemView>, b: seq<LineItemView>)
    ensures SumQuantities(a + b) == SumQuantities(a) + SumQuantities(b)
  {
    if a == [] {
      assert a + b == b;
    } else {
      assert (a + b)[0] == a[0];
      assert (a + b)[1..] == a[1..] + b;
      SumQuantitiesAppend(a[1..], b);
    }
  }

  /** No item list counts zero items, and non-negative quantities give a
      non-negative count that bounds each single quantity. */
  lemma {:induction false} TotalItemsBounds(items: Option<seq<LineItemView>>)
    ensures items.None? ==> TotalItems(items) == 0
    ensures items.Some? && (forall i :: 0 <= i < |items.value| ==> items.value[i].quantity >= 0) ==>
      TotalItems(items) >= 0 &&
      forall i :: 0 <= i < |items.value| ==> items.value[i].quantity <= TotalItems(items)
  {
    if items.Some? && (forall i :: 0 <= i < |items.value| ==> items.value[i].quantity >= 0) {
      NonNegativeSum(items.value);
    }
  }

  lemma {:induction false} NonNegativeSum(s: seq<LineItemView>)
    requires forall i :: 0 <= i < |s| ==> s[i].quantity >= 0
    ensures SumQuantities(s) >= 0
    ensures forall i :: 0 <= i < |s| ==> s[i].quantity <= SumQuantities(s)
  {
    if s != [] {
      NonNegativeSum(s[1..]);
      forall i | 0 < i < |s| ensures s[i].quantity <= SumQuantities(s) {
        assert s[i] == s[1..][i - 1];
      }
    }
  }

  class WarehouseView {
    var orderId: string
    var customerName: string
    var createdAt: Instant
    var items: Option<seq<LineItemView>>
    var totalItems: int

    /** The derived field agrees with the item list. */
    ghost predicate Valid()
      reads this
    {
      totalItems == TotalItems(items)
    }

    constructor (orderId: string, customerName: string, createdAt: Instant, items: Option<seq<LineItemView>>)
      ensures this.orderId == orderId && this.customerName == customerName
      ensures this.createdAt == createdAt && this.items == items
      ensures Valid()
    {
      this.orderId := orderId;
      this.customerName := customerName;
      this.createdAt := createdAt;
      this.items := items;
      this.totalItems := TotalItems(items);
    }

    /** setItems replaces the list and re-establishes the derived field. */
    method SetItems(items: Option<seq<LineItemView>>)
      modifies this
      ensures this.items == items && Valid()
      ensures orderId == old(orderId) && customerName == old(customerName) && createdAt == old(createdAt)
    {
      this.items := items;
      this.totalItems := TotalItems(items);
    }

    /** setTotalItems overwrites the derived field: afterwards it agrees with
        the list only if the new value happens to be the sum. */
    method SetTotalItems(totalItems: int)
      modifies this`totalItems
      ensures this.totalItems == totalItems
      ensures Valid() <==> totalItems == TotalItems(items)
    {
      this.totalItems := totalItems;
    }
  }
}
