/** `record_order.go`: a stable sort of recordings by the order they were reserved under. */
module ReservationOrder {
  import opened Ordering
  import opened Replay
  import opened Sorting

  function ByReservation(orders: seq<nat>): seq<nat> {
    StableSort(Iota(|orders|), ByTie(orders))
  }

  lemma ByReservationArranges(orders: seq<nat>)
    ensures Arranges(ByReservation(orders), |orders|)
  {
    SortArranges(Iota(|orders|), |orders|, ByTie(orders));
  }

  function Ordered<T>(values: seq<T>, orders: seq<nat>): (r: seq<T>)
    requires |values| == |orders|
    ensures |r| == |values|
  {
    ByReservationArranges(orders);
    Arranged(values, ByReservation(orders))
  }

  method OrderedRecordings<T>(values: seq<T>, orders: seq<nat>) returns (ordered: seq<T>)
    requires |values| == |orders|
    ensures ordered == Ordered(values, orders)
  {
    var indices: seq<nat> := [];
    for index := 0 to |values|
      invariant indices == Iota(index)
    {
      indices := indices + [index];
    }
    indices := StableSort(indices, ByTie(orders));
    ByReservationArranges(orders);
    ordered := [];
    for k := 0 to |indices|
      invariant ordered == Ordered(values, orders)[..k]
    {
      assert indices[k] in indices;
      ordered := ordered + [values[indices[k]]];
    }
  }

  lemma ByTieTotal(orders: seq<nat>)
    ensures TotalPreorder(ByTie(orders))
  {}

  /** Entry `k` of the written list was recorded under entry `k` of the sorted orders. */
  ghost predicate Pairs<T>(values: seq<T>, orders: seq<nat>, value: T, order: nat) {
    exists i: nat :: i < |orders| && i < |values| && orders[i] == order && values[i] == value
  }

  lemma OrderedPairs<T>(values: seq<T>, orders: seq<nat>, k: nat)
    requires |values| == |orders| && k < |values|
    ensures Pairs(values, orders, Ordered(values, orders)[k], Ordered(orders, orders)[k])
  {
    ByReservationArranges(orders);
    assert ByReservation(orders)[k] in ByReservation(orders);
  }

  /** The written list is in reservation order, and holds what was recorded. */
  lemma OrderedIncreases(orders: seq<nat>)
    requires Distinct(orders)
    ensures Increasing(Ordered(orders, orders))
    ensures forall o :: o in Ordered(orders, orders) <==> o in orders
  {
    var at := ByReservation(orders);
    ByReservationArranges(orders);
    ByTieTotal(orders);
    SortSorts(Iota(|orders|), ByTie(orders));
    AllPresent(at, |orders|);
    forall i, j | 0 <= i < j < |orders| ensures Ordered(orders, orders)[i] < Ordered(orders, orders)[j] {
      assert ByTie(orders)(at[i], at[j]) && at[i] in at && at[j] in at;
      assert orders[at[i]] != orders[at[j]];
    }
    forall o ensures o in Ordered(orders, orders) <==> o in orders {
      if o in orders {
        var i: nat :| i < |orders| && orders[i] == o;
        assert i in at;
        var k :| 0 <= k < |at| && at[k] == i;
        assert Ordered(orders, orders)[k] == o;
      }
      if o in Ordered(orders, orders) {
        var k: nat :| k < |orders| && Ordered(orders, orders)[k] == o;
        OrderedPairs(orders, orders, k);
      }
    }
  }

  /** A list already in reservation order is written as it stands. */
  lemma OrderedStays<T>(values: seq<T>, orders: seq<nat>)
    requires |values| == |orders| && Increasing(orders)
    ensures Ordered(values, orders) == values
  {
    SortOfSorted(Iota(|orders|), ByTie(orders));
  }

  /** Two arrivals of the same recordings under the same orders are written alike. */
  lemma ArrivalOrderForgotten<T(!new)>(a: seq<T>, aOrders: seq<nat>, b: seq<T>, bOrders: seq<nat>)
    requires |a| == |aOrders| && |b| == |bOrders| && Distinct(aOrders) && Distinct(bOrders)
    requires forall value, order :: Pairs(a, aOrders, value, order) <==> Pairs(b, bOrders, value, order)
    ensures Ordered(a, aOrders) == Ordered(b, bOrders)
  {
    forall o: nat ensures o in aOrders <==> o in bOrders {
      if o in aOrders {
        var i: nat :| i < |aOrders| && aOrders[i] == o;
        assert Pairs(a, aOrders, a[i], o);
      }
      if o in bOrders {
        var i: nat :| i < |bOrders| && bOrders[i] == o;
        assert Pairs(b, bOrders, b[i], o);
      }
    }
    OrderedIncreases(aOrders);
    OrderedIncreases(bOrders);
    var x, y := Ordered(aOrders, aOrders), Ordered(bOrders, bOrders);
    SortedUnique(x, y, (m: nat, n: nat) => m <= n);
    forall k: nat | k < |a| ensures Ordered(a, aOrders)[k] == Ordered(b, bOrders)[k] {
      OrderedPairs(a, aOrders, k);
      OrderedPairs(b, bOrders, k);
      OnePairEach(b, bOrders, Ordered(a, aOrders)[k], Ordered(b, bOrders)[k], y[k]);
    }
  }

  lemma OnePairEach<T>(values: seq<T>, orders: seq<nat>, x: T, y: T, order: nat)
    requires Distinct(orders) && Pairs(values, orders, x, order) && Pairs(values, orders, y, order)
    ensures x == y
  {}
}
