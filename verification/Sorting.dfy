/** Stable sorting, filtering, and how the two commute.

    `Vec::sort_by_key` (Rust) and `sort.SliceStable` (Go) are library calls in the repository. This module gives them a
    reference definition and proves the facts the rest of the project needs of any stable sort. */
module Sorting {

  ghost predicate TotalPreorder<T(!new)>(le: (T, T) -> bool) {
    && (forall a, b :: le(a, b) || le(b, a))
    && (forall a, b, c :: le(a, b) && le(b, c) ==> le(a, c))
  }

  ghost predicate Sorted<T(!new)>(s: seq<T>, le: (T, T) -> bool) {
    forall i, j :: 0 <= i < j < |s| ==> le(s[i], s[j])
  }

  predicate Distinct<T(==)>(s: seq<T>) {
    forall i, j :: 0 <= i < j < |s| ==> s[i] != s[j]
  }

  predicate Increasing(s: seq<nat>) {
    forall i, j :: 0 <= i < j < |s| ==> s[i] < s[j]
  }

  function Map<A, B>(f: A -> B, s: seq<A>): (r: seq<B>)
    ensures |r| == |s| && forall i :: 0 <= i < |s| ==> r[i] == f(s[i])
  {
    seq(|s|, i requires 0 <= i < |s| => f(s[i]))
  }

  function Filter<T>(s: seq<T>, p: T -> bool): (r: seq<T>)
    ensures forall x | x in r :: x in s && p(x)
    ensures forall x | x in s && p(x) :: x in r
  {
    if s == [] then [] else if p(s[0]) then [s[0]] + Filter(s[1..], p) else Filter(s[1..], p)
  }

  /** Put `x` in front of the first element it does not exceed. */
  function Insert<T>(x: T, s: seq<T>, le: (T, T) -> bool): seq<T> {
    if s == [] || le(x, s[0]) then [x] + s else [s[0]] + Insert(x, s[1..], le)
  }

  /** The stable sort: elements the order ties keep their relative positions. */
  function StableSort<T>(s: seq<T>, le: (T, T) -> bool): seq<T> {
    if s == [] then [] else Insert(s[0], StableSort(s[1..], le), le)
  }

  lemma {:induction false} InsertMultiset<T>(x: T, s: seq<T>, le: (T, T) -> bool)
    ensures multiset(Insert(x, s, le)) == multiset(s) + multiset{x}
  {
    if s != [] && !le(x, s[0]) {
      InsertMultiset(x, s[1..], le);
      assert s == [s[0]] + s[1..];
    }
  }

  /** A stable sort is a permutation. */
  lemma {:induction false} SortMultiset<T>(s: seq<T>, le: (T, T) -> bool)
    ensures multiset(StableSort(s, le)) == multiset(s)
  {
    if s != [] {
      SortMultiset(s[1..], le);
      InsertMultiset(s[0], StableSort(s[1..], le), le);
      assert s == [s[0]] + s[1..];
    }
  }

  lemma SameElements<T>(a: seq<T>, b: seq<T>)
    requires multiset(a) == multiset(b)
    ensures |a| == |b|
    ensures forall x :: x in a <==> x in b
  {
    assert |multiset(a)| == |a| && |multiset(b)| == |b|;
    forall x ensures x in a <==> x in b {
      assert x in a <==> x in multiset(a);
      assert x in b <==> x in multiset(b);
    }
  }

  lemma SortElements<T>(s: seq<T>, le: (T, T) -> bool)
    ensures |StableSort(s, le)| == |s|
    ensures forall x :: x in StableSort(s, le) <==> x in s
  {
    SortMultiset(s, le);
    SameElements(StableSort(s, le), s);
  }

  lemma {:induction false} InsertSorted<T(!new)>(x: T, s: seq<T>, le: (T, T) -> bool)
    requires TotalPreorder(le) && Sorted(s, le)
    ensures Sorted(Insert(x, s, le), le)
  {
    if s != [] && !le(x, s[0]) {
      InsertSorted(x, s[1..], le);
      var rest := Insert(x, s[1..], le);
      InsertMultiset(x, s[1..], le);
      SameElements(rest, [x] + s[1..]);
      forall j | 0 <= j < |rest| ensures le(s[0], rest[j]) {
        assert rest[j] in [x] + s[1..];
      }
    }
  }

  lemma {:induction false} SortSorts<T(!new)>(s: seq<T>, le: (T, T) -> bool)
    requires TotalPreorder(le)
    ensures Sorted(StableSort(s, le), le)
  {
    if s != [] {
      SortSorts(s[1..], le);
      InsertSorted(s[0], StableSort(s[1..], le), le);
    }
  }

  lemma {:induction false} SortOfSorted<T(!new)>(s: seq<T>, le: (T, T) -> bool)
    requires Sorted(s, le)
    ensures StableSort(s, le) == s
  {
    if s != [] {
      SortOfSorted(s[1..], le);
    }
  }

  lemma {:induction false} FilterAppend<T>(a: seq<T>, b: seq<T>, p: T -> bool)
    ensures Filter(a + b, p) == Filter(a, p) + Filter(b, p)
  {
    if a == [] {
      assert a + b == b;
    } else {
      assert (a + b)[1..] == a[1..] + b;
      FilterAppend(a[1..], b, p);
    }
  }

  lemma FilterSnoc<T>(s: seq<T>, x: T, p: T -> bool)
    ensures Filter(s + [x], p) == Filter(s, p) + if p(x) then [x] else []
  {
    FilterAppend(s, [x], p);
    assert [x][1..] == [];
  }

  lemma {:induction false} FilterInsert<T(!new)>(x: T, s: seq<T>, le: (T, T) -> bool, p: T -> bool)
    requires TotalPreorder(le) && Sorted(s, le)
    ensures Filter(Insert(x, s, le), p) == if p(x) then Insert(x, Filter(s, p), le) else Filter(s, p)
  {
    if s == [] || le(x, s[0]) {
      assert ([x] + s)[1..] == s;
      var rest := Filter(s, p);
      if p(x) && rest != [] {
        assert rest[0] in s;
      }
    } else {
      FilterInsert(x, s[1..], le, p);
      assert ([s[0]] + Insert(x, s[1..], le))[1..] == Insert(x, s[1..], le);
    }
  }

  /** Filtering a stable sort is the stable sort of the filtered sequence. */
  lemma {:induction false} FilterSortCommute<T(!new)>(s: seq<T>, le: (T, T) -> bool, p: T -> bool)
    requires TotalPreorder(le)
    ensures Filter(StableSort(s, le), p) == StableSort(Filter(s, p), le)
  {
    if s != [] {
      FilterSortCommute(s[1..], le, p);
      SortSorts(s[1..], le);
      FilterInsert(s[0], StableSort(s[1..], le), le, p);
    }
  }

  /** Sorting leaves the elements selected by `p` alone exactly when they already stood in order. */
  lemma SortKeepsSelection<T(!new)>(s: seq<T>, le: (T, T) -> bool, p: T -> bool)
    requires TotalPreorder(le)
    ensures Filter(StableSort(s, le), p) == Filter(s, p) <==> Sorted(Filter(s, p), le)
  {
    FilterSortCommute(s, le, p);
    SortSorts(Filter(s, p), le);
    if Sorted(Filter(s, p), le) {
      SortOfSorted(Filter(s, p), le);
    }
  }

  lemma {:induction false} FilterSorted<T(!new)>(s: seq<T>, le: (T, T) -> bool, p: T -> bool)
    requires Sorted(s, le)
    ensures Sorted(Filter(s, p), le)
  {
    if s != [] {
      FilterSorted(s[1..], le, p);
      var rest := Filter(s[1..], p);
      forall j | 0 <= j < |rest| ensures le(s[0], rest[j]) {
        assert rest[j] in s[1..];
      }
    }
  }

  /** A selection is sorted exactly when every selected pair stands in order in the whole sequence. */
  ghost predicate PairSorted<T(!new)>(s: seq<T>, le: (T, T) -> bool, p: T -> bool) {
    forall i, j :: 0 <= i < j < |s| && p(s[i]) && p(s[j]) ==> le(s[i], s[j])
  }

  lemma ConsSorted<T(!new)>(x: T, rest: seq<T>, le: (T, T) -> bool)
    ensures Sorted([x] + rest, le) <==> Sorted(rest, le) && forall y | y in rest :: le(x, y)
  {
    var s := [x] + rest;
    assert forall i :: 0 <= i < |rest| ==> s[i + 1] == rest[i];
    if Sorted(s, le) {
      forall i, j | 0 <= i < j < |rest| ensures le(rest[i], rest[j]) {
        assert le(s[i + 1], s[j + 1]);
      }
      forall y | y in rest ensures le(x, y) {
        var k :| 0 <= k < |rest| && rest[k] == y;
        assert le(s[0], s[k + 1]);
      }
    }
  }

  lemma ConsPairSorted<T(!new)>(x: T, tail: seq<T>, le: (T, T) -> bool, p: T -> bool)
    ensures PairSorted([x] + tail, le, p) <==>
            PairSorted(tail, le, p) && (p(x) ==> forall y | y in tail && p(y) :: le(x, y))
  {
    var s := [x] + tail;
    assert forall i :: 0 <= i < |tail| ==> s[i + 1] == tail[i];
    if PairSorted(s, le, p) {
      forall i, j | 0 <= i < j < |tail| && p(tail[i]) && p(tail[j]) ensures le(tail[i], tail[j]) {
        assert le(s[i + 1], s[j + 1]);
      }
      forall y | y in tail && p(x) && p(y) ensures le(x, y) {
        var k :| 0 <= k < |tail| && tail[k] == y;
        assert le(s[0], s[k + 1]);
      }
    }
  }

  lemma {:induction false} FilterSortedIff<T(!new)>(s: seq<T>, le: (T, T) -> bool, p: T -> bool)
    ensures Sorted(Filter(s, p), le) <==> PairSorted(s, le, p)
  {
    if s != [] {
      FilterSortedIff(s[1..], le, p);
      ConsPairSorted(s[0], s[1..], le, p);
      ConsSorted(s[0], Filter(s[1..], p), le);
      assert s == [s[0]] + s[1..];
    }
  }

  lemma {:induction false} FilterAgree<T>(s: seq<T>, p: T -> bool, q: T -> bool)
    requires forall x :: x in s ==> p(x) == q(x)
    ensures Filter(s, p) == Filter(s, q)
  {
    if s != [] {
      FilterAgree(s[1..], p, q);
    }
  }

  function Composed<A, B>(f: A -> B, p: B -> bool): A -> bool {
    (a: A) => p(f(a))
  }

  lemma {:induction false} FilterMap<A, B>(s: seq<A>, f: A -> B, p: B -> bool)
    ensures Filter(Map(f, s), p) == Map(f, Filter(s, Composed(f, p)))
  {
    if s != [] {
      assert Map(f, s)[1..] == Map(f, s[1..]);
      FilterMap(s[1..], f, p);
    }
  }

  lemma {:induction false} FilterMultiset<T>(s: seq<T>, p: T -> bool)
    ensures forall x :: multiset(Filter(s, p))[x] == if p(x) then multiset(s)[x] else 0
  {
    if s != [] {
      FilterMultiset(s[1..], p);
      assert s == [s[0]] + s[1..];
      assert multiset(s) == multiset{s[0]} + multiset(s[1..]);
      assert p(s[0]) ==> multiset(Filter(s, p)) == multiset{s[0]} + multiset(Filter(s[1..], p));
    }
  }

  lemma {:induction false} FilterDistinct<T>(s: seq<T>, p: T -> bool)
    requires Distinct(s)
    ensures Distinct(Filter(s, p))
  {
    if s != [] {
      FilterDistinct(s[1..], p);
      assert s[0] !in s[1..];
    }
  }

  lemma {:induction false} DistinctCount<T>(s: seq<T>)
    ensures Distinct(s) <==> forall x :: multiset(s)[x] <= 1
  {
    if s != [] {
      var head, tail := s[0], s[1..];
      assert s == [head] + tail;
      DistinctCount(tail);
      assert multiset(s) == multiset{head} + multiset(tail);
      assert multiset(tail)[head] > 0 <==> head in tail;
      if Distinct(s) {
        assert Distinct(tail) by { assert forall i :: 0 <= i < |tail| ==> tail[i] == s[i + 1]; }
      }
      if forall x :: multiset(s)[x] <= 1 {
        assert multiset(s)[head] <= 1;
        assert forall x :: multiset(tail)[x] <= multiset(s)[x];
        assert head !in tail;
      }
    }
  }

  lemma {:induction false} DistinctSize<T>(s: seq<T>)
    requires Distinct(s)
    ensures |set x | x in s| == |s|
  {
    if s != [] {
      DistinctSize(s[1..]);
      assert s[0] !in s[1..];
      assert (set x | x in s) == {s[0]} + set x | x in s[1..];
    }
  }

  lemma SubsetOfSameSize<T>(a: set<T>, b: set<T>)
    requires a <= b && |a| == |b|
    ensures a == b
  {
    assert |b - a| == |b| - |a|;
  }

  lemma SortDistinct<T>(s: seq<T>, le: (T, T) -> bool)
    requires Distinct(s)
    ensures Distinct(StableSort(s, le))
  {
    SortMultiset(s, le);
    DistinctCount(s);
    DistinctCount(StableSort(s, le));
  }

  /** A sorted arrangement of distinct elements is determined by the set of its elements. */
  lemma {:induction false} SortedUnique<T(!new)>(a: seq<T>, b: seq<T>, le: (T, T) -> bool)
    requires Distinct(a) && Distinct(b) && Sorted(a, le) && Sorted(b, le)
    requires forall x :: x in a <==> x in b
    requires forall x, y :: x in a && y in a && le(x, y) && le(y, x) ==> x == y
    ensures a == b
  {
    assert b != [] ==> b[0] in b && b[0] in a;
    assert a != [] ==> a[0] in a && a[0] in b;
    if a != [] {
      var i :| 0 <= i < |b| && b[i] == a[0];
      var j :| 0 <= j < |a| && a[j] == b[0];
      assert a[0] !in a[1..] && b[0] !in b[1..];
      forall x ensures x in a[1..] <==> x in b[1..] {
        assert x in a <==> x == a[0] || x in a[1..];
        assert x in b <==> x == b[0] || x in b[1..];
      }
      SortedUnique(a[1..], b[1..], le);
      assert a == [a[0]] + a[1..] && b == [b[0]] + b[1..];
    }
  }

  /** Any two arrangements of the same distinct elements sort alike, when no two of them tie. */
  lemma SortSame<T(!new)>(a: seq<T>, b: seq<T>, le: (T, T) -> bool)
    requires TotalPreorder(le) && Distinct(a) && Distinct(b)
    requires forall x :: x in a <==> x in b
    requires forall x, y :: x in a && y in a && le(x, y) && le(y, x) ==> x == y
    ensures StableSort(a, le) == StableSort(b, le)
  {
    SortSorts(a, le);
    SortSorts(b, le);
    SortElements(a, le);
    SortElements(b, le);
    SortDistinct(a, le);
    SortDistinct(b, le);
    SortedUnique(StableSort(a, le), StableSort(b, le), le);
  }

  lemma {:induction false} MapInsert<A, B>(x: A, s: seq<A>, f: A -> B, leA: (A, A) -> bool, leB: (B, B) -> bool)
    requires forall a :: a in s ==> leA(x, a) == leB(f(x), f(a))
    ensures Map(f, Insert(x, s, leA)) == Insert(f(x), Map(f, s), leB)
  {
    if s != [] && !leA(x, s[0]) {
      MapInsert(x, s[1..], f, leA, leB);
      assert Map(f, s)[1..] == Map(f, s[1..]);
    }
  }

  ghost predicate Mirrors<A(!new), B>(s: seq<A>, f: A -> B, leA: (A, A) -> bool, leB: (B, B) -> bool) {
    forall i, j :: 0 <= i < |s| && 0 <= j < |s| ==> leA(s[i], s[j]) == leB(f(s[i]), f(s[j]))
  }

  /** Sorting by a property of the images is sorting the images. */
  lemma {:induction false} MapSort<A(!new), B>(s: seq<A>, f: A -> B, leA: (A, A) -> bool, leB: (B, B) -> bool)
    requires Mirrors(s, f, leA, leB)
    ensures Map(f, StableSort(s, leA)) == StableSort(Map(f, s), leB)
  {
    if s != [] {
      MirrorsTail(s, f, leA, leB);
      MapSort(s[1..], f, leA, leB);
      MapSortStep(s, f, leA, leB);
    }
  }

  lemma MapSortStep<A, B>(s: seq<A>, f: A -> B, leA: (A, A) -> bool, leB: (B, B) -> bool)
    requires s != [] && Map(f, StableSort(s[1..], leA)) == StableSort(Map(f, s[1..]), leB)
    requires forall a :: a in StableSort(s[1..], leA) ==> leA(s[0], a) == leB(f(s[0]), f(a))
    ensures Map(f, StableSort(s, leA)) == StableSort(Map(f, s), leB)
  {
    MapInsert(s[0], StableSort(s[1..], leA), f, leA, leB);
    assert Map(f, s)[0] == f(s[0]) && Map(f, s)[1..] == Map(f, s[1..]);
  }

  lemma MirrorsTail<A(!new), B>(s: seq<A>, f: A -> B, leA: (A, A) -> bool, leB: (B, B) -> bool)
    requires s != [] && Mirrors(s, f, leA, leB)
    ensures Mirrors(s[1..], f, leA, leB)
    ensures forall a :: a in StableSort(s[1..], leA) ==> leA(s[0], a) == leB(f(s[0]), f(a))
  {
    var tail := s[1..];
    forall i, j | 0 <= i < |tail| && 0 <= j < |tail| ensures leA(tail[i], tail[j]) == leB(f(tail[i]), f(tail[j])) {
      assert tail[i] == s[i + 1] && tail[j] == s[j + 1];
    }
    SortElements(tail, leA);
    forall a | a in StableSort(tail, leA) ensures leA(s[0], a) == leB(f(s[0]), f(a)) {
      var j :| 0 <= j < |tail| && tail[j] == a;
      assert a == s[j + 1];
    }
  }

  lemma SortPair<T>(a: T, b: T, le: (T, T) -> bool)
    ensures StableSort([a, b], le) == if le(a, b) then [a, b] else [b, a]
  {
    assert [a, b][1..] == [b];
    assert [b][1..] == [];
    assert StableSort([b], le) == [b];
    assert Insert(a, [b], le) == if le(a, b) then [a, b] else [b] + Insert(a, [], le);
  }

  lemma FilterPair<T>(a: T, b: T, p: T -> bool)
    requires p(a) && p(b)
    ensures Filter([a, b], p) == [a, b]
  {
    assert [a, b][1..] == [b];
    assert [b][1..] == [];
    assert Filter([b], p) == [b];
  }

  lemma Concat<T>(a: seq<T>, b: seq<T>, c: seq<T>)
    ensures a + b + c == a + (b + c)
  {}

  /** The keys of a map, in ascending order. */
  ghost predicate ListsKeys<V>(orders: seq<nat>, pending: map<nat, V>) {
    Increasing(orders) && forall o :: o in orders <==> o in pending
  }

  function Iota(n: nat): (r: seq<nat>)
    ensures |r| == n && forall i :: 0 <= i < n ==> r[i] == i
  {
    seq(n, i requires 0 <= i < n => i)
  }
}
