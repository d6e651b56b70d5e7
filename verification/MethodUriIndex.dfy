/** The method+URI index: built in one pass in Rust, maintained incrementally in Go. */
module MethodUriIndex {
  import opened Sorting

  type Index = map<string, seq<nat>>

  function Lookup(index: Index, key: string): seq<nat> {
    if key in index then index[key] else []
  }

  function KeyIs(keys: seq<string>, key: string): nat -> bool {
    (i: nat) => i < |keys| && keys[i] == key
  }

  /** Under every key the ascending positions that carry it, and no entry without one. */
  ghost predicate Indexes(index: Index, keys: seq<string>) {
    forall key :: Lookup(index, key) == Filter(Iota(|keys|), KeyIs(keys, key)) && (key in index <==> key in keys)
  }

  function Extend(index: Index, key: string, position: nat): Index {
    index[key := Lookup(index, key) + [position]]
  }

  /** Adding one entry at the end of the list keeps the index the one a fresh build would make. */
  lemma ExtendKeepsIndex(index: Index, keys: seq<string>, key: string)
    requires Indexes(index, keys)
    ensures Indexes(Extend(index, key, |keys|), keys + [key])
  {
    var n: nat, more := |keys|, keys + [key];
    assert Iota(n + 1) == Iota(n) + [n];
    forall k
      ensures Lookup(Extend(index, key, n), k) == Filter(Iota(n + 1), KeyIs(more, k))
      ensures k in Extend(index, key, n) <==> k in more
    {
      var last: seq<nat> := [n];
      FilterAppend(Iota(n), last, KeyIs(more, k));
      FilterAgree(Iota(n), KeyIs(more, k), KeyIs(keys, k));
      assert last[1..] == [];
      assert Filter(last, KeyIs(more, k)) == if k == key then last else [];
      assert Lookup(index, k) == Filter(Iota(n), KeyIs(keys, k));
    }
  }

  lemma IndexUnique(a: Index, b: Index, keys: seq<string>)
    requires Indexes(a, keys) && Indexes(b, keys)
    ensures a == b
  {
    forall k | k in a ensures k in b && a[k] == b[k] {
      assert Lookup(a, k) == Lookup(b, k);
    }
    assert a.Keys == b.Keys;
  }

  method Build(keys: seq<string>) returns (index: Index)
    ensures Indexes(index, keys)
  {
    index := map[];
    for i := 0 to |keys|
      invariant Indexes(index, keys[..i])
    {
      ExtendKeepsIndex(index, keys[..i], keys[i]);
      assert keys[..i + 1] == keys[..i] + [keys[i]];
      index := Extend(index, keys[i], i);
    }
    assert keys[..|keys|] == keys;
  }

  lemma {:induction false} FilterFiltered<T>(s: seq<T>, wide: T -> bool, narrow: T -> bool)
    requires forall x :: x in s && narrow(x) ==> wide(x)
    ensures Filter(Filter(s, wide), narrow) == Filter(s, narrow)
  {
    if s != [] {
      FilterFiltered(s[1..], wide, narrow);
      if wide(s[0]) {
        assert ([s[0]] + Filter(s[1..], wide))[1..] == Filter(s[1..], wide);
      }
    }
  }

  /** Searching the looked-up positions is searching the whole list, for a condition that implies the key. */
  lemma LookupCovers(index: Index, keys: seq<string>, key: string, p: nat -> bool)
    requires Indexes(index, keys)
    requires forall i: nat :: i < |keys| && p(i) ==> keys[i] == key
    ensures Filter(Lookup(index, key), p) == Filter(Iota(|keys|), p)
  {
    FilterFiltered(Iota(|keys|), KeyIs(keys, key), p);
  }
}
