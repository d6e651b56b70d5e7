/** JSON values as `serde_json` holds them, its order-insensitive equality, and the canonical text of `ordering.rs`.

    A number is its printed text. `serde_json` compares numbers by kind and value; printing tells apart every two
    numbers it tells apart, and beyond that only the two signs of the float zero. */
module Json {
  import opened Lexicographic
  import opened Options
  import opened Sorting

  datatype Json =
    | Null
    | Bool(b: bool)
    | Number(text: string)
    | String(s: string)
    | Array(items: seq<Json>)
    | Object(members: seq<Member>)

  datatype Member = Member(key: string, value: Json)

  predicate NumberChar(c: char) {
    '0' <= c <= '9' || c in "+-.eE"
  }

  predicate NumberText(t: string) {
    t != "" && (t[0] == '-' || '0' <= t[0] <= '9') && forall c | c in t :: NumberChar(c)
  }

  function Keys(members: seq<Member>): (r: seq<string>)
    ensures |r| == |members| && forall i :: 0 <= i < |r| ==> r[i] == members[i].key
  {
    seq(|members|, i requires 0 <= i < |members| => members[i].key)
  }

  /** What every `serde_json::Value` satisfies: map keys are unique and numbers print as numbers. */
  predicate Valid(v: Json) {
    match v
    case Number(t) => NumberText(t)
    case Array(items) => forall x | x in items :: Valid(x)
    case Object(members) => Distinct(Keys(members)) && forall m | m in members :: Valid(m.value)
    case _ => true
  }

  type Value = v: Json | Valid(v) witness Null

  function Get(members: seq<Member>, key: string): (r: Option<Json>)
    ensures r.Some? ==> Member(key, r.value) in members
    ensures r.None? ==> forall m | m in members :: m.key != key
  {
    if members == [] then None
    else if members[0].key == key then Some(members[0].value)
    else Get(members[1..], key)
  }

  predicate FloatZero(t: string) {
    t == "0.0" || t == "-0.0"
  }

  predicate SameNumber(a: string, b: string, exact: bool) {
    a == b || (!exact && FloatZero(a) && FloatZero(b))
  }

  /** Equality up to the order of object keys. `exact` also tells the two float zeros apart; without it this is
      the `==` of `serde_json::Value`. */
  predicate Equal(a: Json, b: Json, exact: bool)
    decreases a
  {
    match a
    case Null => b.Null?
    case Bool(x) => b == Bool(x)
    case Number(t) => b.Number? && SameNumber(t, b.text, exact)
    case String(s) => b == String(s)
    case Array(items) =>
      b.Array? && |items| == |b.items| &&
      forall i :: 0 <= i < |items| ==> Equal(items[i], b.items[i], exact)
    case Object(members) =>
      b.Object? && |members| == |b.members| &&
      forall m | m in members ::
        var found := Get(b.members, m.key);
        found.Some? && Equal(m.value, found.value, exact)
  }

  // --- Lookup in objects ---

  lemma {:induction false} GetMember(members: seq<Member>, m: Member)
    requires Distinct(Keys(members)) && m in members
    ensures Get(members, m.key) == Some(m.value)
  {
    if members[0].key == m.key {
      var i :| 0 <= i < |members| && members[i] == m;
      assert Keys(members)[0] == Keys(members)[i];
    } else {
      assert Keys(members)[1..] == Keys(members[1..]);
      GetMember(members[1..], m);
    }
  }

  lemma {:induction false} EqualReflexive(v: Json, exact: bool)
    requires Valid(v)
    ensures Equal(v, v, exact)
  {
    match v
    case Array(items) =>
      forall i | 0 <= i < |items| ensures Equal(items[i], items[i], exact) {
        EqualReflexive(items[i], exact);
      }
    case Object(members) =>
      forall m | m in members
        ensures Get(members, m.key) == Some(m.value) && Equal(m.value, m.value, exact)
      {
        GetMember(members, m);
        EqualReflexive(m.value, exact);
      }
    case _ =>
  }

  // --- Canonical form: members in key order at every level ---

  function ByName(): (Member, Member) -> bool {
    (a: Member, b: Member) => StrLe(a.key, b.key)
  }

  lemma ByNameTotal()
    ensures TotalPreorder(ByName())
  {
    forall a: Member, b: Member, c: Member
      ensures StrLe(a.key, b.key) || StrLe(b.key, a.key)
      ensures StrLe(a.key, b.key) && StrLe(b.key, c.key) ==> StrLe(a.key, c.key)
    {
      StrLeOrder(a.key, b.key, c.key);
    }
  }

  function CanonicalItems(items: seq<Json>): (r: seq<Json>)
    ensures |r| == |items| && forall i :: 0 <= i < |r| ==> r[i] == Canonical(items[i])
    decreases items, 0
  {
    seq(|items|, i requires 0 <= i < |items| => Canonical(items[i]))
  }

  function CanonicalMembers(members: seq<Member>): (r: seq<Member>)
    ensures |r| == |members|
    ensures forall i :: 0 <= i < |r| ==> r[i] == Member(members[i].key, Canonical(members[i].value))
    decreases members, 0
  {
    seq(|members|, i requires 0 <= i < |members| => Member(members[i].key, Canonical(members[i].value)))
  }

  function Canonical(v: Json): Json
    decreases v, 1
  {
    match v
    case Array(items) => Array(CanonicalItems(items))
    case Object(members) => Object(StableSort(CanonicalMembers(members), ByName()))
    case _ => v
  }

  lemma CanonicalKeys(members: seq<Member>)
    ensures Keys(CanonicalMembers(members)) == Keys(members)
  {}

  lemma DistinctKeysDistinctMembers(members: seq<Member>)
    requires Distinct(Keys(members))
    ensures Distinct(members)
  {
    forall i, j | 0 <= i < j < |members| ensures members[i] != members[j] {
      assert Keys(members)[i] != Keys(members)[j];
    }
  }

  lemma KeyDeterminesMember(members: seq<Member>, x: Member, y: Member)
    requires Distinct(Keys(members)) && x in members && y in members && x.key == y.key
    ensures x == y
  {
    GetMember(members, x);
    GetMember(members, y);
  }

  lemma {:induction false} GetCanonical(members: seq<Member>, key: string)
    ensures Get(CanonicalMembers(members), key) ==
            (match Get(members, key) case None => None case Some(v) => Some(Canonical(v)))
  {
    if members != [] {
      assert CanonicalMembers(members)[1..] == CanonicalMembers(members[1..]);
      GetCanonical(members[1..], key);
    }
  }

  /** Two members lists with distinct keys, one covered by the other and equally long, hold the same members. */
  lemma CoveredIsSame(a: seq<Member>, b: seq<Member>)
    requires Distinct(Keys(a)) && Distinct(Keys(b)) && |a| == |b|
    requires forall m | m in a :: m in b
    ensures forall m :: m in a <==> m in b
  {
    DistinctKeysDistinctMembers(a);
    DistinctKeysDistinctMembers(b);
    var left, right := set m | m in a, set m | m in b;
    DistinctSize(a);
    DistinctSize(b);
    assert left <= right;
    SubsetOfSameSize(left, right);
    forall m ensures m in a <==> m in b {
      assert m in left <==> m in a;
      assert m in right <==> m in b;
    }
  }

  /** Canonical forms are identical exactly when the values are equal up to key order. */
  lemma {:induction false} CanonicalDecidesEqual(a: Json, b: Json)
    requires Valid(a) && Valid(b)
    ensures Canonical(a) == Canonical(b) <==> Equal(a, b, true)
    decreases a
  {
    match a
    case Array(items) =>
      if b.Array? && |items| == |b.items| {
        forall i | 0 <= i < |items|
          ensures Canonical(items[i]) == Canonical(b.items[i]) <==> Equal(items[i], b.items[i], true)
        {
          CanonicalDecidesEqual(items[i], b.items[i]);
        }
        if Canonical(a) == Canonical(b) {
          assert CanonicalItems(items) == CanonicalItems(b.items);
          assert forall i :: 0 <= i < |items| ==>
            CanonicalItems(items)[i] == Canonical(items[i]) && CanonicalItems(b.items)[i] == Canonical(b.items[i]);
        }
        if Equal(a, b, true) {
          assert CanonicalItems(items) == CanonicalItems(b.items);
        }
      } else if b.Array? {
        assert |CanonicalItems(items)| != |CanonicalItems(b.items)|;
      }
    case Object(members) =>
      if b.Object? {
        forall m | m in members && Get(b.members, m.key).Some?
          ensures var found := Get(b.members, m.key).value;
                  Canonical(m.value) == Canonical(found) <==> Equal(m.value, found, true)
        {
          CanonicalDecidesEqual(m.value, Get(b.members, m.key).value);
        }
        CanonicalMembersDecide(members, b.members);
      }
    case _ =>
  }

  ghost predicate MembersAgree(a: seq<Member>, b: seq<Member>) {
    |a| == |b| &&
    forall m | m in a :: Get(b, m.key).Some? && Canonical(m.value) == Canonical(Get(b, m.key).value)
  }

  lemma CanonicalMembersDecide(a: seq<Member>, b: seq<Member>)
    requires Distinct(Keys(a)) && Distinct(Keys(b))
    ensures StableSort(CanonicalMembers(a), ByName()) == StableSort(CanonicalMembers(b), ByName()) <==> MembersAgree(a, b)
  {
    var x, y := CanonicalMembers(a), CanonicalMembers(b);
    CanonicalKeys(a);
    CanonicalKeys(b);
    SortElements(x, ByName());
    SortElements(y, ByName());
    if StableSort(x, ByName()) == StableSort(y, ByName()) {
      forall m | m in a ensures Get(b, m.key).Some? && Canonical(m.value) == Canonical(Get(b, m.key).value) {
        var i :| 0 <= i < |a| && a[i] == m;
        assert x[i] in x && x[i] in y;
        GetMember(y, x[i]);
        GetCanonical(b, m.key);
      }
    }
    if MembersAgree(a, b) {
      forall m | m in x ensures m in y {
        var i :| 0 <= i < |x| && x[i] == m;
        assert a[i] in a;
        GetCanonical(b, m.key);
      }
      CoveredIsSame(x, y);
      SortedMembersUnique(x, y);
    }
  }

  lemma NamesDecide(members: seq<Member>, le: (Member, Member) -> bool)
    requires Distinct(Keys(members)) && le == ByName()
    ensures forall m, n :: m in members && n in members && le(m, n) && le(n, m) ==> m == n
  {
    forall m, n | m in members && n in members && le(m, n) && le(n, m) ensures m == n {
      StrLeOrder(m.key, n.key, m.key);
      KeyDeterminesMember(members, m, n);
    }
  }

  lemma SortedMembersUnique(x: seq<Member>, y: seq<Member>)
    requires Distinct(Keys(x)) && Distinct(Keys(y)) && forall m :: m in x <==> m in y
    ensures StableSort(x, ByName()) == StableSort(y, ByName())
  {
    ByNameTotal();
    DistinctKeysDistinctMembers(x);
    DistinctKeysDistinctMembers(y);
    NamesDecide(x, ByName());
    SortSame(x, y, ByName());
  }

  lemma {:induction false} CanonicalValid(v: Json)
    requires Valid(v)
    ensures Valid(Canonical(v))
  {
    match v
    case Array(items) =>
      forall x | x in CanonicalItems(items) ensures Valid(x) {
        var i :| 0 <= i < |items| && CanonicalItems(items)[i] == x;
        CanonicalValid(items[i]);
      }
    case Object(members) =>
      var x := CanonicalMembers(members);
      CanonicalKeys(members);
      SortElements(x, ByName());
      forall m | m in x ensures Valid(m.value) {
        var i :| 0 <= i < |members| && x[i] == m;
        CanonicalValid(members[i].value);
      }
      SortedKeysDistinct(x);
    case _ =>
  }

  lemma SortedKeysDistinct(x: seq<Member>)
    requires Distinct(Keys(x))
    ensures Distinct(Keys(StableSort(x, ByName())))
  {
    var sorted := StableSort(x, ByName());
    DistinctKeysDistinctMembers(x);
    SortDistinct(x, ByName());
    SortElements(x, ByName());
    forall i, j | 0 <= i < j < |sorted| ensures Keys(sorted)[i] != Keys(sorted)[j] {
      assert sorted[i] in x && sorted[j] in x;
      if sorted[i].key == sorted[j].key {
        KeyDeterminesMember(x, sorted[i], sorted[j]);
      }
    }
  }

  // --- The two float zeros ---

  function WithZeros(v: Json, zero: string): Json
    decreases v, 1
  {
    match v
    case Number(t) => if FloatZero(t) then Number(zero) else v
    case Array(items) => Array(ZeroItems(items, zero))
    case Object(members) => Object(ZeroMembers(members, zero))
    case _ => v
  }

  function ZeroItems(items: seq<Json>, zero: string): (r: seq<Json>)
    ensures |r| == |items| && forall i :: 0 <= i < |r| ==> r[i] == WithZeros(items[i], zero)
    decreases items, 0
  {
    seq(|items|, i requires 0 <= i < |items| => WithZeros(items[i], zero))
  }

  function ZeroMembers(members: seq<Member>, zero: string): (r: seq<Member>)
    ensures |r| == |members|
    ensures forall i :: 0 <= i < |r| ==> r[i] == Member(members[i].key, WithZeros(members[i].value, zero))
    decreases members, 0
  {
    seq(|members|, i requires 0 <= i < |members| => Member(members[i].key, WithZeros(members[i].value, zero)))
  }

  /** Whether a number with text `zero` occurs anywhere in `v`. */
  predicate Mentions(v: Json, zero: string) {
    match v
    case Number(t) => t == zero
    case Array(items) => exists x | x in items :: Mentions(x, zero)
    case Object(members) => exists m | m in members :: Mentions(m.value, zero)
    case _ => false
  }

  predicate HasFloatZero(v: Json) {
    Mentions(v, "0.0") || Mentions(v, "-0.0")
  }

  lemma {:induction false} GetZeros(members: seq<Member>, zero: string, key: string)
    ensures Get(ZeroMembers(members, zero), key) ==
            (match Get(members, key) case None => None case Some(v) => Some(WithZeros(v, zero)))
  {
    if members != [] {
      assert ZeroMembers(members, zero)[1..] == ZeroMembers(members[1..], zero);
      GetZeros(members[1..], zero, key);
    }
  }

  /** The equality of `serde_json` is exact equality once every float zero is written with one sign. */
  lemma {:induction false} EqualModuloZeros(a: Json, b: Json, zero: string)
    requires FloatZero(zero)
    ensures Equal(a, b, false) <==> Equal(WithZeros(a, zero), WithZeros(b, zero), true)
    decreases a
  {
    match a
    case Array(items) =>
      if b.Array? && |items| == |b.items| {
        forall i | 0 <= i < |items|
          ensures Equal(items[i], b.items[i], false) <==>
                  Equal(ZeroItems(items, zero)[i], ZeroItems(b.items, zero)[i], true)
        {
          EqualModuloZeros(items[i], b.items[i], zero);
        }
      }
    case Object(members) =>
      if b.Object? {
        var x, y := ZeroMembers(members, zero), ZeroMembers(b.members, zero);
        forall i | 0 <= i < |members|
          ensures Get(y, x[i].key).Some? <==> Get(b.members, members[i].key).Some?
          ensures Get(y, x[i].key).Some? ==>
                    (Equal(members[i].value, Get(b.members, members[i].key).value, false) <==>
                     Equal(x[i].value, Get(y, x[i].key).value, true))
        {
          GetZeros(b.members, zero, members[i].key);
          if Get(b.members, members[i].key).Some? {
            assert members[i] in members;
            EqualModuloZeros(members[i].value, Get(b.members, members[i].key).value, zero);
          }
        }
        MembersByIndex(members, x);
      }
    case _ =>
  }

  lemma MembersByIndex(a: seq<Member>, x: seq<Member>)
    ensures forall m | m in a :: exists i :: 0 <= i < |a| && a[i] == m
    ensures forall m | m in x :: exists i :: 0 <= i < |x| && x[i] == m
    ensures forall i | 0 <= i < |a| :: a[i] in a
    ensures forall i | 0 <= i < |x| :: x[i] in x
  {}

  lemma {:induction false} ZerosValid(v: Json, zero: string)
    requires Valid(v) && FloatZero(zero)
    ensures Valid(WithZeros(v, zero))
  {
    match v
    case Array(items) =>
      forall x | x in ZeroItems(items, zero) ensures Valid(x) {
        var i :| 0 <= i < |items| && ZeroItems(items, zero)[i] == x;
        ZerosValid(items[i], zero);
      }
    case Object(members) =>
      var x := ZeroMembers(members, zero);
      assert Keys(x) == Keys(members);
      forall m | m in x ensures Valid(m.value) {
        var i :| 0 <= i < |members| && x[i] == m;
        ZerosValid(members[i].value, zero);
      }
    case _ =>
  }

  /** Rewriting the sign of zeros changes nothing where the other sign does not occur. */
  lemma {:induction false} ZerosUnchanged(v: Json, zero: string)
    requires FloatZero(zero)
    requires !Mentions(v, if zero == "0.0" then "-0.0" else "0.0")
    ensures WithZeros(v, zero) == v
  {
    match v
    case Array(items) =>
      forall i | 0 <= i < |items| ensures ZeroItems(items, zero)[i] == items[i] {
        assert items[i] in items;
        ZerosUnchanged(items[i], zero);
      }
      assert ZeroItems(items, zero) == items;
    case Object(members) =>
      forall i | 0 <= i < |members| ensures ZeroMembers(members, zero)[i] == members[i] {
        assert members[i] in members;
        ZerosUnchanged(members[i].value, zero);
      }
      assert ZeroMembers(members, zero) == members;
    case _ =>
  }

  lemma {:induction false} ZerosIdempotent(v: Json, first: string, second: string)
    requires FloatZero(first)
    ensures WithZeros(WithZeros(v, first), second) == WithZeros(v, second)
  {
    match v
    case Array(items) =>
      forall i | 0 <= i < |items|
        ensures WithZeros(WithZeros(items[i], first), second) == WithZeros(items[i], second)
      {
        ZerosIdempotent(items[i], first, second);
      }
      assert ZeroItems(ZeroItems(items, first), second) == ZeroItems(items, second);
    case Object(members) =>
      forall i | 0 <= i < |members|
        ensures WithZeros(WithZeros(members[i].value, first), second) == WithZeros(members[i].value, second)
      {
        ZerosIdempotent(members[i].value, first, second);
      }
      assert ZeroMembers(ZeroMembers(members, first), second) == ZeroMembers(members, second);
    case _ =>
  }

  lemma {:induction false} ZerosSeparate(v: Json, zero: string)
    requires Valid(v) && FloatZero(zero) && Mentions(v, zero)
    ensures !Equal(WithZeros(v, "0.0"), WithZeros(v, "-0.0"), true)
  {
    match v
    case Array(items) =>
      var i :| 0 <= i < |items| && Mentions(items[i], zero);
      ZerosSeparate(items[i], zero);
      var x, y := ZeroItems(items, "0.0"), ZeroItems(items, "-0.0");
      assert !Equal(x[i], y[i], true);
    case Object(members) =>
      var i :| 0 <= i < |members| && Mentions(members[i].value, zero);
      assert members[i] in members;
      ZerosSeparate(members[i].value, zero);
      GetMember(members, members[i]);
      GetZeros(members, "-0.0", members[i].key);
      MembersSeparate(ZeroMembers(members, "0.0"), ZeroMembers(members, "-0.0"), i);
    case _ =>
  }

  lemma MembersSeparate(a: seq<Member>, b: seq<Member>, i: nat)
    requires i < |a| && Get(b, a[i].key).Some?
    requires !Equal(a[i].value, Get(b, a[i].key).value, true)
    ensures !Equal(Object(a), Object(b), true)
  {
    assert a[i] in a;
  }
}
