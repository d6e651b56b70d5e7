/** Which headers verify mode compares, and when two responses carry the same. */
module ComparedHeaders {
  import opened GlobMatching
  import opened Lexicographic
  import opened Matching
  import opened Protocol
  import opened Sorting

  datatype HeaderValue = HeaderValue(name: string, value: string)

  function Lower(s: string): string {
    ToLower(s, map[])
  }

  predicate Selected(patterns: seq<string>, name: string) {
    exists k :: 0 <= k < |patterns| && Glob(Lower(patterns[k]), Lower(name), true)
  }

  function Values(h: Header): (r: seq<HeaderValue>)
    ensures |r| == |h.values| && forall i :: 0 <= i < |r| ==> r[i] == HeaderValue(h.name, h.values[i])
  {
    seq(|h.values|, i requires 0 <= i < |h.values| => HeaderValue(h.name, h.values[i]))
  }

  function Flat(headers: seq<Header>): seq<HeaderValue> {
    if headers == [] then [] else Values(headers[0]) + Flat(headers[1..])
  }

  function NameKey(name: string): seq<string> {
    [Lower(name), name]
  }

  function ByName(): (HeaderValue, HeaderValue) -> bool {
    (a: HeaderValue, b: HeaderValue) => KeyLe(NameKey(a.name), NameKey(b.name))
  }

  function Selecting(patterns: seq<string>): Header -> bool {
    (h: Header) => Selected(patterns, h.name)
  }

  function InLower(): HeaderValue -> HeaderValue {
    (v: HeaderValue) => HeaderValue(Lower(v.name), v.value)
  }

  /** Selected headers, one entry for each value, sorted by name and then shown in lower case. */
  function Compared(patterns: seq<string>, headers: seq<Header>): seq<HeaderValue> {
    Map(InLower(), StableSort(Flat(Filter(headers, Selecting(patterns))), ByName()))
  }

  // --- Sorting headers is sorting their values ---

  function ByHeader(): (Header, Header) -> bool {
    (a: Header, b: Header) => KeyLe(NameKey(a.name), NameKey(b.name))
  }

  lemma ByNameTotal()
    ensures TotalPreorder(ByName()) && TotalPreorder(ByHeader())
  {
    forall x: string, y: string, z: string
      ensures KeyLe(NameKey(x), NameKey(y)) || KeyLe(NameKey(y), NameKey(x))
      ensures KeyLe(NameKey(x), NameKey(y)) && KeyLe(NameKey(y), NameKey(z)) ==> KeyLe(NameKey(x), NameKey(z))
    {
      KeyLeOrder(NameKey(x), NameKey(y), NameKey(z));
    }
  }

  ghost predicate Named(values: seq<HeaderValue>, name: string) {
    forall i :: 0 <= i < |values| ==> values[i].name == name
  }

  function InsertAll(values: seq<HeaderValue>, s: seq<HeaderValue>): seq<HeaderValue> {
    if values == [] then s else Insert(values[0], InsertAll(values[1..], s), ByName())
  }

  lemma {:induction false} SortFront(values: seq<HeaderValue>, s: seq<HeaderValue>)
    ensures StableSort(values + s, ByName()) == InsertAll(values, StableSort(s, ByName()))
  {
    if values == [] {
      assert values + s == s;
    } else {
      assert (values + s)[1..] == values[1..] + s;
      SortFront(values[1..], s);
    }
  }

  /** Values go in front of what they do not exceed. */
  lemma {:induction false} InsertInFront(values: seq<HeaderValue>, s: seq<HeaderValue>, name: string)
    requires Named(values, name) && (s != [] ==> KeyLe(NameKey(name), NameKey(s[0].name)))
    ensures InsertAll(values, s) == values + s
  {
    if values == [] {
      assert values + s == s;
    } else {
      InsertInFront(values[1..], s, name);
      KeyLeOrder(NameKey(name), NameKey(name), NameKey(name));
      assert values + s == [values[0]] + (values[1..] + s);
    }
  }

  lemma {:induction false} InsertBehind(v: HeaderValue, front: seq<HeaderValue>, s: seq<HeaderValue>, name: string)
    requires Named(front, name) && !KeyLe(NameKey(v.name), NameKey(name))
    ensures Insert(v, front + s, ByName()) == front + Insert(v, s, ByName())
  {
    if front == [] {
      assert front + s == s && front + Insert(v, s, ByName()) == Insert(v, s, ByName());
    } else {
      assert (front + s)[1..] == front[1..] + s;
      InsertBehind(v, front[1..], s, name);
      assert front == [front[0]] + front[1..];
      Concat([front[0]], front[1..], Insert(v, s, ByName()));
    }
  }

  lemma {:induction false} InsertAllBehind(
      values: seq<HeaderValue>, front: seq<HeaderValue>, s: seq<HeaderValue>, name: string, other: string)
    requires Named(values, name) && Named(front, other) && !KeyLe(NameKey(name), NameKey(other))
    ensures InsertAll(values, front + s) == front + InsertAll(values, s)
  {
    if values != [] {
      InsertAllBehind(values[1..], front, s, name, other);
      InsertBehind(values[0], front, InsertAll(values[1..], s), other);
    }
  }

  /** The first value of sorted headers belongs to none that comes before the first header. */
  lemma {:induction false} FirstValue(headers: seq<Header>, name: string)
    requires forall h | h in headers :: KeyLe(NameKey(name), NameKey(h.name))
    ensures Flat(headers) != [] ==> KeyLe(NameKey(name), NameKey(Flat(headers)[0].name))
  {
    if headers != [] {
      assert headers[0] in headers;
      FirstValue(headers[1..], name);
      assert headers[0].values == [] ==> Flat(headers) == Flat(headers[1..]);
    }
  }

  lemma {:induction false} InsertHeader(h: Header, headers: seq<Header>)
    requires Sorted(headers, ByHeader())
    ensures InsertAll(Values(h), Flat(headers)) == Flat(Insert(h, headers, ByHeader()))
  {
    if headers == [] || ByHeader()(h, headers[0]) {
      forall g | g in headers ensures KeyLe(NameKey(h.name), NameKey(g.name)) {
        var i :| 0 <= i < |headers| && headers[i] == g;
        assert i > 0 ==> ByHeader()(headers[0], headers[i]);
        KeyLeOrder(NameKey(h.name), NameKey(headers[0].name), NameKey(g.name));
      }
      FirstValue(headers, h.name);
      InsertInFront(Values(h), Flat(headers), h.name);
      assert ([h] + headers)[1..] == headers;
    } else {
      assert Sorted(headers[1..], ByHeader());
      InsertHeader(h, headers[1..]);
      InsertAllBehind(Values(h), Values(headers[0]), Flat(headers[1..]), h.name, headers[0].name);
      var rest := Insert(h, headers[1..], ByHeader());
      assert ([headers[0]] + rest)[1..] == rest;
    }
  }

  lemma {:induction false} SortFlat(headers: seq<Header>)
    ensures StableSort(Flat(headers), ByName()) == Flat(StableSort(headers, ByHeader()))
  {
    if headers != [] {
      SortFlat(headers[1..]);
      SortFront(Values(headers[0]), Flat(headers[1..]));
      ByNameTotal();
      SortSorts(headers[1..], ByHeader());
      InsertHeader(headers[0], StableSort(headers[1..], ByHeader()));
    }
  }

  // --- Name by name ---

  /** Some listed pattern matches the name, both in lower case. */
  ghost predicate Wanted(patterns: seq<string>, name: string) {
    exists pattern :: pattern in patterns && Glob(Lower(pattern), name, true)
  }

  function OfName(name: string): HeaderValue -> bool {
    (v: HeaderValue) => v.name == name
  }

  function OfLower(name: string): HeaderValue -> bool {
    (v: HeaderValue) => Lower(v.name) == name
  }

  function HeaderOf(name: string): Header -> bool {
    (h: Header) => Lower(h.name) == name
  }

  function TextOf(): HeaderValue -> string {
    (v: HeaderValue) => v.value
  }

  /** The values carried under a name in whatever letter case, in order. */
  function ValuesUnder(headers: seq<Header>, name: string): seq<string> {
    Map(TextOf(), Flat(StableSort(Filter(headers, HeaderOf(name)), ByHeader())))
  }

  /** Where only one header has the name, these are its values. */
  lemma OneHeader(headers: seq<Header>, i: nat)
    requires i < |headers| && forall j :: 0 <= j < |headers| && j != i ==> Lower(headers[j].name) != Lower(headers[i].name)
    ensures ValuesUnder(headers, Lower(headers[i].name)) == headers[i].values
  {
    var p, h := HeaderOf(Lower(headers[i].name)), headers[i];
    assert headers == headers[..i] + ([h] + headers[i + 1..]);
    FilterAppend(headers[..i], [h] + headers[i + 1..], p);
    FilterAppend([h], headers[i + 1..], p);
    NoneSelected(headers[..i], p);
    NoneSelected(headers[i + 1..], p);
    assert [h][1..] == [] && Filter(headers, p) == [h];
    assert StableSort([h], ByHeader()) == [h];
    assert Flat([h]) == Values(h);
    assert Map(TextOf(), Values(h)) == h.values;
  }

  lemma {:induction false} NoneSelected<T>(s: seq<T>, p: T -> bool)
    requires forall i :: 0 <= i < |s| ==> !p(s[i])
    ensures Filter(s, p) == []
  {
    if s != [] {
      NoneSelected(s[1..], p);
    }
  }

  lemma {:induction false} AllSelected<T>(s: seq<T>, p: T -> bool)
    requires forall i :: 0 <= i < |s| ==> p(s[i])
    ensures Filter(s, p) == s
  {
    if s != [] {
      AllSelected(s[1..], p);
      assert s == [s[0]] + s[1..];
    }
  }

  lemma {:induction false} FilterFlat(headers: seq<Header>, name: string)
    ensures Filter(Flat(headers), OfLower(name)) == Flat(Filter(headers, HeaderOf(name)))
  {
    if headers != [] {
      FilterFlat(headers[1..], name);
      FilterAppend(Values(headers[0]), Flat(headers[1..]), OfLower(name));
      if HeaderOf(name)(headers[0]) {
        AllSelected(Values(headers[0]), OfLower(name));
        var rest := Filter(headers[1..], HeaderOf(name));
        assert ([headers[0]] + rest)[1..] == rest;
      } else {
        NoneSelected(Values(headers[0]), OfLower(name));
      }
    }
  }

  lemma {:induction false} FilterBoth(patterns: seq<string>, headers: seq<Header>, name: string)
    ensures Filter(Filter(headers, Selecting(patterns)), HeaderOf(name)) ==
            if Wanted(patterns, name) then Filter(headers, HeaderOf(name)) else []
  {
    if headers != [] {
      FilterBoth(patterns, headers[1..], name);
      if Lower(headers[0].name) == name {
        WantedIsSelected(patterns, headers[0].name);
      }
      var rest := Filter(headers[1..], Selecting(patterns));
      assert ([headers[0]] + rest)[1..] == rest;
    }
  }

  lemma WantedIsSelected(patterns: seq<string>, name: string)
    ensures Selected(patterns, name) <==> Wanted(patterns, Lower(name))
  {
    if Wanted(patterns, Lower(name)) {
      var pattern :| pattern in patterns && Glob(Lower(pattern), Lower(name), true);
      var k :| 0 <= k < |patterns| && patterns[k] == pattern;
      assert Glob(Lower(patterns[k]), Lower(name), true);
    }
  }

  lemma SortedUnder(patterns: seq<string>, headers: seq<Header>, name: string)
    ensures Filter(StableSort(Flat(Filter(headers, Selecting(patterns))), ByName()), OfLower(name)) ==
            if Wanted(patterns, name) then Flat(StableSort(Filter(headers, HeaderOf(name)), ByHeader())) else []
  {
    var chosen := Filter(headers, Selecting(patterns));
    ByNameTotal();
    FilterSortCommute(Flat(chosen), ByName(), OfLower(name));
    FilterFlat(chosen, name);
    FilterBoth(patterns, headers, name);
    hide Wanted;
    hide Filter;
    SortFlat(Filter(chosen, HeaderOf(name)));
  }

  /** Under each name stand the values carried under it if it is wanted, and none otherwise. */
  lemma UnderName(patterns: seq<string>, headers: seq<Header>, name: string)
    ensures Map(TextOf(), Filter(Compared(patterns, headers), OfName(name))) ==
            if Wanted(patterns, name) then ValuesUnder(headers, name) else []
  {
    var sorted := StableSort(Flat(Filter(headers, Selecting(patterns))), ByName());
    SortedUnder(patterns, headers, name);
    FilterMap(sorted, InLower(), OfName(name));
    FilterAgree(sorted, Composed(InLower(), OfName(name)), OfLower(name));
    TextsKept(Filter(sorted, OfLower(name)));
    hide Wanted;
    hide Filter;
    hide StableSort;
    hide Flat;
  }

  lemma TextsKept(values: seq<HeaderValue>)
    ensures Map(TextOf(), Map(InLower(), values)) == Map(TextOf(), values)
  {}

  // --- A list sorted by name is determined by what stands under each name ---

  ghost predicate NamesAscend(s: seq<HeaderValue>) {
    forall i, j :: 0 <= i < j < |s| ==> StrLe(s[i].name, s[j].name)
  }

  lemma ComparedAscends(patterns: seq<string>, headers: seq<Header>)
    ensures NamesAscend(Compared(patterns, headers))
  {
    var values := Flat(Filter(headers, Selecting(patterns)));
    var sorted := StableSort(values, ByName());
    ByNameTotal();
    SortSorts(values, ByName());
    forall i, j | 0 <= i < j < |sorted| ensures StrLe(Lower(sorted[i].name), Lower(sorted[j].name)) {
      assert ByName()(sorted[i], sorted[j]);
      StrLeOrder(Lower(sorted[i].name), Lower(sorted[j].name), "");
    }
  }

  ghost predicate SameUnder(x: seq<HeaderValue>, y: seq<HeaderValue>, name: string) {
    Map(TextOf(), Filter(x, OfName(name))) == Map(TextOf(), Filter(y, OfName(name)))
  }

  lemma FirstUnder(x: seq<HeaderValue>, y: seq<HeaderValue>)
    requires NamesAscend(x) && NamesAscend(y) && x != [] && SameUnder(x, y, x[0].name)
    ensures y != [] && StrLe(y[0].name, x[0].name)
  {
    var name := x[0].name;
    var here, there := Filter(x, OfName(name)), Filter(y, OfName(name));
    assert |Map(TextOf(), here)| == |here| && |Map(TextOf(), there)| == |there|;
    assert there != [] && there[0] in there && there[0] in y;
    var i :| 0 <= i < |y| && y[i] == there[0];
    StrLeOrder(name, name, name);
    assert i > 0 ==> StrLe(y[0].name, y[i].name);
  }

  lemma FilterHead(v: HeaderValue, rest: seq<HeaderValue>, name: string)
    ensures Map(TextOf(), Filter([v] + rest, OfName(name))) ==
            (if v.name == name then [v.value] else []) + Map(TextOf(), Filter(rest, OfName(name)))
  {
    assert ([v] + rest)[1..] == rest;
  }

  lemma SameAfterFirst(x: seq<HeaderValue>, y: seq<HeaderValue>, name: string)
    requires x != [] && y != [] && x[0].name == y[0].name && SameUnder(x, y, name)
    ensures SameUnder(x[1..], y[1..], name) && (name == x[0].name ==> x[0] == y[0])
  {
    assert x == [x[0]] + x[1..] && y == [y[0]] + y[1..];
    FilterHead(x[0], x[1..], name);
    FilterHead(y[0], y[1..], name);
    if name == x[0].name {
      SamePair(x[0].value, y[0].value, Map(TextOf(), Filter(x[1..], OfName(name))), Map(TextOf(), Filter(y[1..], OfName(name))));
    }
  }

  lemma SamePair(v: string, w: string, s: seq<string>, t: seq<string>)
    requires [v] + s == [w] + t
    ensures v == w && s == t
  {
    assert ([v] + s)[0] == v && ([w] + t)[0] == w && ([v] + s)[1..] == s && ([w] + t)[1..] == t;
  }

  lemma {:induction false} NamesDecide(x: seq<HeaderValue>, y: seq<HeaderValue>)
    requires NamesAscend(x) && NamesAscend(y) && forall name :: SameUnder(x, y, name)
    ensures x == y
  {
    if x != [] { FirstUnder(x, y); }
    if y != [] {
      assert SameUnder(x, y, y[0].name);
      FirstUnder(y, x);
    }
    if x != [] {
      StrLeOrder(x[0].name, y[0].name, "");
      assert SameUnder(x, y, x[0].name);
      assert x == [x[0]] + x[1..] && y == [y[0]] + y[1..];
      SameAfterFirst(x, y, x[0].name);
      forall name ensures SameUnder(x[1..], y[1..], name) {
        assert SameUnder(x, y, name);
        SameAfterFirst(x, y, name);
      }
      NamesDecide(x[1..], y[1..]);
    }
  }

  /** Two responses have the same compared headers exactly when they carry the same values, in the same order, under every
      name that some listed pattern matches. */
  lemma ComparedDecide(patterns: seq<string>, a: seq<Header>, b: seq<Header>)
    ensures Compared(patterns, a) == Compared(patterns, b) <==>
            forall name :: Wanted(patterns, name) ==> ValuesUnder(a, name) == ValuesUnder(b, name)
  {
    var x, y := Compared(patterns, a), Compared(patterns, b);
    forall name ensures SameUnder(x, y, name) <==> (Wanted(patterns, name) ==> ValuesUnder(a, name) == ValuesUnder(b, name)) {
      UnderName(patterns, a, name);
      UnderName(patterns, b, name);
    }
    if forall name :: Wanted(patterns, name) ==> ValuesUnder(a, name) == ValuesUnder(b, name) {
      ComparedAscends(patterns, a);
      ComparedAscends(patterns, b);
      forall name ensures SameUnder(x, y, name) {
        assert Wanted(patterns, name) ==> ValuesUnder(a, name) == ValuesUnder(b, name);
      }
      NamesDecide(x, y);
    }
    if x == y {
      forall name | Wanted(patterns, name) ensures ValuesUnder(a, name) == ValuesUnder(b, name) {
        assert SameUnder(x, y, name);
      }
    }
  }

  /** A pattern `p*` selects exactly the names that start with `p`, in any letter case. */
  lemma PrefixSelects(p: string, name: string)
    requires '*' !in Lower(p) && '?' !in Lower(p)
    ensures Selected([p + "*"], name) <==> Lower(p) <= Lower(name)
  {
    LowerStar(p);
    PrefixPattern(Lower(p), Lower(name), true);
    assert [p + "*"][0] == p + "*";
  }

  lemma {:induction false} LowerStar(p: string)
    ensures Lower(p + "*") == Lower(p) + "*"
  {
    if p == "" {
      assert p + "*" == "*" && "*"[1..] == "";
    } else {
      assert (p + "*")[1..] == p[1..] + "*" && (p + "*")[0] == p[0];
      LowerStar(p[1..]);
    }
  }
}
