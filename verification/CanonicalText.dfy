/** The canonical serializer of `ordering.rs`: what it writes, and that the text decides equality up to key order. */
module CanonicalText {
  import opened Json
  import opened Lexicographic
  import opened Sorting

  // --- Compact JSON text, closing bracket included in the tail ---

  function HexDigit(n: nat): char
    requires n < 16
  {
    "0123456789abcdef"[n]
  }

  function EscapeChar(c: char): string {
    if c == '\"' then "\\\""
    else if c == '\\' then "\\\\"
    else if c as int == 8 then "\\b"
    else if c as int == 9 then "\\t"
    else if c as int == 10 then "\\n"
    else if c as int == 12 then "\\f"
    else if c as int == 13 then "\\r"
    else if c as int < 32 then "\\u00" + [HexDigit(c as int / 16), HexDigit(c as int % 16)]
    else [c]
  }

  function EscapeTail(s: string): string {
    if s == "" then "\"" else EscapeChar(s[0]) + EscapeTail(s[1..])
  }

  function Quote(s: string): string {
    "\"" + EscapeTail(s)
  }

  function Print(v: Json): string
    decreases v, 1
  {
    match v
    case Null => "null"
    case Bool(b) => if b then "true" else "false"
    case Number(t) => t
    case String(s) => Quote(s)
    case Array(items) => if items == [] then "[]" else "[" + Print(items[0]) + ItemsTail(items[1..])
    case Object(members) => if members == [] then "{}" else "{" + Entry(members[0]) + MembersTail(members[1..])
  }

  function Entry(m: Member): string
    decreases m, 2
  {
    Quote(m.key) + ":" + Print(m.value)
  }

  function ItemsTail(items: seq<Json>): string
    decreases items, 0
  {
    if items == [] then "]" else "," + Print(items[0]) + ItemsTail(items[1..])
  }

  function MembersTail(members: seq<Member>): string
    decreases members, 0
  {
    if members == [] then "}" else "," + Entry(members[0]) + MembersTail(members[1..])
  }

  function Text(v: Json): string {
    Print(Canonical(v))
  }

  // --- The writer ---

  lemma KeysCons(m: Member, members: seq<Member>)
    ensures Keys([m] + members) == [m.key] + Keys(members)
  {}

  lemma {:induction false} InsertKeys(m: Member, members: seq<Member>)
    ensures Keys(Insert(m, members, ByName())) == Insert(m.key, Keys(members), StringOrder())
  {
    KeysCons(m, members);
    if members != [] {
      assert members == [members[0]] + members[1..];
      KeysCons(members[0], members[1..]);
      KeysCons(members[0], Insert(m, members[1..], ByName()));
      assert Keys(members)[1..] == Keys(members[1..]);
      InsertKeys(m, members[1..]);
    }
  }

  lemma {:induction false} SortKeys(members: seq<Member>)
    ensures Keys(StableSort(members, ByName())) == StableSort(Keys(members), StringOrder())
  {
    if members != [] {
      SortKeys(members[1..]);
      InsertKeys(members[0], StableSort(members[1..], ByName()));
      assert Keys(members)[1..] == Keys(members[1..]);
    }
  }

  /** The i-th member written is the value looked up under the i-th sorted key, in canonical form. */
  lemma SortedMember(members: seq<Member>, i: nat)
    requires Distinct(Keys(members)) && i < |members|
    ensures var keys := StableSort(Keys(members), StringOrder());
            var sorted := StableSort(CanonicalMembers(members), ByName());
            && |keys| == |sorted| == |members|
            && Get(members, keys[i]).Some?
            && sorted[i] == Member(keys[i], Canonical(Get(members, keys[i]).value))
  {
    var x := CanonicalMembers(members);
    var keys, sorted := StableSort(Keys(members), StringOrder()), StableSort(x, ByName());
    CanonicalKeys(members);
    SortKeys(x);
    SortElements(x, ByName());
    assert |Keys(sorted)| == |keys| && Keys(sorted)[i] == keys[i];
    assert sorted[i] in x;
    GetMember(x, sorted[i]);
    GetCanonical(members, keys[i]);
  }

  lemma Assoc(a: string, b: string, c: string)
    ensures a + b + c == a + (b + c)
  {}

  /** What is left to write of an object, or of an array, before its i-th entry. */
  ghost function RestOfObject(members: seq<Member>, i: nat): string
    requires i <= |members|
  {
    if i == 0 && members != [] then Entry(members[0]) + MembersTail(members[1..]) else MembersTail(members[i..])
  }

  ghost function RestOfArray(items: seq<Json>, i: nat): string
    requires i <= |items|
  {
    if i == 0 && items != [] then Print(items[0]) + ItemsTail(items[1..]) else ItemsTail(items[i..])
  }

  ghost function Separated(before: string, i: nat): string {
    if i > 0 then before + "," else before
  }

  lemma ObjectStep(members: seq<Member>, i: nat, before: string)
    requires i < |members|
    ensures Separated(before, i) + Quote(members[i].key) + ":" + Print(members[i].value) + RestOfObject(members, i + 1) ==
            before + RestOfObject(members, i)
  {
    assert members[i..][1..] == members[i + 1..];
    var start, rest := Separated(before, i), RestOfObject(members, i + 1);
    Assoc(start, Quote(members[i].key), ":");
    Assoc(start, Quote(members[i].key) + ":", Print(members[i].value));
    Assoc(start, Entry(members[i]), rest);
    Assoc(before, ",", Entry(members[i]) + rest);
    Assoc(",", Entry(members[i]), rest);
  }

  lemma ArrayStep(items: seq<Json>, i: nat, before: string)
    requires i < |items|
    ensures Separated(before, i) + Print(items[i]) + RestOfArray(items, i + 1) == before + RestOfArray(items, i)
  {
    assert items[i..][1..] == items[i + 1..];
    var start, rest := Separated(before, i), RestOfArray(items, i + 1);
    Assoc(start, Print(items[i]), rest);
    Assoc(before, ",", Print(items[i]) + rest);
    Assoc(",", Print(items[i]), rest);
  }

  lemma OpenText(prefix: string, items: seq<Json>, members: seq<Member>)
    ensures prefix + "[" + RestOfArray(items, 0) == prefix + Print(Array(items))
    ensures prefix + "{" + RestOfObject(members, 0) == prefix + Print(Object(members))
  {
    if items != [] {
      Assoc("[", Print(items[0]), ItemsTail(items[1..]));
    }
    if members != [] {
      Assoc("{", Entry(members[0]), MembersTail(members[1..]));
    }
    Assoc(prefix, "[", RestOfArray(items, 0));
    Assoc(prefix, "{", RestOfObject(members, 0));
  }

  method WriteCanonical(value: Value, prefix: string) returns (out: string)
    ensures out == prefix + Text(value)
    decreases value
  {
    out := prefix;
    match value {
      case Object(members) =>
        var keys := StableSort(Keys(members), StringOrder());
        ghost var sorted := StableSort(CanonicalMembers(members), ByName());
        SortElements(Keys(members), StringOrder());
        SortElements(CanonicalMembers(members), ByName());
        out := out + "{";
        OpenText(prefix, [], sorted);
        for i := 0 to |keys|
          invariant out + RestOfObject(sorted, i) == prefix + Print(Object(sorted))
        {
          SortedMember(members, i);
          ObjectStep(sorted, i, out);
          if i > 0 {
            out := out + ",";
          }
          out := out + Quote(keys[i]);
          out := out + ":";
          out := WriteCanonical(Get(members, keys[i]).value, out);
        }
        out := out + "}";
      case Array(items) =>
        ghost var written := CanonicalItems(items);
        out := out + "[";
        OpenText(prefix, written, []);
        for i := 0 to |items|
          invariant out + RestOfArray(written, i) == prefix + Print(Array(written))
        {
          ArrayStep(written, i, out);
          if i > 0 {
            out := out + ",";
          }
          out := WriteCanonical(items[i], out);
        }
        out := out + "]";
      case _ =>
        out := out + Print(value);
    }
  }

  // --- The text determines the value ---

  lemma SplitSame(a: string, s: string, b: string, t: string)
    requires a + s == b + t && |a| == |b|
    ensures a == b && s == t
  {
    assert a == (a + s)[..|a|] && b == (b + t)[..|b|];
    assert s == (a + s)[|a|..] && t == (b + t)[|b|..];
  }

  lemma Peel(open: string, first: string, tail: string, rest: string)
    ensures open + first + tail + rest == open + (first + (tail + rest))
  {
    Assoc(open + first, tail, rest);
    Assoc(open, first, tail + rest);
  }

  lemma FirstChar(a: string, b: string)
    requires a != ""
    ensures (a + b)[0] == a[0]
  {}

  lemma EscapeCharUnique(c: char, d: char, s: string, t: string)
    requires EscapeChar(c) + s == EscapeChar(d) + t
    ensures c == d && s == t
  {
    var x, y := EscapeChar(c), EscapeChar(d);
    assert (x + s)[0] == x[0] && (y + t)[0] == y[0];
    if |x| > 1 && |y| > 1 {
      assert (x + s)[1] == x[1] && (y + t)[1] == y[1];
      if |x| == 6 {
        assert |y| == 6;
        SplitSame(x, s, y, t);
        assert x[4] == y[4] && x[5] == y[5];
        assert c as int / 16 == d as int / 16;
      }
    }
    SplitSame(x, s, y, t);
  }

  lemma EscapeCharHead(c: char)
    ensures EscapeChar(c) != "" && EscapeChar(c)[0] != '\"'
  {}

  lemma {:induction false} EscapeUnique(x: string, y: string, s: string, t: string)
    requires EscapeTail(x) + s == EscapeTail(y) + t
    ensures x == y && s == t
  {
    if x == "" && y == "" {
      SplitSame("\"", s, "\"", t);
    } else if x != "" && y != "" {
      Assoc(EscapeChar(x[0]), EscapeTail(x[1..]), s);
      Assoc(EscapeChar(y[0]), EscapeTail(y[1..]), t);
      EscapeCharUnique(x[0], y[0], EscapeTail(x[1..]) + s, EscapeTail(y[1..]) + t);
      EscapeUnique(x[1..], y[1..], s, t);
    } else {
      var z := if x == "" then y else x;
      EscapeCharHead(z[0]);
      FirstChar(EscapeChar(z[0]), EscapeTail(z[1..]));
      FirstChar(EscapeTail(x), s);
      FirstChar(EscapeTail(y), t);
      assert false;
    }
  }

  lemma QuoteUnique(x: string, y: string, s: string, t: string)
    requires Quote(x) + s == Quote(y) + t
    ensures x == y && s == t
  {
    Assoc("\"", EscapeTail(x), s);
    Assoc("\"", EscapeTail(y), t);
    SplitSame("\"", EscapeTail(x) + s, "\"", EscapeTail(y) + t);
    EscapeUnique(x, y, s, t);
  }

  predicate Stops(s: string) {
    s == "" || s[0] in ",]}"
  }

  /** The first character tells the kind of value apart. */
  predicate Heads(v: Json, c: char) {
    match v
    case Null => c == 'n'
    case Bool(b) => c == if b then 't' else 'f'
    case Number(_) => c == '-' || '0' <= c <= '9'
    case String(_) => c == '\"'
    case Array(_) => c == '['
    case Object(_) => c == '{'
  }

  lemma PrintHead(v: Json, s: string)
    requires Valid(v)
    ensures Print(v) != "" && Heads(v, (Print(v) + s)[0])
  {}

  lemma NumberLonger(a: string, b: string, s: string, t: string)
    requires NumberText(b) && Stops(s) && |a| < |b|
    ensures a + s != b + t
  {
    assert NumberChar(b[|a|]) && (b + t)[|a|] == b[|a|];
    if s != "" {
      assert (a + s)[|a|] == s[0];
    }
  }

  lemma {:induction false} NumberUnique(a: string, b: string, s: string, t: string)
    requires NumberText(a) && NumberText(b) && Stops(s) && Stops(t) && a + s == b + t
    ensures a == b && s == t
  {
    if |a| < |b| {
      NumberLonger(a, b, s, t);
    } else if |b| < |a| {
      NumberLonger(b, a, t, s);
    } else {
      SplitSame(a, s, b, t);
    }
  }

  lemma {:induction false} PrintUnique(a: Json, b: Json, s: string, t: string)
    requires Valid(a) && Valid(b) && Stops(s) && Stops(t) && Print(a) + s == Print(b) + t
    ensures a == b && s == t
    decreases a, 1
  {
    PrintHead(a, s);
    PrintHead(b, t);
    match a
    case Null => SplitSame("null", s, "null", t);
    case Bool(x) => SplitSame(Print(a), s, Print(b), t);
    case Number(x) => NumberUnique(x, b.text, s, t);
    case String(x) => QuoteUnique(x, b.s, s, t);
    case Array(items) => ArrayUnique(items, b.items, s, t);
    case Object(members) => ObjectUnique(members, b.members, s, t);
  }

  lemma TailHead(items: seq<Json>, members: seq<Member>, s: string)
    ensures Stops(ItemsTail(items) + s) && Stops(MembersTail(members) + s)
    ensures (ItemsTail(items) + s)[0] == if items == [] then ']' else ','
    ensures (MembersTail(members) + s)[0] == if members == [] then '}' else ','
  {}

  /** What follows an opening bracket. */
  lemma ArrayOpens(xs: seq<Json>, s: string)
    requires Valid(Array(xs))
    ensures |Print(Array(xs)) + s| > 1
    ensures xs == [] ==> (Print(Array(xs)) + s)[1] == ']'
    ensures xs != [] ==> (Print(Array(xs)) + s)[1] != ']' &&
                         Print(Array(xs)) + s == "[" + (Print(xs[0]) + (ItemsTail(xs[1..]) + s))
  {
    if xs != [] {
      PrintHead(xs[0], ItemsTail(xs[1..]) + s);
      Peel("[", Print(xs[0]), ItemsTail(xs[1..]), s);
    }
  }

  lemma {:induction false} ArrayUnique(xs: seq<Json>, ys: seq<Json>, s: string, t: string)
    requires Valid(Array(xs)) && Valid(Array(ys))
    requires Print(Array(xs)) + s == Print(Array(ys)) + t
    ensures xs == ys && s == t
    decreases xs, 2
  {
    ArrayOpens(xs, s);
    ArrayOpens(ys, t);
    if xs == [] {
      SplitSame("[]", s, "[]", t);
    } else {
      var l, r := ItemsTail(xs[1..]) + s, ItemsTail(ys[1..]) + t;
      hide Print;
      SplitSame("[", Print(xs[0]) + l, "[", Print(ys[0]) + r);
      TailHead(xs[1..], [], s);
      TailHead(ys[1..], [], t);
      PrintUnique(xs[0], ys[0], l, r);
      ItemsUnique(xs[1..], ys[1..], s, t);
      assert xs == [xs[0]] + xs[1..] && ys == [ys[0]] + ys[1..];
    }
  }

  lemma {:induction false} ItemsUnique(xs: seq<Json>, ys: seq<Json>, s: string, t: string)
    requires (forall x | x in xs :: Valid(x)) && (forall y | y in ys :: Valid(y))
    requires ItemsTail(xs) + s == ItemsTail(ys) + t
    ensures xs == ys && s == t
    decreases xs, 0
  {
    TailHead(xs, [], s);
    TailHead(ys, [], t);
    if xs == [] {
      SplitSame("]", s, "]", t);
    } else {
      var l, r := ItemsTail(xs[1..]) + s, ItemsTail(ys[1..]) + t;
      Peel(",", Print(xs[0]), ItemsTail(xs[1..]), s);
      Peel(",", Print(ys[0]), ItemsTail(ys[1..]), t);
      SplitSame(",", Print(xs[0]) + l, ",", Print(ys[0]) + r);
      TailHead(xs[1..], [], s);
      TailHead(ys[1..], [], t);
      PrintUnique(xs[0], ys[0], l, r);
      ItemsUnique(xs[1..], ys[1..], s, t);
      assert xs == [xs[0]] + xs[1..] && ys == [ys[0]] + ys[1..];
    }
  }

  lemma {:induction false} EntryUnique(m: Member, n: Member, s: string, t: string)
    requires Valid(m.value) && Valid(n.value) && Stops(s) && Stops(t)
    requires Entry(m) + s == Entry(n) + t
    ensures m == n && s == t
    decreases m, 2
  {
    var l, r := Print(m.value) + s, Print(n.value) + t;
    Peel(Quote(m.key), ":", Print(m.value), s);
    Peel(Quote(n.key), ":", Print(n.value), t);
    QuoteUnique(m.key, n.key, ":" + l, ":" + r);
    SplitSame(":", l, ":", r);
    PrintUnique(m.value, n.value, s, t);
  }

  lemma {:induction false} ObjectUnique(xs: seq<Member>, ys: seq<Member>, s: string, t: string)
    requires (forall x | x in xs :: Valid(x.value)) && (forall y | y in ys :: Valid(y.value))
    requires Print(Object(xs)) + s == Print(Object(ys)) + t
    ensures xs == ys && s == t
    decreases xs, 2
  {
    if xs == [] && ys == [] {
      SplitSame("{}", s, "{}", t);
    } else {
      assert (Print(Object(xs)) + s)[1] == (Print(Object(ys)) + t)[1];
      var l, r := MembersTail(xs[1..]) + s, MembersTail(ys[1..]) + t;
      Peel("{", Entry(xs[0]), MembersTail(xs[1..]), s);
      Peel("{", Entry(ys[0]), MembersTail(ys[1..]), t);
      SplitSame("{", Entry(xs[0]) + l, "{", Entry(ys[0]) + r);
      TailHead([], xs[1..], s);
      TailHead([], ys[1..], t);
      EntryUnique(xs[0], ys[0], l, r);
      MembersUnique(xs[1..], ys[1..], s, t);
      assert xs == [xs[0]] + xs[1..] && ys == [ys[0]] + ys[1..];
    }
  }

  lemma {:induction false} MembersUnique(xs: seq<Member>, ys: seq<Member>, s: string, t: string)
    requires (forall x | x in xs :: Valid(x.value)) && (forall y | y in ys :: Valid(y.value))
    requires MembersTail(xs) + s == MembersTail(ys) + t
    ensures xs == ys && s == t
    decreases xs, 0
  {
    TailHead([], xs, s);
    TailHead([], ys, t);
    if xs == [] {
      SplitSame("}", s, "}", t);
    } else {
      var l, r := MembersTail(xs[1..]) + s, MembersTail(ys[1..]) + t;
      Peel(",", Entry(xs[0]), MembersTail(xs[1..]), s);
      Peel(",", Entry(ys[0]), MembersTail(ys[1..]), t);
      SplitSame(",", Entry(xs[0]) + l, ",", Entry(ys[0]) + r);
      TailHead([], xs[1..], s);
      TailHead([], ys[1..], t);
      EntryUnique(xs[0], ys[0], l, r);
      MembersUnique(xs[1..], ys[1..], s, t);
      assert xs == [xs[0]] + xs[1..] && ys == [ys[0]] + ys[1..];
    }
  }

  // --- Main results ---

  /** Two values have the same canonical text exactly when they are equal up to key order, zeros' signs included. */
  lemma TextDecidesEqual(a: Value, b: Value)
    ensures Text(a) == Text(b) <==> Equal(a, b, true)
  {
    CanonicalValid(a);
    CanonicalValid(b);
    CanonicalDecidesEqual(a, b);
    if Text(a) == Text(b) {
      assert Text(a) + "" == Text(b) + "";
      PrintUnique(Canonical(a), Canonical(b), "", "");
    }
  }

  /** The equality the matcher uses, read off the canonical text of the values with every float zero made positive. */
  lemma MatcherEqualByText(a: Value, b: Value)
    ensures Equal(a, b, false) <==> Text(WithZeros(a, "0.0")) == Text(WithZeros(b, "0.0"))
  {
    EqualModuloZeros(a, b, "0.0");
    ZerosValid(a, "0.0");
    ZerosValid(b, "0.0");
    TextDecidesEqual(WithZeros(a, "0.0"), WithZeros(b, "0.0"));
  }

  /** The matcher's equality is an equivalence, although it is written as a one-sided lookup. */
  lemma MatcherEqualIsEquivalence(a: Value, b: Value, c: Value)
    ensures Equal(a, a, false)
    ensures Equal(a, b, false) ==> Equal(b, a, false)
    ensures Equal(a, b, false) && Equal(b, c, false) ==> Equal(a, c, false)
  {
    EqualReflexive(a, false);
    MatcherEqualByText(a, b);
    MatcherEqualByText(b, a);
    MatcherEqualByText(b, c);
    MatcherEqualByText(a, c);
  }

  /** Values the matcher takes as equal, none of which holds a negative float zero, share their text. */
  lemma EqualValuesShareText(p: Value, a: Value, b: Value)
    requires Equal(p, a, false) && Equal(p, b, false)
    requires !Mentions(a, "-0.0") && !Mentions(b, "-0.0")
    ensures Text(a) == Text(b)
  {
    MatcherEqualByText(p, a);
    MatcherEqualByText(p, b);
    ZerosUnchanged(a, "0.0");
    ZerosUnchanged(b, "0.0");
  }

  /** "Equal values get equal text" is exactly true of the values that hold no float zero. */
  lemma TextFollowsEqualityIff(a: Value)
    ensures (forall b: Value :: Equal(a, b, false) ==> Text(a) == Text(b)) <==> !HasFloatZero(a)
  {
    if HasFloatZero(a) {
      var plus, minus := WithZeros(a, "0.0"), WithZeros(a, "-0.0");
      ZerosValid(a, "0.0");
      ZerosValid(a, "-0.0");
      ZerosSeparate(a, if Mentions(a, "0.0") then "0.0" else "-0.0");
      TextDecidesEqual(plus, minus);
      ZerosIdempotent(a, "0.0", "0.0");
      ZerosIdempotent(a, "-0.0", "0.0");
      MatcherEqualByText(a, plus);
      MatcherEqualByText(a, minus);
      assert !(Text(a) == Text(plus) && Text(a) == Text(minus));
    } else {
      forall b: Value | Equal(a, b, false) ensures Text(a) == Text(b) {
        ZerosUnchanged(a, "0.0");
        ZerosUnchanged(a, "-0.0");
        EqualModuloZeros(a, b, "0.0");
        EqualModuloZeros(a, b, "-0.0");
        ZerosValid(b, "0.0");
        ZerosValid(b, "-0.0");
        TextDecidesEqual(a, WithZeros(b, "0.0"));
        TextDecidesEqual(a, WithZeros(b, "-0.0"));
        TextDecidesEqual(WithZeros(b, "0.0"), WithZeros(b, "-0.0"));
        if HasFloatZero(b) {
          ZerosSeparate(b, if Mentions(b, "0.0") then "0.0" else "-0.0");
        }
        ZerosUnchanged(b, "0.0");
      }
    }
  }
}
