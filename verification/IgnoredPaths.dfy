/** What `filter_json_paths` leaves of a value, said path by path. */
module IgnoredPaths {
  import opened Json
  import opened Matching
  import opened Options
  import opened Sorting

  /** One step down a value: into a member or into an item. */
  datatype Step = Key(key: string) | At(index: nat)

  function Below(v: Json, step: Step): Option<Json> {
    match (v, step)
    case (Object(members), Key(key)) => Get(members, key)
    case (Array(items), At(index)) => if index < |items| then Some(items[index]) else None
    case _ => None
  }

  /** What stands where the steps lead, if anything does. */
  function Look(v: Json, steps: seq<Step>): Option<Json>
    decreases |steps|
  {
    if steps == [] then Some(v)
    else
      match Below(v, steps[0])
      case None => None
      case Some(inner) => Look(inner, steps[1..])
  }

  function StepPath(current: string, step: Step): string {
    match step case Key(key) => MemberPath(current, key) case At(index) => ItemPath(current, index)
  }

  /** The path text of the place the steps lead to, as ignore lists write it. */
  function Path(current: string, steps: seq<Step>): string
    decreases |steps|
  {
    if steps == [] then current else Path(StepPath(current, steps[0]), steps[1..])
  }

  /** How ignore lists write a place: members after dots, items in brackets, the outermost member bare. */
  lemma PathSyntax()
    ensures Path("", [Key("data"), Key("items"), At(0), Key("id")]) == "data.items[0].id"
    ensures Path("", [At(12), Key("id")]) == "[12].id"
  {
    var a := [Key("data"), Key("items"), At(0), Key("id")];
    assert a[1..] == [Key("items"), At(0), Key("id")] && a[1..][1..] == [At(0), Key("id")];
    assert a[1..][1..][1..] == [Key("id")] && [Key("id")][1..] == [];
    assert Decimal.Decimal(0) == "0" && Decimal.Decimal(12) == "12" by {
      assert Decimal.Decimal(1) == "1";
    }
    var b := [At(12), Key("id")];
    assert b[1..] == [Key("id")];
  }

  /** No place the steps pass through on their way is listed. */
  ghost predicate Unlisted(paths: seq<string>, current: string, steps: seq<Step>) {
    forall k :: 0 <= k < |steps| ==> Path(current, steps[..k]) !in paths
  }

  /** The same kind of value: the same scalar, an array of the same length, or an object. */
  predicate SameTop(a: Json, b: Json) {
    match a
    case Array(items) => b.Array? && |items| == |b.items|
    case Object(_) => b.Object?
    case _ => a == b
  }

  lemma {:induction false} GetFiltered(members: seq<Member>, paths: seq<string>, current: string, key: string)
    ensures var path := MemberPath(current, key);
            Get(FilterMembers(members, paths, current), key) ==
            match Get(members, key)
            case None => None
            case Some(inner) => if path in paths then None else Some(FilterPaths(inner, paths, path))
  {
    if members != [] {
      GetFiltered(members[1..], paths, current, key);
      var path := MemberPath(current, members[0].key);
      if path !in paths {
        var kept := Member(members[0].key, FilterPaths(members[0].value, paths, path));
        var rest := FilterMembers(members[1..], paths, current);
        assert ([kept] + rest)[1..] == rest;
      } else if members[0].key == key {
        GetNone(members[1..], paths, current, key);
      }
    }
  }

  /** No member survives under a listed path. */
  lemma {:induction false} GetNone(members: seq<Member>, paths: seq<string>, current: string, key: string)
    requires MemberPath(current, key) in paths
    ensures Get(FilterMembers(members, paths, current), key) == None
  {
    if members != [] {
      GetNone(members[1..], paths, current, key);
      var rest := FilterMembers(members[1..], paths, current);
      var path := MemberPath(current, members[0].key);
      if path !in paths {
        assert ([Member(members[0].key, FilterPaths(members[0].value, paths, path))] + rest)[1..] == rest;
      }
    }
  }

  lemma BelowFiltered(v: Json, paths: seq<string>, current: string, step: Step)
    requires current !in paths
    ensures var path := StepPath(current, step);
            Below(FilterPaths(v, paths, current), step) ==
            match Below(v, step)
            case None => None
            case Some(inner) => if step.Key? && path in paths then None else Some(FilterPaths(inner, paths, path))
  {
    match (v, step)
    case (Object(members), Key(key)) => GetFiltered(members, paths, current, key);
    case _ =>
  }

  lemma UnlistedNext(paths: seq<string>, current: string, steps: seq<Step>)
    requires steps != []
    ensures Unlisted(paths, current, steps) <==>
            current !in paths && Unlisted(paths, StepPath(current, steps[0]), steps[1..])
  {
    var next, rest := StepPath(current, steps[0]), steps[1..];
    forall k | 0 <= k < |rest| ensures Path(current, steps[..k + 1]) == Path(next, rest[..k]) {
      assert steps[..k + 1][1..] == rest[..k];
    }
    assert Path(current, steps[..0]) == current;
    if Unlisted(paths, current, steps) {
      forall k | 0 <= k < |rest| ensures Path(next, rest[..k]) !in paths {
        assert Path(current, steps[..k + 1]) !in paths;
      }
    }
    if current !in paths && Unlisted(paths, next, rest) {
      forall k | 0 <= k < |steps| ensures Path(current, steps[..k]) !in paths {
        assert k > 0 ==> Path(current, steps[..k]) == Path(next, rest[..k - 1]);
      }
    }
  }

  lemma UnlistedHere(paths: seq<string>, current: string)
    ensures Unlisted(paths, current, [])
  {}

  predicate Stays(paths: seq<string>, current: string, steps: seq<Step>) {
    Path(current, steps) !in paths || steps == [] || steps[|steps| - 1].At?
  }

  lemma NothingBelowNull(steps: seq<Step>)
    ensures Look(Null, steps) == if steps == [] then Some(Null) else None
  {}

  lemma {:induction false} LookFiltered(v: Json, paths: seq<string>, current: string, steps: seq<Step>)
    ensures Look(FilterPaths(v, paths, current), steps) ==
            match Look(v, steps)
            case None => None
            case Some(inner) =>
              if Unlisted(paths, current, steps) && Stays(paths, current, steps)
              then Some(FilterPaths(inner, paths, Path(current, steps))) else None
    decreases |steps|
  {
    hide Below;
    hide Unlisted;
    hide StepPath;
    if steps == [] {
      UnlistedHere(paths, current);
    } else {
      UnlistedNext(paths, current, steps);
      if current in paths {
        NothingBelowNull(steps);
      } else {
        BelowFiltered(v, paths, current, steps[0]);
        var next := StepPath(current, steps[0]);
        if Below(v, steps[0]).Some? {
          LookFiltered(Below(v, steps[0]).value, paths, next, steps[1..]);
          if steps[1..] != [] {
            UnlistedNext(paths, next, steps[1..]);
          }
        }
      }
    }
  }

  /** Path by path: something stands in the filtered value exactly where something stood, no place on the way was listed,
      and the place itself is not a listed member. A listed item, or a listed whole, is `null`; everything else is what it
      was, down to the next listed place. */
  lemma FilteredAt(v: Json, paths: seq<string>, current: string, steps: seq<Step>)
    ensures var was, now := Look(v, steps), Look(FilterPaths(v, paths, current), steps);
            var listed := Path(current, steps) in paths;
            && (now.Some? <==> was.Some? && Unlisted(paths, current, steps) &&
                               !(listed && steps != [] && steps[|steps| - 1].Key?))
            && (now.Some? && listed ==> now.value == Null)
            && (now.Some? && !listed ==> SameTop(now.value, was.value))
  {
    LookFiltered(v, paths, current, steps);
  }

  // --- Looking everywhere decides the value ---

  predicate LooksAlike(a: Json, b: Json, steps: seq<Step>) {
    match (Look(a, steps), Look(b, steps))
    case (None, None) => true
    case (Some(x), Some(y)) => SameTop(x, y)
    case _ => false
  }

  ghost predicate SameLooks(a: Json, b: Json) {
    forall steps :: LooksAlike(a, b, steps)
  }

  lemma LookOne(v: Json, step: Step)
    ensures Look(v, [step]) == Below(v, step)
  {
    var steps := [step];
    assert steps[1..] == [];
    if Below(v, step).Some? {
      assert Look(Below(v, step).value, []) == Below(v, step);
    }
  }

  lemma SameLooksBelow(a: Json, b: Json, step: Step)
    requires SameLooks(a, b)
    ensures Below(a, step).Some? <==> Below(b, step).Some?
    ensures Below(a, step).Some? ==> SameLooks(Below(a, step).value, Below(b, step).value)
  {
    LookOne(a, step);
    LookOne(b, step);
    assert LooksAlike(a, b, [step]);
    if Below(a, step).Some? {
      forall steps ensures LooksAlike(Below(a, step).value, Below(b, step).value, steps) {
        var further := [step] + steps;
        assert further[1..] == steps;
        assert LooksAlike(a, b, further);
      }
    }
  }

  predicate Has(members: seq<Member>, key: string) {
    Get(members, key).Some?
  }

  lemma SameKeys(a: seq<Member>, b: seq<Member>)
    requires Distinct(Keys(a)) && Distinct(Keys(b))
    requires forall key :: Has(a, key) <==> Has(b, key)
    ensures |a| == |b|
  {
    SameElementsByKey(a, b, Keys(a), Keys(b));
    SameLength(Keys(a), Keys(b));
  }

  lemma SameElementsByKey(a: seq<Member>, b: seq<Member>, x: seq<string>, y: seq<string>)
    requires x == Keys(a) && y == Keys(b)
    requires forall key :: Has(a, key) <==> Has(b, key)
    ensures forall key :: key in x <==> key in y
  {
    forall key ensures key in x <==> key in y {
      HasKey(a, key);
      HasKey(b, key);
      assert Has(a, key) <==> Has(b, key);
    }
  }

  lemma SameLength<T>(a: seq<T>, b: seq<T>)
    requires Distinct(a) && Distinct(b) && forall x :: x in a <==> x in b
    ensures |a| == |b|
  {
    hide Distinct;
    DistinctSize(a);
    DistinctSize(b);
    assert (set x | x in a) == set x | x in b;
  }

  lemma {:induction false} HasKey(members: seq<Member>, key: string)
    ensures Get(members, key).Some? <==> key in Keys(members)
  {
    if members != [] {
      HasKey(members[1..], key);
      assert Keys(members) == [members[0].key] + Keys(members[1..]);
    }
  }

  /** What stands at each path determines a value, up to the order of keys. */
  lemma {:induction false} LooksDecide(a: Json, b: Json)
    requires Valid(a) && Valid(b) && SameLooks(a, b)
    ensures Equal(a, b, true)
    decreases a
  {
    assert LooksAlike(a, b, []);
    match a
    case Array(items) =>
      forall i | 0 <= i < |items| ensures Equal(items[i], b.items[i], true) {
        SameLooksBelow(a, b, At(i));
        LooksDecide(items[i], b.items[i]);
      }
    case Object(members) =>
      forall key ensures Has(members, key) <==> Has(b.members, key) {
        SameLooksBelow(a, b, Key(key));
      }
      SameKeys(members, b.members);
      forall m | m in members
        ensures Get(b.members, m.key).Some? && Equal(m.value, Get(b.members, m.key).value, true)
      {
        GetMember(members, m);
        SameLooksBelow(a, b, Key(m.key));
        LooksDecide(m.value, Get(b.members, m.key).value);
      }
    case _ =>
  }
}
