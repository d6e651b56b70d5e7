/** `tolerate` and `drop_paths` of `compare.rs`. Whether two numbers are near enough, with whatever rounding their distance
    is computed in, is a parameter. */
module Tolerance {
  import opened CanonicalText
  import opened Json
  import opened IgnoredPaths
  import opened Matching
  import opened Options

  /** Whether the distance computed for a recorded and a live number is at most the tolerance. */
  type Near = (string, string) -> bool

  /** `live` with every number near its recording replaced by it. */
  function Tolerate(recorded: Json, live: Json, near: Near): Json
    decreases live, 1
  {
    match (recorded, live)
    case (Object(r), Object(l)) => Object(TolerateMembers(r, l, near))
    case (Array(r), Array(l)) => Array(TolerateItems(r, l, near))
    case (Number(a), Number(b)) => if near(a, b) then recorded else live
    case _ => live
  }

  function TolerateItems(recorded: seq<Json>, live: seq<Json>, near: Near): (r: seq<Json>)
    ensures |r| == |live|
    ensures forall i :: 0 <= i < |r| ==>
              r[i] == if i < |recorded| then Tolerate(recorded[i], live[i], near) else live[i]
    decreases live, 0
  {
    seq(|live|, i requires 0 <= i < |live| =>
      if i < |recorded| then Tolerate(recorded[i], live[i], near) else live[i])
  }

  function TolerateMember(recorded: seq<Member>, m: Member, near: Near): (r: Member)
    ensures r.key == m.key
    decreases m, 2
  {
    var found := Get(recorded, m.key);
    if found.Some? then Member(m.key, Tolerate(found.value, m.value, near)) else m
  }

  function TolerateMembers(recorded: seq<Member>, live: seq<Member>, near: Near): (r: seq<Member>)
    ensures |r| == |live|
    ensures forall i :: 0 <= i < |r| ==> r[i] == TolerateMember(recorded, live[i], near)
    decreases live, 0
  {
    seq(|live|, i requires 0 <= i < |live| => TolerateMember(recorded, live[i], near))
  }

  /** Same shape, same keys, same leaves, and numbers that are the same or near. */
  predicate Within(recorded: Json, live: Json, near: Near, exact: bool)
    decreases live
  {
    match live
    case Null => recorded.Null?
    case Bool(b) => recorded == Bool(b)
    case Number(t) => recorded.Number? && (SameNumber(t, recorded.text, exact) || near(recorded.text, t))
    case String(s) => recorded == String(s)
    case Array(items) =>
      recorded.Array? && |recorded.items| == |items| &&
      forall i :: 0 <= i < |items| ==> Within(recorded.items[i], items[i], near, exact)
    case Object(members) =>
      recorded.Object? && |recorded.members| == |members| &&
      forall m | m in members ::
        var found := Get(recorded.members, m.key);
        found.Some? && Within(found.value, m.value, near, exact)
  }

  /** `tolerate` gives back the recording exactly when the live value is within tolerance of it. */
  lemma {:induction false} TolerateIff(recorded: Json, live: Json, near: Near, exact: bool)
    requires Valid(recorded) && Valid(live)
    ensures Equal(Tolerate(recorded, live, near), recorded, exact) <==> Within(recorded, live, near, exact)
    decreases live
  {
    match (recorded, live)
    case (Array(r), Array(l)) =>
      forall i | 0 <= i < |l| && i < |r|
        ensures Equal(TolerateItems(r, l, near)[i], r[i], exact) <==> Within(r[i], l[i], near, exact)
      {
        TolerateIff(r[i], l[i], near, exact);
      }
    case (Object(r), Object(l)) =>
      forall m | m in l && Get(r, m.key).Some?
        ensures Equal(TolerateMember(r, m, near).value, Get(r, m.key).value, exact) <==>
                Within(Get(r, m.key).value, m.value, near, exact)
      {
        TolerateIff(Get(r, m.key).value, m.value, near, exact);
      }
      TolerateMembersIff(r, l, near, exact);
    case _ =>
  }

  lemma TolerateMembersIff(r: seq<Member>, l: seq<Member>, near: Near, exact: bool)
    requires forall m | m in l && Get(r, m.key).Some? ::
               Equal(TolerateMember(r, m, near).value, Get(r, m.key).value, exact) <==>
               Within(Get(r, m.key).value, m.value, near, exact)
    ensures Equal(Object(TolerateMembers(r, l, near)), Object(r), exact) <==>
            Within(Object(r), Object(l), near, exact)
  {
    var t := TolerateMembers(r, l, near);
    if Equal(Object(t), Object(r), exact) {
      forall m | m in l ensures Get(r, m.key).Some? && Within(Get(r, m.key).value, m.value, near, exact) {
        var i :| 0 <= i < |l| && l[i] == m;
        assert t[i] in t;
      }
    }
    if Within(Object(r), Object(l), near, exact) {
      forall x | x in t ensures Get(r, x.key).Some? && Equal(x.value, Get(r, x.key).value, exact) {
        var i :| 0 <= i < |t| && t[i] == x;
        assert l[i] in l;
      }
    }
  }

  lemma {:induction false} TolerateValid(recorded: Json, live: Json, near: Near)
    requires Valid(recorded) && Valid(live)
    ensures Valid(Tolerate(recorded, live, near))
    decreases live
  {
    match (recorded, live)
    case (Array(r), Array(l)) =>
      var t := TolerateItems(r, l, near);
      forall x | x in t ensures Valid(x) {
        var i :| 0 <= i < |t| && t[i] == x;
        if i < |r| {
          TolerateValid(r[i], l[i], near);
        }
      }
    case (Object(r), Object(l)) =>
      var t := TolerateMembers(r, l, near);
      assert Keys(t) == Keys(l);
      forall x | x in t ensures Valid(x.value) {
        var i :| 0 <= i < |t| && t[i] == x;
        assert l[i] in l;
        if Get(r, l[i].key).Some? {
          TolerateValid(Get(r, l[i].key).value, l[i].value, near);
        }
      }
    case _ =>
  }

  /** With sorted keys the two bodies print alike, so that no diff is shown, exactly when they are within tolerance. */
  lemma NoDiffIff(recorded: Value, live: Value, near: Near)
    ensures Text(Tolerate(recorded, live, near)) == Text(recorded) <==>
            Within(recorded, live, near, true)
  {
    TolerateIff(recorded, live, near, true);
    TolerateValid(recorded, live, near);
    TextDecidesEqual(Tolerate(recorded, live, near), recorded);
  }

  // --- Place by place ---

  lemma {:induction false} GetTolerated(recorded: seq<Member>, live: seq<Member>, near: Near, key: string)
    ensures Get(TolerateMembers(recorded, live, near), key) ==
            match Get(live, key)
            case None => None
            case Some(v) => Some(if Get(recorded, key).Some? then Tolerate(Get(recorded, key).value, v, near) else v)
  {
    if live != [] {
      assert TolerateMembers(recorded, live, near)[1..] == TolerateMembers(recorded, live[1..], near);
      GetTolerated(recorded, live[1..], near, key);
    }
  }

  lemma BelowTolerated(recorded: Json, live: Json, near: Near, step: Step)
    ensures Below(Tolerate(recorded, live, near), step) ==
            match Below(live, step)
            case None => None
            case Some(v) => Some(if Below(recorded, step).Some? then Tolerate(Below(recorded, step).value, v, near) else v)
  {
    match (recorded, live, step)
    case (Object(r), Object(l), Key(key)) => GetTolerated(r, l, near, key);
    case _ =>
  }

  lemma {:induction false} LookTolerated(recorded: Json, live: Json, near: Near, steps: seq<Step>)
    ensures Look(Tolerate(recorded, live, near), steps) ==
            match Look(live, steps)
            case None => None
            case Some(v) => Some(if Look(recorded, steps).Some? then Tolerate(Look(recorded, steps).value, v, near) else v)
    decreases |steps|
  {
    if steps != [] {
      BelowTolerated(recorded, live, near, steps[0]);
      if Below(live, steps[0]).Some? && Below(recorded, steps[0]).Some? {
        LookTolerated(Below(recorded, steps[0]).value, Below(live, steps[0]).value, near, steps[1..]);
      }
    }
  }

  /** Place by place: a number that is near the recorded number at its place is shown as recorded, and everything else as
      it is, whether or not the rest agrees. */
  lemma ToleratedAt(recorded: Json, live: Json, near: Near, steps: seq<Step>)
    ensures var was, there, now := Look(live, steps), Look(recorded, steps), Look(Tolerate(recorded, live, near), steps);
            && (now.Some? <==> was.Some?)
            && (was.Some? ==>
                  if there.Some? && there.value.Number? && was.value.Number? && near(there.value.text, was.value.text)
                  then now == there else SameTop(now.value, was.value))
  {
    LookTolerated(recorded, live, near, steps);
  }

  // --- The program's own test ---

  /** How numbers are read and subtracted: `integer` for texts of machine integers, `double` for the floating-point value
      of any text, `round` for what a difference becomes as a floating-point number. */
  datatype Arithmetic = Arithmetic(integer: string -> Option<int>, double: string -> real, round: real -> real)
  {
    /** Both branches: integers are subtracted exactly before rounding. */
    function Difference(a: string, b: string): real {
      if integer(a).Some? && integer(b).Some?
      then round(Size((integer(a).value - integer(b).value) as real))
      else round(Size(double(a) - double(b)))
    }

    /** A difference of zero stays zero, and the float zeros are no integers and have one value. */
    ghost predicate Lawful() {
      && round(0.0) == 0.0 && double("0.0") == double("-0.0")
      && integer("0.0").None? && integer("-0.0").None?
    }
  }

  function Size(x: real): real {
    if x < 0.0 then -x else x
  }

  function NearBy(arithmetic: Arithmetic, tolerance: real): Near {
    (a: string, b: string) => arithmetic.Difference(a, b) <= tolerance
  }

  /** Same shape, same keys, same leaves, and numbers that differ by at most the tolerance. */
  predicate WithinBy(recorded: Json, live: Json, arithmetic: Arithmetic, tolerance: real)
    decreases live
  {
    match live
    case Null => recorded.Null?
    case Bool(b) => recorded == Bool(b)
    case Number(t) => recorded.Number? && arithmetic.Difference(recorded.text, t) <= tolerance
    case String(s) => recorded == String(s)
    case Array(items) =>
      recorded.Array? && |recorded.items| == |items| &&
      forall i :: 0 <= i < |items| ==> WithinBy(recorded.items[i], items[i], arithmetic, tolerance)
    case Object(members) =>
      recorded.Object? && |recorded.members| == |members| &&
      forall m | m in members ::
        var found := Get(recorded.members, m.key);
        found.Some? && WithinBy(found.value, m.value, arithmetic, tolerance)
  }

  /** For a tolerance that is not negative, numbers that are the same are near. */
  lemma {:induction false} SameIsNear(
      recorded: Json, live: Json, arithmetic: Arithmetic, tolerance: real, exact: bool)
    requires arithmetic.Lawful() && tolerance >= 0.0
    ensures Within(recorded, live, NearBy(arithmetic, tolerance), exact) <==>
            WithinBy(recorded, live, arithmetic, tolerance)
    decreases live
  {
    match live
    case Array(items) =>
      forall i | recorded.Array? && 0 <= i < |items| && i < |recorded.items|
        ensures Within(recorded.items[i], items[i], NearBy(arithmetic, tolerance), exact) <==>
                WithinBy(recorded.items[i], items[i], arithmetic, tolerance)
      {
        SameIsNear(recorded.items[i], items[i], arithmetic, tolerance, exact);
      }
    case Object(members) =>
      forall m | recorded.Object? && m in members && Get(recorded.members, m.key).Some?
        ensures Within(Get(recorded.members, m.key).value, m.value, NearBy(arithmetic, tolerance), exact) <==>
                WithinBy(Get(recorded.members, m.key).value, m.value, arithmetic, tolerance)
      {
        SameIsNear(Get(recorded.members, m.key).value, m.value, arithmetic, tolerance, exact);
      }
    case _ =>
  }

  /** `tolerate` gives back the recording exactly when every number differs from its recording by at most the tolerance
      and all else is the same. */
  lemma ToleranceIff(recorded: Json, live: Json, arithmetic: Arithmetic, tolerance: real, exact: bool)
    requires Valid(recorded) && Valid(live) && arithmetic.Lawful() && tolerance >= 0.0
    ensures Equal(Tolerate(recorded, live, NearBy(arithmetic, tolerance)), recorded, exact) <==>
            WithinBy(recorded, live, arithmetic, tolerance)
  {
    TolerateIff(recorded, live, NearBy(arithmetic, tolerance), exact);
    SameIsNear(recorded, live, arithmetic, tolerance, exact);
  }

  /** Exact arithmetic: `value` gives the number a text denotes, and nothing is rounded. */
  function Exact(value: string -> real): Arithmetic {
    Arithmetic(_ => None, value, x => x)
  }

  /** Then two numbers are near when neither is off by more than the tolerance. Which texts are subtracted as integers makes
      no difference, as long as a text has one value. */
  lemma ExactDistance(value: string -> real, integer: string -> Option<int>, a: string, b: string, tolerance: real)
    requires forall t | integer(t).Some? :: value(t) == integer(t).value as real
    ensures NearBy(Exact(value), tolerance)(a, b) <==> value(a) - tolerance <= value(b) <= value(a) + tolerance
    ensures Exact(value).Difference(a, b) == Arithmetic(integer, value, x => x).Difference(a, b)
  {}

  // --- drop_paths ---

  function DropPaths(v: Json, paths: seq<string>, current: string): Json
    decreases v, 1
  {
    match v
    case Object(members) => Object(DropMembers(members, paths, current))
    case Array(items) => Array(DropItems(items, paths, current))
    case _ => v
  }

  function DropItems(items: seq<Json>, paths: seq<string>, current: string): (r: seq<Json>)
    ensures |r| == |items|
    ensures forall i :: 0 <= i < |r| ==>
              r[i] == if ItemPath(current, i) in paths then Null else DropPaths(items[i], paths, ItemPath(current, i))
    decreases items, 0
  {
    seq(|items|, i requires 0 <= i < |items| =>
      if ItemPath(current, i) in paths then Null else DropPaths(items[i], paths, ItemPath(current, i)))
  }

  function DropMembers(members: seq<Member>, paths: seq<string>, current: string): seq<Member>
    decreases members, 0
  {
    if members == [] then []
    else
      var path := MemberPath(current, members[0].key);
      var rest := DropMembers(members[1..], paths, current);
      if path in paths then rest else [Member(members[0].key, DropPaths(members[0].value, paths, path))] + rest
  }

  lemma {:induction false} DropIsFilter(v: Json, paths: seq<string>, current: string)
    requires current !in paths
    ensures DropPaths(v, paths, current) == FilterPaths(v, paths, current)
    decreases v, 1
  {
    match v
    case Object(members) => DropMembersIsFilter(members, paths, current);
    case Array(items) =>
      forall i | 0 <= i < |items| ensures DropItems(items, paths, current)[i] == FilterItems(items, paths, current)[i] {
        if ItemPath(current, i) !in paths {
          DropIsFilter(items[i], paths, ItemPath(current, i));
        }
      }
      assert DropItems(items, paths, current) == FilterItems(items, paths, current);
    case _ =>
  }

  lemma {:induction false} DropMembersIsFilter(members: seq<Member>, paths: seq<string>, current: string)
    ensures DropMembers(members, paths, current) == FilterMembers(members, paths, current)
    decreases members, 0
  {
    if members != [] {
      DropMembersIsFilter(members[1..], paths, current);
      if MemberPath(current, members[0].key) !in paths {
        DropIsFilter(members[0].value, paths, MemberPath(current, members[0].key));
      }
    }
  }

  /** Dropping paths keeps a JSON value well formed. */
  lemma DropValid(v: Json, paths: seq<string>)
    requires Valid(v)
    ensures Valid(DropPaths(v, paths, ""))
  {
    match v
    case Object(members) =>
      DropMembersIsFilter(members, paths, "");
      FilterMembersKeys(members, paths, "");
      FilterMembersValid(members, paths, "");
    case Array(items) =>
      forall x | x in DropItems(items, paths, "") ensures Valid(x) {
        var i :| 0 <= i < |items| && DropItems(items, paths, "")[i] == x;
        if ItemPath("", i) !in paths {
          DropIsFilter(items[i], paths, ItemPath("", i));
          FilterValid(items[i], paths, ItemPath("", i));
        }
      }
    case _ =>
  }

  predicate DropsAlike(v: Json, paths: seq<string>) {
    DropPaths(v, paths, "") == FilterPaths(v, paths, "")
  }

  /** The comparison drops what the matcher ignores, on every value, exactly when the empty path is not listed. */
  lemma DropAgreesIff(paths: seq<string>)
    ensures (forall v :: DropsAlike(v, paths)) <==> "" !in paths
  {
    if "" in paths {
      var kept := Bool(true);
      assert DropPaths(kept, paths, "") == kept;
      assert FilterPaths(kept, paths, "") == Null;
      assert !DropsAlike(kept, paths);
    } else {
      forall v ensures DropsAlike(v, paths) {
        DropIsFilter(v, paths, "");
      }
    }
  }
}
