/** `edit_script` of `compare.rs`: trim the common ends, fill the table, walk it. */
module EditScript {
  import Sorting
  import opened Subsequences

  const MAX_LCS_CELLS := 4194304

  datatype Tag = Keep | Delete | Insert

  datatype Op = Op(tag: Tag, line: string, oldAt: nat, newAt: nat)

  /** The tags lead from `a` to `b`, keeping only lines the two share at that point. */
  predicate Walks(tags: seq<Tag>, a: seq<string>, b: seq<string>) {
    if tags == [] then a == [] && b == []
    else
      match tags[0]
      case Keep => a != [] && b != [] && a[0] == b[0] && Walks(tags[1..], a[1..], b[1..])
      case Delete => a != [] && Walks(tags[1..], a[1..], b)
      case Insert => b != [] && Walks(tags[1..], a, b[1..])
  }

  function Count(tags: seq<Tag>, tag: Tag): nat {
    if tags == [] then 0 else (if tags[0] == tag then 1 else 0) + Count(tags[1..], tag)
  }

  function Repeat(tag: Tag, n: nat): (r: seq<Tag>)
    ensures |r| == n && forall i :: 0 <= i < n ==> r[i] == tag
  {
    seq(n, _ => tag)
  }

  lemma {:induction false} WalksAppend(
      t: seq<Tag>, a: seq<string>, b: seq<string>, t': seq<Tag>, a': seq<string>, b': seq<string>)
    requires Walks(t, a, b) && Walks(t', a', b')
    ensures Walks(t + t', a + a', b + b')
  {
    if t == [] {
      assert t + t' == t' && a + a' == a' && b + b' == b';
    } else {
      assert (t + t')[1..] == t[1..] + t';
      if t[0] != Insert { assert (a + a')[1..] == a[1..] + a'; }
      if t[0] != Delete { assert (b + b')[1..] == b[1..] + b'; }
      WalksAppend(t[1..], if t[0] == Insert then a else a[1..], if t[0] == Delete then b else b[1..], t', a', b');
    }
  }

  lemma {:induction false} CountAppend(t: seq<Tag>, t': seq<Tag>, tag: Tag)
    ensures Count(t + t', tag) == Count(t, tag) + Count(t', tag)
  {
    if t == [] {
      assert t + t' == t';
    } else {
      assert (t + t')[1..] == t[1..] + t';
      CountAppend(t[1..], t', tag);
    }
  }

  lemma {:induction false} RepeatWalks(n: nat, lines: seq<string>)
    requires |lines| == n
    ensures Walks(Repeat(Keep, n), lines, lines) && Count(Repeat(Keep, n), Keep) == n
    ensures Walks(Repeat(Delete, n), lines, []) && Count(Repeat(Delete, n), Keep) == 0
    ensures Walks(Repeat(Insert, n), [], lines) && Count(Repeat(Insert, n), Keep) == 0
  {
    if n > 0 {
      assert forall tag :: Repeat(tag, n)[1..] == Repeat(tag, n - 1);
      RepeatWalks(n - 1, lines[1..]);
    }
  }

  /** Old lines number keeps and deletions, new lines keeps and insertions. */
  lemma {:induction false} WalkLengths(tags: seq<Tag>, a: seq<string>, b: seq<string>)
    requires Walks(tags, a, b)
    ensures |a| == Count(tags, Keep) + Count(tags, Delete) && |b| == Count(tags, Keep) + Count(tags, Insert)
  {
    if tags != [] {
      WalkLengths(tags[1..], if tags[0] == Insert then a else a[1..], if tags[0] == Delete then b else b[1..]);
    }
  }

  /** What any script keeps is a common subsequence, so no script keeps more than `Lcs`. */
  lemma {:induction false} WalkKeepsCommon(tags: seq<Tag>, a: seq<string>, b: seq<string>) returns (kept: seq<string>)
    requires Walks(tags, a, b)
    ensures Common(kept, a, b) && |kept| == Count(tags, Keep)
  {
    if tags == [] {
      return [];
    }
    kept := WalkKeepsCommon(tags[1..], if tags[0] == Insert then a else a[1..], if tags[0] == Delete then b else b[1..]);
    match tags[0] {
      case Keep =>
        ghost var rest := kept;
        kept := [a[0]] + rest;
        assert kept[1..] == rest;
      case Delete => Weaken(kept, a);
      case Insert => Weaken(kept, b);
    }
  }

  function Changes(tags: seq<Tag>): nat {
    Count(tags, Delete) + Count(tags, Insert)
  }

  /** A script that keeps `Lcs` lines changes as few lines as any script can. */
  lemma KeepingMostIsMinimal(tags: seq<Tag>, other: seq<Tag>, a: seq<string>, b: seq<string>)
    requires Walks(tags, a, b) && Walks(other, a, b) && Count(tags, Keep) == Lcs(a, b)
    ensures Changes(tags) <= Changes(other)
  {
    var kept := WalkKeepsCommon(other, a, b);
    LcsBounds(a, b, kept);
    WalkLengths(tags, a, b);
    WalkLengths(other, a, b);
  }

  /** The length of the longest common prefix. */
  function PrefixLength(a: seq<string>, b: seq<string>): (n: nat)
    ensures n <= |a| && n <= |b|
  {
    if a != [] && b != [] && a[0] == b[0] then 1 + PrefixLength(a[1..], b[1..]) else 0
  }

  /** The length of the longest common suffix. */
  function SuffixLength(a: seq<string>, b: seq<string>): (n: nat)
    ensures n <= |a| && n <= |b|
  {
    if a != [] && b != [] && a[|a| - 1] == b[|b| - 1] then 1 + SuffixLength(a[..|a| - 1], b[..|b| - 1]) else 0
  }

  /** A prefix is common exactly when it is no longer than `PrefixLength`. */
  lemma {:induction false} LongestPrefix(a: seq<string>, b: seq<string>, n: nat)
    requires n <= |a| && n <= |b|
    ensures a[..n] == b[..n] <==> n <= PrefixLength(a, b)
  {
    if n > 0 {
      assert a[..n] == [a[0]] + a[1..][..n - 1] && b[..n] == [b[0]] + b[1..][..n - 1];
      LongestPrefix(a[1..], b[1..], n - 1);
    }
  }

  /** A suffix is common exactly when it is no longer than `SuffixLength`. */
  lemma {:induction false} LongestSuffix(a: seq<string>, b: seq<string>, n: nat)
    requires n <= |a| && n <= |b|
    ensures a[|a| - n..] == b[|b| - n..] <==> n <= SuffixLength(a, b)
  {
    if n > 0 {
      var x, y := a[..|a| - 1], b[..|b| - 1];
      LongestSuffix(x, y, n - 1);
      LastOfSuffix(a, n);
      LastOfSuffix(b, n);
    }
  }

  lemma LastOfSuffix(a: seq<string>, n: nat)
    requires 0 < n <= |a|
    ensures var x := a[..|a| - 1];
            a[|a| - n..] == x[|x| - (n - 1)..] + [a[|a| - 1]]
  {}

  method CommonPrefix(a: seq<string>, b: seq<string>) returns (n: nat)
    ensures n == PrefixLength(a, b)
  {
    n := 0;
    while n < |a| && n < |b| && a[n] == b[n]
      invariant n <= |a| && n <= |b|
      invariant PrefixLength(a, b) == n + PrefixLength(a[n..], b[n..])
    {
      assert a[n..][1..] == a[n + 1..] && b[n..][1..] == b[n + 1..];
      n := n + 1;
    }
  }

  method CommonSuffix(a: seq<string>, b: seq<string>) returns (n: nat)
    ensures n == SuffixLength(a, b)
  {
    n := 0;
    assert a[..|a|] == a && b[..|b|] == b;
    while n < |a| && n < |b| && a[|a| - 1 - n] == b[|b| - 1 - n]
      invariant n <= |a| && n <= |b|
      invariant SuffixLength(a, b) == n + SuffixLength(a[..|a| - n], b[..|b| - n])
    {
      SuffixStep(a, b, n);
      n := n + 1;
    }
  }

  lemma SuffixStep(a: seq<string>, b: seq<string>, n: nat)
    requires n < |a| && n < |b| && a[|a| - 1 - n] == b[|b| - 1 - n]
    ensures SuffixLength(a[..|a| - n], b[..|b| - n]) == 1 + SuffixLength(a[..|a| - (n + 1)], b[..|b| - (n + 1)])
  {
    var x, y := a[..|a| - n], b[..|b| - n];
    assert x[..|x| - 1] == a[..|a| - (n + 1)] && y[..|y| - 1] == b[..|b| - (n + 1)];
  }

  /** How many lines the longest common prefix and the longest common suffix of what follows it hold. */
  function SharedEnds(a: seq<string>, b: seq<string>): (n: nat)
    ensures n <= |a| && n <= |b|
  {
    var prefix := PrefixLength(a, b);
    prefix + SuffixLength(a[prefix..], b[prefix..])
  }

  /** The size of the table for what is left of the two texts. */
  function TrimmedCells(a: seq<string>, b: seq<string>): int {
    (|a| - SharedEnds(a, b)) * (|b| - SharedEnds(a, b))
  }

  lemma CellStep(a: seq<string>, b: seq<string>, i: nat, j: nat)
    requires i < |a| && j < |b|
    ensures Lcs(a[i..], b[j..]) ==
            if a[i] == b[j] then Lcs(a[i + 1..], b[j + 1..]) + 1 else Max(Lcs(a[i + 1..], b[j..]), Lcs(a[i..], b[j + 1..]))
  {
    assert a[i..][1..] == a[i + 1..] && b[j..][1..] == b[j + 1..];
  }

  lemma EdgeCells(a: seq<string>, b: seq<string>)
    ensures forall i | 0 <= i <= |a| :: Lcs(a[i..], b[|b|..]) == 0
    ensures forall j | 0 <= j <= |b| :: Lcs(a[|a|..], b[j..]) == 0
  {}

  /** The table, filled backwards: each cell is the `Lcs` of the two remainders. */
  method FillTable(a: seq<string>, b: seq<string>) returns (lcs: array2<nat>)
    ensures fresh(lcs) && lcs.Length0 == |a| + 1 && lcs.Length1 == |b| + 1
    ensures forall i, j :: 0 <= i <= |a| && 0 <= j <= |b| ==> lcs[i, j] == Lcs(a[i..], b[j..])
  {
    hide Lcs;
    EdgeCells(a, b);
    var n, m := |a|, |b|;
    lcs := new nat[n + 1, m + 1]((_, _) => 0);
    var i := n;
    while i > 0
      invariant 0 <= i <= n
      invariant forall k, j :: i <= k <= n && 0 <= j <= m ==> lcs[k, j] == Lcs(a[k..], b[j..])
      invariant forall k :: 0 <= k < i ==> lcs[k, m] == 0
    {
      i := i - 1;
      var j := m;
      while j > 0
        invariant 0 <= j <= m
        invariant forall k, l :: i < k <= n && 0 <= l <= m ==> lcs[k, l] == Lcs(a[k..], b[l..])
        invariant forall l :: j <= l <= m ==> lcs[i, l] == Lcs(a[i..], b[l..])
        invariant forall k :: 0 <= k < i ==> lcs[k, m] == 0
      {
        j := j - 1;
        CellStep(a, b, i, j);
        lcs[i, j] := if a[i] == b[j] then lcs[i + 1, j + 1] + 1
                     else Max(lcs[i + 1, j], lcs[i, j + 1]);
      }
    }
  }

  lemma StepWalks(tags: seq<Tag>, tag: Tag, a: seq<string>, b: seq<string>, i: nat, j: nat)
    requires i <= |a| && j <= |b| && Walks(tags, a[..i], b[..j])
    requires tag != Insert ==> i < |a|
    requires tag != Delete ==> j < |b|
    requires tag == Keep ==> a[i] == b[j]
    ensures Walks(tags + [tag], a[..if tag == Insert then i else i + 1], b[..if tag == Delete then j else j + 1])
  {
    var x := if tag == Insert then [] else [a[i]];
    var y := if tag == Delete then [] else [b[j]];
    assert [tag][1..] == [] && Walks([tag], x, y);
    WalksAppend(tags, a[..i], b[..j], [tag], x, y);
    assert a[..i] + x == a[..if tag == Insert then i else i + 1];
    assert b[..j] + y == b[..if tag == Delete then j else j + 1];
  }

  /** The walk: every step keeps what is kept so far plus what the table promises equal to the best. */
  method WalkTable(a: seq<string>, b: seq<string>, lcs: array2<nat>) returns (tags: seq<Tag>)
    requires lcs.Length0 == |a| + 1 && lcs.Length1 == |b| + 1
    requires forall i, j :: 0 <= i <= |a| && 0 <= j <= |b| ==> lcs[i, j] == Lcs(a[i..], b[j..])
    ensures Walks(tags, a, b) && Count(tags, Keep) == Lcs(a, b)
  {
    var i, j := 0, 0;
    tags := [];
    assert a[0..] == a && b[0..] == b;
    while i < |a| || j < |b|
      invariant 0 <= i <= |a| && 0 <= j <= |b|
      invariant Walks(tags, a[..i], b[..j])
      invariant Count(tags, Keep) + Lcs(a[i..], b[j..]) == Lcs(a, b)
      decreases |a| - i + |b| - j
    {
      if i < |a| { assert a[i..][1..] == a[i + 1..]; }
      if j < |b| { assert b[j..][1..] == b[j + 1..]; }
      var tag;
      if i < |a| && j < |b| && a[i] == b[j] {
        tag := Keep;
      } else if j == |b| || (i < |a| && lcs[i + 1, j] >= lcs[i, j + 1]) {
        tag := Delete;
      } else {
        tag := Insert;
      }
      StepWalks(tags, tag, a, b, i, j);
      CountAppend(tags, [tag], Keep);
      tags := tags + [tag];
      i := if tag == Insert then i else i + 1;
      j := if tag == Delete then j else j + 1;
    }
    assert a[..i] == a && b[..j] == b;
  }

  /** The common ends put back around what is left. */
  lemma Trimmed(x: seq<string>, y: seq<string>, prefix: nat, suffix: nat)
    requires prefix + suffix <= |x| && prefix + suffix <= |y| && x[..prefix] == y[..prefix]
    requires x[prefix..][|x| - prefix - suffix..] == y[prefix..][|y| - prefix - suffix..]
    ensures x == x[..prefix] + x[prefix..|x| - suffix] + x[|x| - suffix..]
    ensures y == x[..prefix] + y[prefix..|y| - suffix] + x[|x| - suffix..]
  {
    assert x[prefix..][|x| - prefix - suffix..] == x[|x| - suffix..];
    assert y[prefix..][|y| - prefix - suffix..] == y[|y| - suffix..];
    assert y == y[..prefix] + y[prefix..|y| - suffix] + y[|y| - suffix..];
  }

  lemma TrimmedEnds(x: seq<string>, y: seq<string>, prefix: nat, suffix: nat)
    requires prefix == PrefixLength(x, y) && suffix == SuffixLength(x[prefix..], y[prefix..])
    ensures prefix + suffix == SharedEnds(x, y) && prefix + suffix <= |x| && prefix + suffix <= |y|
    ensures x == x[..prefix] + x[prefix..|x| - suffix] + x[|x| - suffix..]
    ensures y == x[..prefix] + y[prefix..|y| - suffix] + x[|x| - suffix..]
  {
    LongestPrefix(x, y, prefix);
    LongestSuffix(x[prefix..], y[prefix..], suffix);
    Trimmed(x, y, prefix, suffix);
  }

  /** The script keeps `Lcs` lines when what is left after trimming fits the table, and only the ends otherwise. */
  method EditTags(expected: seq<string>, actual: seq<string>) returns (tags: seq<Tag>)
    ensures Walks(tags, expected, actual)
    ensures Count(tags, Keep) == KeptLines(expected, actual, MAX_LCS_CELLS)
  {
    hide Walks;
    hide Lcs;
    hide Count;
    hide PrefixLength;
    hide SuffixLength;
    hide SharedEnds;
    hide TrimmedCells;
    hide KeptLines;
    var prefix := CommonPrefix(expected, actual);
    var suffix := CommonSuffix(expected[prefix..], actual[prefix..]);
    TrimmedEnds(expected, actual, prefix, suffix);
    var a, b := expected[prefix..|expected| - suffix], actual[prefix..|actual| - suffix];
    TrimmedSize(expected, actual, |a|, |b|);
    if |a| * |b| <= MAX_LCS_CELLS {
      var lcs := FillTable(a, b);
      tags := WalkTable(a, b, lcs);
    } else {
      tags := Repeat(Delete, |a|) + Repeat(Insert, |b|);
      Wholesale(a, b);
    }
    Frame(expected[..prefix], a, b, expected[|expected| - suffix..], tags);
    KeepsEnds(expected, actual, MAX_LCS_CELLS, prefix + suffix, Lcs(a, b), Count(tags, Keep));
    tags := Repeat(Keep, prefix) + tags + Repeat(Keep, suffix);
  }

  lemma TrimmedSize(x: seq<string>, y: seq<string>, n: nat, m: nat)
    requires n == |x| - SharedEnds(x, y) && m == |y| - SharedEnds(x, y)
    ensures n * m == TrimmedCells(x, y)
  {}

  lemma KeepsEnds(expected: seq<string>, actual: seq<string>, limit: nat, ends: nat, best: nat, kept: nat)
    requires ends == SharedEnds(expected, actual) && Lcs(expected, actual) == ends + best
    requires kept == if TrimmedCells(expected, actual) <= limit then best else 0
    ensures ends + kept == KeptLines(expected, actual, limit)
  {}

  /** How many lines the two texts keep: as many as any script could if the trimmed table is within the limit. */
  function KeptLines(a: seq<string>, b: seq<string>, limit: nat): nat {
    if TrimmedCells(a, b) <= limit then Lcs(a, b) else SharedEnds(a, b)
  }

  lemma Wholesale(a: seq<string>, b: seq<string>)
    ensures var tags := Repeat(Delete, |a|) + Repeat(Insert, |b|);
            Walks(tags, a, b) && Count(tags, Keep) == 0
  {
    RepeatWalks(|a|, a);
    RepeatWalks(|b|, b);
    WalksAppend(Repeat(Delete, |a|), a, [], Repeat(Insert, |b|), [], b);
    CountAppend(Repeat(Delete, |a|), Repeat(Insert, |b|), Keep);
    assert a + [] == a && [] + b == b;
  }

  lemma Frame(p: seq<string>, a: seq<string>, b: seq<string>, s: seq<string>, tags: seq<Tag>)
    requires Walks(tags, a, b)
    ensures var all := Repeat(Keep, |p|) + tags + Repeat(Keep, |s|);
            && Walks(all, p + a + s, p + b + s)
            && Count(all, Keep) == |p| + Count(tags, Keep) + |s|
            && Lcs(p + a + s, p + b + s) == |p| + Lcs(a, b) + |s|
  {
    var before, after := Repeat(Keep, |p|), Repeat(Keep, |s|);
    RepeatWalks(|p|, p);
    RepeatWalks(|s|, s);
    WalksAppend(before, p, p, tags, a, b);
    WalksAppend(before + tags, p + a, p + b, after, s, s);
    CountAppend(before, tags, Keep);
    CountAppend(before + tags, after, Keep);
    LcsTrim(p, a, b, s);
  }

  /** Every cell of a table within the limit fits the 32 bits it is stored in. */
  lemma CellFits(a: seq<string>, b: seq<string>)
    requires |a| * |b| <= MAX_LCS_CELLS
    ensures Lcs(a, b) <= MAX_LCS_CELLS < 0x1_0000_0000
  {
    LcsAtMost(a, b);
    if b != [] {
      assert |a| <= |a| * |b|;
    }
  }

  // --- From tags to operations ---

  function OldPart(op: Op): seq<string> {
    if op.tag == Insert then [] else [op.line]
  }

  function NewPart(op: Op): seq<string> {
    if op.tag == Delete then [] else [op.line]
  }

  function OldSide(ops: seq<Op>): seq<string> {
    if ops == [] then [] else OldPart(ops[0]) + OldSide(ops[1..])
  }

  function NewSide(ops: seq<Op>): seq<string> {
    if ops == [] then [] else NewPart(ops[0]) + NewSide(ops[1..])
  }

  /** The operations read as a script from `a` to `b` whose line numbers are right. */
  ghost predicate IsScript(ops: seq<Op>, a: seq<string>, b: seq<string>) {
    && OldSide(ops) == a && NewSide(ops) == b
    && forall k :: 0 <= k < |ops| ==> ops[k].oldAt == |OldSide(ops[..k])| && ops[k].newAt == |NewSide(ops[..k])|
  }

  lemma {:induction false} OldSideAppend(x: seq<Op>, y: seq<Op>)
    ensures OldSide(x + y) == OldSide(x) + OldSide(y)
  {
    if x == [] {
      assert x + y == y;
    } else {
      assert (x + y)[1..] == x[1..] + y && (x + y)[0] == x[0];
      OldSideAppend(x[1..], y);
      Sorting.Concat(OldPart(x[0]), OldSide(x[1..]), OldSide(y));
    }
  }

  lemma {:induction false} NewSideAppend(x: seq<Op>, y: seq<Op>)
    ensures NewSide(x + y) == NewSide(x) + NewSide(y)
  {
    if x == [] {
      assert x + y == y;
    } else {
      assert (x + y)[1..] == x[1..] + y && (x + y)[0] == x[0];
      NewSideAppend(x[1..], y);
      Sorting.Concat(NewPart(x[0]), NewSide(x[1..]), NewSide(y));
    }
  }

  lemma SidesAppend(x: seq<Op>, y: seq<Op>)
    ensures OldSide(x + y) == OldSide(x) + OldSide(y) && NewSide(x + y) == NewSide(x) + NewSide(y)
  {
    OldSideAppend(x, y);
    NewSideAppend(x, y);
  }

  lemma SidesStep(ops: seq<Op>, op: Op)
    ensures OldSide(ops + [op]) == OldSide(ops) + if op.tag == Insert then [] else [op.line]
    ensures NewSide(ops + [op]) == NewSide(ops) + if op.tag == Delete then [] else [op.line]
  {
    SidesAppend(ops, [op]);
    assert [op][1..] == [];
  }

  function TagsOf(ops: seq<Op>): (r: seq<Tag>)
    ensures |r| == |ops| && forall k :: 0 <= k < |r| ==> r[k] == ops[k].tag
  {
    seq(|ops|, k requires 0 <= k < |ops| => ops[k].tag)
  }

  lemma ScriptGrows(ops: seq<Op>, a: seq<string>, b: seq<string>, op: Op)
    requires IsScript(ops, a, b) && op.oldAt == |a| && op.newAt == |b|
    ensures IsScript(ops + [op], if op.tag == Insert then a else a + [op.line], if op.tag == Delete then b else b + [op.line])
  {
    SidesStep(ops, op);
    var more := ops + [op];
    forall k | 0 <= k < |more| ensures more[k].oldAt == |OldSide(more[..k])| && more[k].newAt == |NewSide(more[..k])| {
      if k < |ops| {
        assert more[..k] == ops[..k] && more[k] == ops[k];
      } else {
        assert more[..k] == ops;
      }
    }
  }

  lemma NoScript()
    ensures IsScript([], [], [])
  {}

  lemma TakeOne<T>(s: seq<T>, i: nat)
    requires i < |s|
    ensures s[..i + 1] == s[..i] + [s[i]] && s[i..][0] == s[i] && s[i..][1..] == s[i + 1..]
  {}

  method EditOps(expected: seq<string>, actual: seq<string>) returns (ops: seq<Op>)
    ensures IsScript(ops, expected, actual) && Walks(TagsOf(ops), expected, actual)
    ensures Count(TagsOf(ops), Keep) == KeptLines(expected, actual, MAX_LCS_CELLS)
  {
    hide IsScript;
    hide Count;
    hide KeptLines;
    var tags := EditTags(expected, actual);
    ops := [];
    var old_, new_ := 0, 0;
    NoScript();
    assert tags[0..] == tags && expected[0..] == expected && actual[0..] == actual;
    assert expected[..0] == [] && actual[..0] == [];
    for k := 0 to |tags|
      invariant |ops| == k && forall i :: 0 <= i < k ==> ops[i].tag == tags[i]
      invariant 0 <= old_ <= |expected| && 0 <= new_ <= |actual|
      invariant Walks(tags[k..], expected[old_..], actual[new_..])
      invariant IsScript(ops, expected[..old_], actual[..new_])
    {
      var tag := tags[k];
      TakeOne(tags, k);
      var op := Op(tag, if tag == Insert then actual[new_] else expected[old_], old_, new_);
      ScriptGrows(ops, expected[..old_], actual[..new_], op);
      ops := ops + [op];
      if tag != Insert {
        TakeOne(expected, old_);
        old_ := old_ + 1;
      }
      if tag != Delete {
        TakeOne(actual, new_);
        new_ := new_ + 1;
      }
    }
    assert TagsOf(ops) == tags;
    assert expected[..old_] == expected && actual[..new_] == actual;
  }
}
