/** `unified_diff` of `compare.rs`: hunks with context, their headers, and what it means to apply them. */
module UnifiedDiff {
  import opened EditScript
  import opened Options
  import S = Sorting

  const CONTEXT := 3

  datatype Group = Group(start: nat, end: nat)

  // --- Grouping changes ---

  /** A change joins the last group when at most 2 * CONTEXT unchanged lines lie between. */
  function Extend(groups: seq<Group>, tag: Tag, index: nat): seq<Group> {
    if tag == Keep then groups
    else if groups != [] && index - groups[|groups| - 1].end <= 2 * CONTEXT
    then groups[|groups| - 1 := Group(groups[|groups| - 1].start, index + 1)]
    else groups + [Group(index, index + 1)]
  }

  /** The groups after looking at the first `n` operations. */
  function Groups(ops: seq<Op>, n: nat): seq<Group>
    requires n <= |ops|
  {
    if n == 0 then [] else Extend(Groups(ops, n - 1), ops[n - 1].tag, n - 1)
  }

  ghost predicate Covered(groups: seq<Group>, index: nat) {
    exists g :: 0 <= g < |groups| && groups[g].start <= index < groups[g].end
  }

  ghost predicate Changed(ops: seq<Op>, index: nat) {
    index < |ops| && ops[index].tag != Keep
  }

  /** A group is non-empty and begins and ends with a change. */
  ghost predicate GroupFits(ops: seq<Op>, g: Group) {
    g.start < g.end <= |ops| && ops[g.start].tag != Keep && ops[g.end - 1].tag != Keep
  }

  /** Groups are in order and more than 2 * CONTEXT unchanged lines apart. */
  ghost predicate Apart(groups: seq<Group>) {
    forall g, h :: 0 <= g < h < |groups| ==> groups[g].end + 2 * CONTEXT < groups[h].start
  }

  /** Groups are in order and their hunks do not overlap. */
  ghost predicate Separate(groups: seq<Group>) {
    forall g, h :: 0 <= g < h < |groups| ==> groups[g].end + 2 * CONTEXT <= groups[h].start
  }

  /** Well-formed groups over the first `n` operations that miss no change. */
  ghost predicate Grouped(ops: seq<Op>, n: nat, groups: seq<Group>) {
    && (forall g :: 0 <= g < |groups| ==> GroupFits(ops, groups[g]) && groups[g].end <= n)
    && Apart(groups)
    && (forall i: nat :: i < n && Changed(ops, i) ==> Covered(groups, i))
  }

  lemma GroupedKeep(ops: seq<Op>, n: nat, groups: seq<Group>)
    requires n < |ops| && Grouped(ops, n, groups) && !Changed(ops, n)
    ensures Grouped(ops, n + 1, groups)
  {}

  lemma GroupedMerge(ops: seq<Op>, n: nat, groups: seq<Group>)
    requires n < |ops| && Grouped(ops, n, groups) && Changed(ops, n) && groups != []
    ensures Grouped(ops, n + 1, groups[|groups| - 1 := Group(groups[|groups| - 1].start, n + 1)])
  {
    var last := |groups| - 1;
    var after := groups[last := Group(groups[last].start, n + 1)];
    forall i: nat | i < n + 1 && Changed(ops, i) ensures Covered(after, i) {
      if i < n {
        var g :| 0 <= g < |groups| && groups[g].start <= i < groups[g].end;
        assert after[g].start <= i < after[g].end;
      } else {
        assert after[last].start <= i < after[last].end;
      }
    }
  }

  lemma GroupedPush(ops: seq<Op>, n: nat, groups: seq<Group>)
    requires n < |ops| && Grouped(ops, n, groups) && Changed(ops, n)
    requires groups != [] ==> n > groups[|groups| - 1].end + 2 * CONTEXT
    ensures Grouped(ops, n + 1, groups + [Group(n, n + 1)])
  {
    var after := groups + [Group(n, n + 1)];
    forall i: nat | i < n + 1 && Changed(ops, i) ensures Covered(after, i) {
      if i < n {
        var g :| 0 <= g < |groups| && groups[g].start <= i < groups[g].end;
        assert after[g].start <= i < after[g].end;
      } else {
        assert after[|groups|].start <= i < after[|groups|].end;
      }
    }
  }

  lemma {:induction false} GroupsGrouped(ops: seq<Op>, n: nat)
    requires n <= |ops|
    ensures Grouped(ops, n, Groups(ops, n))
  {
    if n > 0 {
      GroupsGrouped(ops, n - 1);
      ExtendGrouped(ops, n - 1, Groups(ops, n - 1));
    }
  }

  lemma ExtendGrouped(ops: seq<Op>, n: nat, groups: seq<Group>)
    requires n < |ops| && Grouped(ops, n, groups)
    ensures Grouped(ops, n + 1, Extend(groups, ops[n].tag, n))
  {
    if ops[n].tag == Keep {
      GroupedKeep(ops, n, groups);
    } else if groups != [] && n - groups[|groups| - 1].end <= 2 * CONTEXT {
      GroupedMerge(ops, n, groups);
    } else {
      GroupedPush(ops, n, groups);
    }
  }

  /** Among any seven operations of a group one is a change: more unchanged lines would have parted it. */
  ghost predicate Tight(ops: seq<Op>, g: Group) {
    forall i: nat :: g.start <= i && i + 7 <= g.end ==> ChangeAmongSeven(ops, i)
  }

  ghost predicate ChangeAmongSeven(ops: seq<Op>, i: nat) {
    exists k: nat :: i <= k < i + 7 && Changed(ops, k)
  }

  lemma TightMerge(ops: seq<Op>, g: Group, n: nat)
    requires Tight(ops, g) && GroupFits(ops, g) && g.end <= n && Changed(ops, n) && n - g.end <= 6
    ensures Tight(ops, Group(g.start, n + 1))
  {
    assert Changed(ops, g.end - 1);
    forall i: nat | g.start <= i && i + 7 <= n + 1 ensures ChangeAmongSeven(ops, i) {
      if i + 7 <= g.end {
        assert ChangeAmongSeven(ops, i);
      } else if i < g.end {
        assert i <= g.end - 1 < i + 7;
      } else {
        assert i <= n < i + 7;
      }
    }
  }

  lemma {:induction false} GroupsTight(ops: seq<Op>, n: nat)
    requires n <= |ops|
    ensures forall g :: 0 <= g < |Groups(ops, n)| ==> Tight(ops, Groups(ops, n)[g])
  {
    if n > 0 {
      GroupsTight(ops, n - 1);
      GroupsGrouped(ops, n - 1);
      var groups := Groups(ops, n - 1);
      if ops[n - 1].tag != Keep && groups != [] && n - 1 - groups[|groups| - 1].end <= 6 {
        TightMerge(ops, groups[|groups| - 1], n - 1);
      }
    }
  }

  /** A hunk shows three unchanged lines on each side of its changes, or as many as there are. */
  lemma HunkContext(ops: seq<Op>, groups: seq<Group>, g: nat)
    requires Pending(ops, groups, 0) && g < |groups|
    ensures var here, from, to := groups[g], From(groups[g]), To(groups[g], |ops|);
            && Changed(ops, here.start) && Changed(ops, here.end - 1)
            && from == (if here.start < 3 then 0 else here.start - 3)
            && to == (if |ops| < here.end + 3 then |ops| else here.end + 3)
            && forall i :: from <= i < here.start || here.end <= i < to ==> ops[i].tag == Keep
  {
    var here := groups[g];
    assert GroupFits(ops, here);
    forall i: nat | From(here) <= i < here.start || here.end <= i < To(here, |ops|) ensures ops[i].tag == Keep {
      forall h | 0 <= h < |groups| ensures !(groups[h].start <= i < groups[h].end) {
        if h < g {
          assert groups[h].end + 2 * CONTEXT <= here.start;
        } else if g < h {
          assert here.end + 2 * CONTEXT <= groups[h].start;
        }
      }
      assert !Covered(groups, i);
    }
  }

  // --- Hunks ---

  /** A range of lines as a header prints it. */
  datatype Range = Single(first: nat) | Span(first: nat, length: nat)

  function RangeOf(start: nat, length: nat): Range {
    if length == 0 then Span(start, 0) else if length == 1 then Single(start + 1) else Span(start + 1, length)
  }

  function RangeStart(r: Range): nat {
    match r
    case Single(first) => if first == 0 then 0 else first - 1
    case Span(first, length) => if length == 0 || first == 0 then first else first - 1
  }

  function RangeLength(r: Range): nat {
    match r case Single(_) => 1 case Span(_, length) => length
  }

  datatype Line = Line(tag: Tag, text: string)

  datatype Hunk = Hunk(old_: Range, new_: Range, lines: seq<Line>)

  function From(g: Group): nat {
    if g.start < CONTEXT then 0 else g.start - CONTEXT
  }

  function To(g: Group, n: nat): nat {
    if g.end + CONTEXT > n then n else g.end + CONTEXT
  }

  function Lines(ops: seq<Op>): (r: seq<Line>)
    ensures |r| == |ops| && forall k :: 0 <= k < |r| ==> r[k] == Line(ops[k].tag, ops[k].line)
  {
    seq(|ops|, k requires 0 <= k < |ops| => Line(ops[k].tag, ops[k].line))
  }

  function HunkOf(ops: seq<Op>): Hunk
    requires ops != []
  {
    Hunk(RangeOf(ops[0].oldAt, |OldSide(ops)|), RangeOf(ops[0].newAt, |NewSide(ops)|), Lines(ops))
  }

  predicate Within(groups: seq<Group>, n: nat) {
    forall g :: 0 <= g < |groups| ==> groups[g].start < groups[g].end <= n
  }

  function GroupHunk(ops: seq<Op>, g: Group): Hunk
    requires g.start < g.end <= |ops|
  {
    HunkOf(ops[From(g)..To(g, |ops|)])
  }

  function HunksOf(ops: seq<Op>, groups: seq<Group>): (r: seq<Hunk>)
    requires Within(groups, |ops|)
    ensures |r| == |groups| && forall g :: 0 <= g < |r| ==> r[g] == GroupHunk(ops, groups[g])
  {
    seq(|groups|, g requires 0 <= g < |groups| => GroupHunk(ops, groups[g]))
  }

  // --- Applying hunks ---

  function OldLines(lines: seq<Line>): seq<string> {
    if lines == [] then []
    else (if lines[0].tag == Insert then [] else [lines[0].text]) + OldLines(lines[1..])
  }

  function NewLines(lines: seq<Line>): seq<string> {
    if lines == [] then []
    else (if lines[0].tag == Delete then [] else [lines[0].text]) + NewLines(lines[1..])
  }

  /** Apply hunks to `old`, of which `at` lines are done and have become `done` lines. Nothing is fuzzy: every header
      number must be exact and every context and deleted line must be there. */
  function Patch(hunks: seq<Hunk>, old_: seq<string>, at: nat, done: nat): Option<seq<string>>
    requires at <= |old_|
    decreases |hunks|
  {
    if hunks == [] then Some(old_[at..])
    else
      var h := hunks[0];
      var start, length := RangeStart(h.old_), RangeLength(h.old_);
      if start < at || start + length > |old_| then None
      else if OldLines(h.lines) != old_[start..start + length] then None
      else if RangeStart(h.new_) != done + (start - at) || RangeLength(h.new_) != |NewLines(h.lines)| then None
      else
        match Patch(hunks[1..], old_, start + length, RangeStart(h.new_) + RangeLength(h.new_))
        case None => None
        case Some(rest) => Some(old_[at..start] + NewLines(h.lines) + rest)
  }

  function FlipTag(tag: Tag): Tag {
    match tag case Keep => Keep case Delete => Insert case Insert => Delete
  }

  function FlipLines(lines: seq<Line>): (r: seq<Line>)
    ensures |r| == |lines| && forall k :: 0 <= k < |r| ==> r[k] == Line(FlipTag(lines[k].tag), lines[k].text)
  {
    seq(|lines|, k requires 0 <= k < |lines| => Line(FlipTag(lines[k].tag), lines[k].text))
  }

  /** The hunks read in reverse. */
  function FlipHunks(hunks: seq<Hunk>): (r: seq<Hunk>)
    ensures |r| == |hunks|
    ensures forall k :: 0 <= k < |r| ==> r[k] == Hunk(hunks[k].new_, hunks[k].old_, FlipLines(hunks[k].lines))
  {
    seq(|hunks|, k requires 0 <= k < |hunks| => Hunk(hunks[k].new_, hunks[k].old_, FlipLines(hunks[k].lines)))
  }

  lemma {:induction false} LineSides(ops: seq<Op>)
    ensures OldLines(Lines(ops)) == OldSide(ops) && NewLines(Lines(ops)) == NewSide(ops)
  {
    if ops != [] {
      assert Lines(ops)[1..] == Lines(ops[1..]);
      LineSides(ops[1..]);
    }
  }

  lemma {:induction false} KeptSides(ops: seq<Op>)
    requires forall k :: 0 <= k < |ops| ==> ops[k].tag == Keep
    ensures OldSide(ops) == NewSide(ops)
  {
    if ops != [] {
      KeptSides(ops[1..]);
    }
  }

  function Olds(ops: seq<Op>, n: nat): nat
    requires n <= |ops|
  {
    |OldSide(ops[..n])|
  }

  function News(ops: seq<Op>, n: nat): nat
    requires n <= |ops|
  {
    |NewSide(ops[..n])|
  }

  /** Any stretch of operations covers a stretch of old lines and a stretch of new lines. */
  lemma Stretch(ops: seq<Op>, i: nat, j: nat)
    requires i <= j <= |ops|
    ensures Olds(ops, i) <= Olds(ops, j) <= |OldSide(ops)| && News(ops, i) <= News(ops, j) <= |NewSide(ops)|
    ensures OldSide(ops[i..j]) == OldSide(ops)[Olds(ops, i)..Olds(ops, j)]
    ensures NewSide(ops[i..j]) == NewSide(ops)[News(ops, i)..News(ops, j)]
  {
    var front, middle, back := ops[..i], ops[i..j], ops[j..];
    assert ops[..j] == front + middle && ops == front + middle + back;
    SidesAppend(front, middle);
    SidesAppend(front + middle, back);
  }

  /** A range says where it starts and how long it is; only one of a single line leaves its length out. */
  lemma RangeExact(start: nat, length: nat)
    ensures RangeStart(RangeOf(start, length)) == start && RangeLength(RangeOf(start, length)) == length
    ensures RangeOf(start, length).Single? <==> length == 1
  {}

  /** Groups still to print leave no change between `at` and the first hunk, nor after the last. */
  ghost predicate Pending(ops: seq<Op>, groups: seq<Group>, at: nat) {
    && at <= |ops|
    && (forall g :: 0 <= g < |groups| ==> GroupFits(ops, groups[g]))
    && Separate(groups)
    && (groups != [] ==> at <= From(groups[0]))
    && (forall i: nat :: at <= i < |ops| && Changed(ops, i) ==> Covered(groups, i))
  }

  lemma KeptBefore(ops: seq<Op>, groups: seq<Group>, at: nat, i: nat)
    requires Pending(ops, groups, at) && at <= i < |ops| && (groups != [] ==> i < From(groups[0]))
    ensures ops[i].tag == Keep
  {
    assert Changed(ops, i) ==> Covered(groups, i);
  }

  /** Up to where the next hunk starts. */
  function Upto(ops: seq<Op>, groups: seq<Group>): nat {
    if groups == [] then |ops| else From(groups[0])
  }

  /** Nothing changed before the next hunk, which lies ahead. */
  lemma KeptUntil(ops: seq<Op>, groups: seq<Group>, at: nat)
    requires Pending(ops, groups, at) && Within(groups, |ops|)
    ensures at <= Upto(ops, groups) <= |ops|
    ensures groups != [] ==> From(groups[0]) < To(groups[0], |ops|) <= |ops|
    ensures forall i: nat :: at <= i < Upto(ops, groups) ==> ops[i].tag == Keep
  {
    assert groups != [] ==> GroupFits(ops, groups[0]);
    forall i: nat | at <= i < Upto(ops, groups) ensures ops[i].tag == Keep {
      KeptBefore(ops, groups, at, i);
    }
  }

  lemma PendingNext(ops: seq<Op>, groups: seq<Group>, at: nat)
    requires Pending(ops, groups, at) && groups != []
    ensures Pending(ops, groups[1..], To(groups[0], |ops|))
  {
    var rest, to := groups[1..], To(groups[0], |ops|);
    assert GroupFits(ops, groups[0]);
    forall i: nat | to <= i < |ops| && Changed(ops, i) ensures Covered(rest, i) {
      var g :| 0 <= g < |groups| && groups[g].start <= i < groups[g].end;
      assert rest[g - 1] == groups[g];
    }
  }

  /** What a header of the hunk over `from..to` says, and what its body reads as. */
  lemma HunkReads(ops: seq<Op>, a: seq<string>, b: seq<string>, from: nat, to: nat)
    requires IsScript(ops, a, b) && from < to <= |ops|
    ensures var h := HunkOf(ops[from..to]);
            && Olds(ops, from) <= Olds(ops, to) <= |a| && News(ops, from) <= News(ops, to) <= |b|
            && RangeStart(h.old_) == Olds(ops, from) && RangeLength(h.old_) == Olds(ops, to) - Olds(ops, from)
            && RangeStart(h.new_) == News(ops, from) && RangeLength(h.new_) == News(ops, to) - News(ops, from)
            && OldLines(h.lines) == a[Olds(ops, from)..Olds(ops, to)]
            && NewLines(h.lines) == b[News(ops, from)..News(ops, to)]
  {
    var hunk := ops[from..to];
    LineSides(hunk);
    Stretch(ops, from, to);
    RangeExact(hunk[0].oldAt, |OldSide(hunk)|);
    RangeExact(hunk[0].newAt, |NewSide(hunk)|);
  }

  lemma KeptStretch(ops: seq<Op>, a: seq<string>, b: seq<string>, at: nat, from: nat)
    requires IsScript(ops, a, b) && at <= from <= |ops|
    requires forall i: nat :: at <= i < from ==> ops[i].tag == Keep
    ensures Olds(ops, at) <= Olds(ops, from) <= |a| && News(ops, at) <= News(ops, from) <= |b|
    ensures a[Olds(ops, at)..Olds(ops, from)] == b[News(ops, at)..News(ops, from)]
  {
    Stretch(ops, at, from);
    KeptSides(ops[at..from]);
  }

  lemma ScriptEnds(ops: seq<Op>, a: seq<string>, b: seq<string>)
    requires IsScript(ops, a, b)
    ensures Olds(ops, |ops|) == |a| && News(ops, |ops|) == |b|
  {
    assert ops[..|ops|] == ops;
  }

  lemma {:induction false} PatchFrom(ops: seq<Op>, groups: seq<Group>, a: seq<string>, b: seq<string>, at: nat)
    requires IsScript(ops, a, b) && Pending(ops, groups, at)
    requires Within(groups, |ops|)
    ensures Olds(ops, at) <= |a| && News(ops, at) <= |b|
    ensures Patch(HunksOf(ops, groups), a, Olds(ops, at), News(ops, at)) == Some(b[News(ops, at)..])
    decreases |groups|
  {
    hide IsScript;
    hide Pending;
    KeptUntil(ops, groups, at);
    KeptStretch(ops, a, b, at, Upto(ops, groups));
    if groups == [] {
      ScriptEnds(ops, a, b);
      assert a[Olds(ops, at)..] == b[News(ops, at)..];
    } else {
      var from, to := From(groups[0]), To(groups[0], |ops|);
      HunkReads(ops, a, b, from, to);
      PendingNext(ops, groups, at);
      PatchFrom(ops, groups[1..], a, b, to);
      assert HunksOf(ops, groups)[1..] == HunksOf(ops, groups[1..]);
      OneHunk(HunksOf(ops, groups), a, b, Olds(ops, at), News(ops, at), Olds(ops, from), News(ops, from),
              Olds(ops, to), News(ops, to));
    }
  }

  /** One step of `Patch`, when the first hunk says exactly where it belongs. */
  lemma OneHunk(hunks: seq<Hunk>, a: seq<string>, b: seq<string>, at: nat, done: nat, from: nat, from': nat, to: nat, to': nat)
    requires hunks != [] && at <= from <= to <= |a| && done <= from' <= to' <= |b|
    requires a[at..from] == b[done..from']
    requires var h := hunks[0];
             && RangeStart(h.old_) == from && RangeLength(h.old_) == to - from
             && RangeStart(h.new_) == from' && RangeLength(h.new_) == to' - from'
             && OldLines(h.lines) == a[from..to] && NewLines(h.lines) == b[from'..to']
    requires Patch(hunks[1..], a, to, to') == Some(b[to'..])
    ensures Patch(hunks, a, at, done) == Some(b[done..])
  {
    assert |a[at..from]| == |b[done..from']|;
    assert b[done..] == b[done..from'] + b[from'..to'] + b[to'..];
  }

  lemma GroupsInRange(ops: seq<Op>)
    ensures Within(Groups(ops, |ops|), |ops|) && Pending(ops, Groups(ops, |ops|), 0)
  {
    GroupsGrouped(ops, |ops|);
  }

  /** The hunks of a script, applied to the old lines, give the new lines. */
  lemma HunksArePatch(ops: seq<Op>, a: seq<string>, b: seq<string>)
    requires IsScript(ops, a, b)
    requires Within(Groups(ops, |ops|), |ops|)
    ensures Patch(HunksOf(ops, Groups(ops, |ops|)), a, 0, 0) == Some(b)
  {
    GroupsInRange(ops);
    assert ops[..0] == [];
    PatchFrom(ops, Groups(ops, |ops|), a, b, 0);
    assert b[0..] == b;
  }

  // --- The same hunks in reverse ---

  function FlipOps(ops: seq<Op>): (r: seq<Op>)
    ensures |r| == |ops|
    ensures forall k :: 0 <= k < |r| ==> r[k] == Op(FlipTag(ops[k].tag), ops[k].line, ops[k].newAt, ops[k].oldAt)
  {
    seq(|ops|, k requires 0 <= k < |ops| => Op(FlipTag(ops[k].tag), ops[k].line, ops[k].newAt, ops[k].oldAt))
  }

  lemma {:induction false} FlipSides(ops: seq<Op>)
    ensures OldSide(FlipOps(ops)) == NewSide(ops) && NewSide(FlipOps(ops)) == OldSide(ops)
  {
    if ops != [] {
      assert FlipOps(ops)[1..] == FlipOps(ops[1..]);
      FlipSides(ops[1..]);
    }
  }

  lemma FlipScript(ops: seq<Op>, a: seq<string>, b: seq<string>)
    requires IsScript(ops, a, b)
    ensures IsScript(FlipOps(ops), b, a)
  {
    FlipSides(ops);
    forall k | 0 <= k < |ops|
      ensures FlipOps(ops)[k].oldAt == |OldSide(FlipOps(ops)[..k])|
      ensures FlipOps(ops)[k].newAt == |NewSide(FlipOps(ops)[..k])|
    {
      assert FlipOps(ops)[..k] == FlipOps(ops[..k]);
      FlipSides(ops[..k]);
    }
  }

  lemma FlippedHunk(ops: seq<Op>)
    requires ops != []
    ensures HunkOf(FlipOps(ops)) == Hunk(HunkOf(ops).new_, HunkOf(ops).old_, FlipLines(HunkOf(ops).lines))
  {
    FlipSides(ops);
    assert Lines(FlipOps(ops)) == FlipLines(Lines(ops));
  }

  lemma FlippedHunks(ops: seq<Op>, groups: seq<Group>)
    requires Within(groups, |ops|)
    ensures HunksOf(FlipOps(ops), groups) == FlipHunks(HunksOf(ops, groups))
  {
    forall g | 0 <= g < |groups| ensures GroupHunk(FlipOps(ops), groups[g]) == FlipHunks(HunksOf(ops, groups))[g] {
      FlippedGroup(ops, groups[g]);
    }
  }

  lemma FlippedGroup(ops: seq<Op>, g: Group)
    requires g.start < g.end <= |ops|
    ensures var h := GroupHunk(ops, g);
            GroupHunk(FlipOps(ops), g) == Hunk(h.new_, h.old_, FlipLines(h.lines))
  {
    var from, to := From(g), To(g, |ops|);
    assert FlipOps(ops)[from..to] == FlipOps(ops[from..to]);
    FlippedHunk(ops[from..to]);
  }

  lemma FlipPending(ops: seq<Op>, groups: seq<Group>)
    requires Pending(ops, groups, 0)
    ensures Pending(FlipOps(ops), groups, 0)
  {
    forall i: nat | Changed(FlipOps(ops), i) ensures Covered(groups, i) {
      assert Changed(ops, i);
    }
  }

  /** The hunks around any groups that miss no change, applied both ways. */
  lemma PatchesBothWays(ops: seq<Op>, groups: seq<Group>, a: seq<string>, b: seq<string>)
    requires IsScript(ops, a, b) && Pending(ops, groups, 0) && Within(groups, |ops|)
    ensures Patch(HunksOf(ops, groups), a, 0, 0) == Some(b)
    ensures Patch(FlipHunks(HunksOf(ops, groups)), b, 0, 0) == Some(a)
  {
    PatchFrom(ops, groups, a, b, 0);
    FlipScript(ops, a, b);
    FlipPending(ops, groups);
    FlippedHunks(ops, groups);
    PatchFrom(FlipOps(ops), groups, b, a, 0);
    assert ops[..0] == [] && FlipOps(ops)[..0] == [] && a[0..] == a && b[0..] == b;
  }

  lemma HunksReverse(ops: seq<Op>, a: seq<string>, b: seq<string>)
    requires IsScript(ops, a, b)
    requires Within(Groups(ops, |ops|), |ops|)
    ensures Patch(FlipHunks(HunksOf(ops, Groups(ops, |ops|))), b, 0, 0) == Some(a)
  {
    GroupsInRange(ops);
    PatchesBothWays(ops, Groups(ops, |ops|), a, b);
  }

  // --- Hunks do not overlap, and hold each change once ---

  /** Hunks are ordered and disjoint, and every change lies in exactly one of them. */
  lemma HunksDisjoint(ops: seq<Op>)
    ensures var groups := Groups(ops, |ops|);
            && (forall g: nat, h: nat :: g < h < |groups| ==> To(groups[g], |ops|) < From(groups[h]))
            && (forall i: nat :: Changed(ops, i) ==> InHunk(ops, groups, i))
  {
    GroupsGrouped(ops, |ops|);
    var groups := Groups(ops, |ops|);
    forall g: nat, h: nat | g < h < |groups| ensures To(groups[g], |ops|) < From(groups[h]) {
      assert groups[g].end + 2 * CONTEXT < groups[h].start;
    }
    forall i: nat | Changed(ops, i) ensures InHunk(ops, groups, i) {
      assert Covered(groups, i);
      var g :| 0 <= g < |groups| && groups[g].start <= i < groups[g].end;
      assert From(groups[g]) <= i < To(groups[g], |ops|);
    }
  }

  ghost predicate InHunk(ops: seq<Op>, groups: seq<Group>, i: nat) {
    exists g :: 0 <= g < |groups| && From(groups[g]) <= i < To(groups[g], |ops|)
  }

  // --- The printer ---

  method CollectGroups(ops: seq<Op>) returns (groups: seq<Group>)
    ensures groups == Groups(ops, |ops|)
  {
    groups := [];
    for index := 0 to |ops|
      invariant groups == Groups(ops, index)
    {
      if ops[index].tag != Keep {
        if groups != [] && index - groups[|groups| - 1].end <= 2 * CONTEXT {
          groups := groups[|groups| - 1 := Group(groups[|groups| - 1].start, index + 1)];
        } else {
          groups := groups + [Group(index, index + 1)];
        }
      }
    }
  }

  method PrintHunks(ops: seq<Op>, groups: seq<Group>) returns (hunks: seq<Hunk>)
    requires Within(groups, |ops|)
    ensures hunks == HunksOf(ops, groups)
  {
    hunks := [];
    for g := 0 to |groups|
      invariant hunks == HunksOf(ops, groups[..g])
    {
      var hunk := ops[From(groups[g])..To(groups[g], |ops|)];
      hunks := hunks + [HunkOf(hunk)];
      assert groups[..g + 1] == groups[..g] + [groups[g]];
    }
    assert groups[..|groups|] == groups;
  }

  /** The hunks printed for two texts turn the first into the second, and read in reverse the second into the first.
      When the trimmed table is within the limit, no script from one to the other changes fewer lines than they show. */
  method Diff(expected: seq<string>, actual: seq<string>) returns (hunks: seq<Hunk>)
    ensures Patch(hunks, expected, 0, 0) == Some(actual)
    ensures Patch(FlipHunks(hunks), actual, 0, 0) == Some(expected)
    ensures ChangedLines(hunks) == |expected| + |actual| - 2 * KeptLines(expected, actual, MAX_LCS_CELLS)
  {
    var ops := EditOps(expected, actual);
    var groups := CollectGroups(ops);
    GroupsInRange(ops);
    HunksArePatch(ops, expected, actual);
    HunksReverse(ops, expected, actual);
    ChangesShown(ops, groups, 0);
    assert ops[0..] == ops;
    ChangesCounted(ops);
    WalkLengths(TagsOf(ops), expected, actual);
    hunks := PrintHunks(ops, groups);
  }

  // --- The changes the hunks show ---

  function IsChange(): Line -> bool {
    (line: Line) => line.tag != Keep
  }

  /** The deleted and inserted lines of some hunks, as printed. */
  function ShownChanges(hunks: seq<Hunk>): seq<Line> {
    if hunks == [] then [] else S.Filter(hunks[0].lines, IsChange()) + ShownChanges(hunks[1..])
  }

  function ChangedLines(hunks: seq<Hunk>): nat {
    |ShownChanges(hunks)|
  }

  /** The deleted and inserted lines among some operations. */
  function ChangeLines(ops: seq<Op>): seq<Line> {
    S.Filter(Lines(ops), IsChange())
  }

  lemma {:induction false} ChangesCounted(ops: seq<Op>)
    ensures |ChangeLines(ops)| == Changes(TagsOf(ops))
  {
    if ops != [] {
      assert Lines(ops)[1..] == Lines(ops[1..]) && TagsOf(ops)[1..] == TagsOf(ops[1..]);
      ChangesCounted(ops[1..]);
    }
  }

  lemma {:induction false} NothingToShow(ops: seq<Op>)
    requires forall k :: 0 <= k < |ops| ==> ops[k].tag == Keep
    ensures ChangeLines(ops) == []
  {
    if ops != [] {
      assert Lines(ops)[1..] == Lines(ops[1..]);
      NothingToShow(ops[1..]);
    }
  }

  /** The hunks show the changed operations themselves: each once, in order, and nothing else. */
  lemma {:induction false} ChangesShown(ops: seq<Op>, groups: seq<Group>, at: nat)
    requires Pending(ops, groups, at) && Within(groups, |ops|)
    ensures ShownChanges(HunksOf(ops, groups)) == ChangeLines(ops[at..])
    decreases |groups|
  {
    hide Pending;
    KeptUntil(ops, groups, at);
    NothingToShow(ops[at..Upto(ops, groups)]);
    if groups == [] {
      assert ops[at..|ops|] == ops[at..];
    } else {
      var from, to := From(groups[0]), To(groups[0], |ops|);
      PendingNext(ops, groups, at);
      ChangesShown(ops, groups[1..], to);
      LinesSplit(ops, at, from, to);
      assert HunksOf(ops, groups)[1..] == HunksOf(ops, groups[1..]);
    }
  }

  lemma LinesSplit(ops: seq<Op>, at: nat, from: nat, to: nat)
    requires at <= from <= to <= |ops|
    ensures ChangeLines(ops[at..]) == ChangeLines(ops[at..from]) + (ChangeLines(ops[from..to]) + ChangeLines(ops[to..]))
  {
    hide ChangeLines;
    ChangesAppend(ops[at..from], ops[from..]);
    ChangesAppend(ops[from..to], ops[to..]);
    assert ops[at..from] + ops[from..] == ops[at..];
    assert ops[from..to] + ops[to..] == ops[from..];
  }

  lemma ChangesAppend(a: seq<Op>, b: seq<Op>)
    ensures ChangeLines(a + b) == ChangeLines(a) + ChangeLines(b)
  {
    assert Lines(a + b) == Lines(a) + Lines(b);
    S.FilterAppend(Lines(a), Lines(b), IsChange());
  }
}
