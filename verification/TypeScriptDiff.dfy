/** `unifiedDiff` of the TypeScript package: the same trimmed LCS, a greedy walk when the table would be too large, and
    hunks whose header numbers are counted from the operations. */
module TypeScriptDiff {
  import opened EditScript
  import opened Options
  import opened Subsequences
  import opened UnifiedDiff

  const MAX_TABLE_CELLS := 4_000_000

  datatype Edit = Edit(tag: Tag, line: string)

  function OldCount(edits: seq<Edit>): nat {
    |S.Filter(edits, (e: Edit) => e.tag != Insert)|
  }

  function NewCount(edits: seq<Edit>): nat {
    |S.Filter(edits, (e: Edit) => e.tag != Delete)|
  }

  /** The operations with their line numbers. */
  function Numbered(edits: seq<Edit>): (r: seq<Op>)
    ensures |r| == |edits|
    ensures forall k :: 0 <= k < |r| ==>
              r[k] == Op(edits[k].tag, edits[k].line, OldCount(edits[..k]), NewCount(edits[..k]))
  {
    seq(|edits|, k requires 0 <= k < |edits| => Op(edits[k].tag, edits[k].line, OldCount(edits[..k]), NewCount(edits[..k])))
  }

  function OldText(edits: seq<Edit>): seq<string> { OldSide(Numbered(edits)) }
  function NewText(edits: seq<Edit>): seq<string> { NewSide(Numbered(edits)) }
  function Tags(edits: seq<Edit>): seq<Tag> { TagsOf(Numbered(edits)) }

  lemma NumberedPrefix(edits: seq<Edit>, k: nat)
    requires k <= |edits|
    ensures Numbered(edits)[..k] == Numbered(edits[..k])
  {
    forall i | 0 <= i < k ensures Numbered(edits)[i] == Numbered(edits[..k])[i] {
      assert edits[..k][..i] == edits[..i];
    }
  }

  lemma Snoc(edits: seq<Edit>, e: Edit)
    ensures OldText(edits + [e]) == OldText(edits) + if e.tag == Insert then [] else [e.line]
    ensures NewText(edits + [e]) == NewText(edits) + if e.tag == Delete then [] else [e.line]
    ensures Tags(edits + [e]) == Tags(edits) + [e.tag]
  {
    var more := edits + [e];
    NumberedPrefix(more, |edits|);
    assert more[..|edits|] == edits;
    assert Numbered(more) == Numbered(edits) + [Numbered(more)[|edits|]];
    SidesStep(Numbered(edits), Numbered(more)[|edits|]);
  }

  lemma SnocCounts(edits: seq<Edit>, e: Edit)
    ensures OldCount(edits + [e]) == OldCount(edits) + if e.tag == Insert then 0 else 1
    ensures NewCount(edits + [e]) == NewCount(edits) + if e.tag == Delete then 0 else 1
  {
    S.FilterAppend(edits, [e], (e: Edit) => e.tag != Insert);
    S.FilterAppend(edits, [e], (e: Edit) => e.tag != Delete);
    assert [e][1..] == [];
  }

  lemma {:induction false} CountsAreSides(edits: seq<Edit>)
    ensures OldCount(edits) == |OldText(edits)| && NewCount(edits) == |NewText(edits)|
  {
    if edits != [] {
      var front, e := edits[..|edits| - 1], edits[|edits| - 1];
      assert edits == front + [e];
      CountsAreSides(front);
      Snoc(front, e);
      SnocCounts(front, e);
    }
  }

  lemma NumberedIsScript(edits: seq<Edit>)
    ensures IsScript(Numbered(edits), OldText(edits), NewText(edits))
  {
    var ops := Numbered(edits);
    forall k | 0 <= k < |ops| ensures ops[k].oldAt == |OldSide(ops[..k])| && ops[k].newAt == |NewSide(ops[..k])| {
      NumberedPrefix(edits, k);
      CountsAreSides(edits[..k]);
    }
  }

  /** Any operations lead from their old side to their new side. */
  lemma {:induction false} SidesWalk(ops: seq<Op>)
    ensures Walks(TagsOf(ops), OldSide(ops), NewSide(ops))
  {
    if ops != [] {
      SidesWalk(ops[1..]);
      assert TagsOf(ops)[1..] == TagsOf(ops[1..]);
      var old_, new_ := OldSide(ops[1..]), NewSide(ops[1..]);
      assert [] + old_ == old_ && [] + new_ == new_;
      assert ([ops[0].line] + old_)[1..] == old_ && ([ops[0].line] + new_)[1..] == new_;
    }
  }

  // --- The walk ---

  /** How far the walk over `x` and `y` has come; with a table, it has kept as many lines as it could. */
  ghost predicate Walked(edits: seq<Edit>, x: seq<string>, y: seq<string>, i: nat, j: nat, exact: bool) {
    && i <= |x| && j <= |y| && OldText(edits) == x[..i] && NewText(edits) == y[..j]
    && (exact ==> Count(Tags(edits), Keep) + Lcs(x[i..], y[j..]) == Lcs(x, y))
  }

  lemma WalkedNext(edits: seq<Edit>, x: seq<string>, y: seq<string>, i: nat, j: nat, exact: bool, e: Edit)
    requires Walked(edits, x, y, i, j, exact)
    requires e.tag != Insert ==> i < |x| && e.line == x[i]
    requires e.tag != Delete ==> j < |y| && e.line == y[j]
    requires exact && e.tag == Delete ==> Lcs(x[i..], y[j..]) == Lcs(x[i + 1..], y[j..])
    requires exact && e.tag == Insert ==> Lcs(x[i..], y[j..]) == Lcs(x[i..], y[j + 1..])
    ensures Walked(edits + [e], x, y, if e.tag == Insert then i else i + 1, if e.tag == Delete then j else j + 1, exact)
  {
    Snoc(edits, e);
    CountAppend(Tags(edits), [e.tag], Keep);
    assert [e.tag][1..] == [];
    if i < |x| {
      assert x[..i + 1] == x[..i] + [x[i]];
    }
    if j < |y| {
      assert y[..j + 1] == y[..j] + [y[j]];
    }
    if e.tag == Keep {
      CellStep(x, y, i, j);
    }
  }

  lemma DeleteKeepsLcs(x: seq<string>, y: seq<string>, i: nat, j: nat)
    requires i < |x| && j <= |y|
    requires j < |y| ==> x[i] != y[j] && Lcs(x[i + 1..], y[j..]) >= Lcs(x[i..], y[j + 1..])
    ensures Lcs(x[i..], y[j..]) == Lcs(x[i + 1..], y[j..])
  {
    if j < |y| {
      CellStep(x, y, i, j);
    } else {
      EdgeCells(x, y);
    }
  }

  lemma InsertKeepsLcs(x: seq<string>, y: seq<string>, i: nat, j: nat)
    requires i <= |x| && j < |y|
    requires i < |x| ==> x[i] != y[j] && Lcs(x[i..], y[j + 1..]) > Lcs(x[i + 1..], y[j..])
    ensures Lcs(x[i..], y[j..]) == Lcs(x[i..], y[j + 1..])
  {
    if i < |x| {
      CellStep(x, y, i, j);
    } else {
      EdgeCells(x, y);
    }
  }

  /** Without a table the walk deletes whatever does not match, and is still a script. */
  method Walk(x: seq<string>, y: seq<string>, exact: bool, lcs: array2<nat>) returns (edits: seq<Edit>)
    requires exact ==> lcs.Length0 == |x| + 1 && lcs.Length1 == |y| + 1
    requires exact ==> forall i, j :: 0 <= i <= |x| && 0 <= j <= |y| ==> lcs[i, j] == Lcs(x[i..], y[j..])
    ensures Walked(edits, x, y, |x|, |y|, exact)
  {
    edits := [];
    var i, j := 0, 0;
    WalkStarts(x, y, exact);
    while i < |x| || j < |y|
      invariant 0 <= i <= |x| && 0 <= j <= |y| && Walked(edits, x, y, i, j, exact)
      decreases |x| - i + |y| - j
    {
      if i < |x| && j < |y| && x[i] == y[j] {
        WalkedNext(edits, x, y, i, j, exact, Edit(Keep, x[i]));
        edits := edits + [Edit(Keep, x[i])];
        i, j := i + 1, j + 1;
      } else if i < |x| && (j == |y| || !exact || lcs[i + 1, j] >= lcs[i, j + 1]) {
        if exact { DeleteKeepsLcs(x, y, i, j); }
        WalkedNext(edits, x, y, i, j, exact, Edit(Delete, x[i]));
        edits := edits + [Edit(Delete, x[i])];
        i := i + 1;
      } else {
        if exact { InsertKeepsLcs(x, y, i, j); }
        WalkedNext(edits, x, y, i, j, exact, Edit(Insert, y[j]));
        edits := edits + [Edit(Insert, y[j])];
        j := j + 1;
      }
    }
  }

  lemma WalkStarts(x: seq<string>, y: seq<string>, exact: bool)
    ensures Walked([], x, y, 0, 0, exact)
  {
    assert x[0..] == x && y[0..] == y;
  }

  function Kept(lines: seq<string>): (r: seq<Edit>)
    ensures |r| == |lines| && forall i :: 0 <= i < |r| ==> r[i] == Edit(Keep, lines[i])
  {
    seq(|lines|, i requires 0 <= i < |lines| => Edit(Keep, lines[i]))
  }

  lemma NoText()
    ensures OldText([]) == [] && NewText([]) == [] && Tags([]) == []
  {}

  lemma {:induction false} TextAppend(x: seq<Edit>, y: seq<Edit>)
    ensures OldText(x + y) == OldText(x) + OldText(y) && NewText(x + y) == NewText(x) + NewText(y)
    ensures Tags(x + y) == Tags(x) + Tags(y)
  {
    hide OldText;
    hide NewText;
    hide Tags;
    if y == [] {
      NoText();
      assert x + y == x;
    } else {
      var front, e := y[..|y| - 1], y[|y| - 1];
      TextAppend(x, front);
      assert y == front + [e] && x + y == x + front + [e];
      Snoc(x + front, e);
      Snoc(front, e);
      S.Concat(OldText(x), OldText(front), if e.tag == Insert then [] else [e.line]);
      S.Concat(NewText(x), NewText(front), if e.tag == Delete then [] else [e.line]);
      S.Concat(Tags(x), Tags(front), [e.tag]);
    }
  }

  lemma {:induction false} KeptText(lines: seq<string>)
    ensures OldText(Kept(lines)) == lines == NewText(Kept(lines)) && Count(Tags(Kept(lines)), Keep) == |lines|
  {
    if lines != [] {
      var front, last := lines[..|lines| - 1], lines[|lines| - 1];
      KeptText(front);
      assert Kept(lines) == Kept(front) + [Edit(Keep, last)] && lines == front + [last];
      Snoc(Kept(front), Edit(Keep, last));
      CountAppend(Tags(Kept(front)), [Keep], Keep);
      assert [Keep][1..] == [];
    }
  }

  method Edits(a: seq<string>, b: seq<string>) returns (edits: seq<Edit>)
    ensures OldText(edits) == a && NewText(edits) == b
    ensures TrimmedCells(a, b) <= MAX_TABLE_CELLS ==> Count(Tags(edits), Keep) == Lcs(a, b)
  {
    hide OldText;
    hide NewText;
    hide Tags;
    hide Count;
    hide Lcs;
    hide PrefixLength;
    hide SuffixLength;
    hide SharedEnds;
    hide TrimmedCells;
    var start := CommonPrefix(a, b);
    var end := CommonSuffix(a[start..], b[start..]);
    TrimmedEnds(a, b, start, end);
    var x, y := a[start..|a| - end], b[start..|b| - end];
    TrimmedSize(a, b, |x|, |y|);
    var exact := |x| * |y| <= MAX_TABLE_CELLS;
    var lcs := new nat[0, 0];
    if exact {
      lcs := FillTable(x, y);
    }
    var middle := Walk(x, y, exact, lcs);
    edits := Kept(a[..start]) + middle + Kept(a[|a| - end..]);
    Whole(a[..start], x, y, a[|a| - end..], middle, exact);
  }

  lemma Whole(p: seq<string>, x: seq<string>, y: seq<string>, s: seq<string>, middle: seq<Edit>, exact: bool)
    requires Walked(middle, x, y, |x|, |y|, exact)
    ensures var edits := Kept(p) + middle + Kept(s);
            && OldText(edits) == p + x + s && NewText(edits) == p + y + s
            && (exact ==> Count(Tags(edits), Keep) == Lcs(p + x + s, p + y + s))
  {
    TextAppend(Kept(p), middle);
    TextAppend(Kept(p) + middle, Kept(s));
    KeptText(p);
    KeptText(s);
    CountAppend(Tags(Kept(p)), Tags(middle), Keep);
    CountAppend(Tags(Kept(p)) + Tags(middle), Tags(Kept(s)), Keep);
    LcsTrim(p, x, y, s);
    assert x[..|x|] == x && y[..|y|] == y;
    EdgeCells(x, y);
  }

  // --- Hunks ---

  /** A hunk as printed: first line and length on each side. An empty side is printed one line further on. */
  datatype PrintedHunk = PrintedHunk(aStart: nat, aLen: nat, bStart: nat, bLen: nat, lines: seq<Line>)

  /** The stretch of lines a printed hunk speaks of. */
  function Meant(h: PrintedHunk): Hunk {
    Hunk(RangeOf(if h.aStart == 0 then 0 else h.aStart - 1, h.aLen), RangeOf(if h.bStart == 0 then 0 else h.bStart - 1, h.bLen),
         h.lines)
  }

  function AllMeant(hunks: seq<PrintedHunk>): (r: seq<Hunk>)
    ensures |r| == |hunks| && forall k :: 0 <= k < |r| ==> r[k] == Meant(hunks[k])
  {
    seq(|hunks|, k requires 0 <= k < |hunks| => Meant(hunks[k]))
  }

  function Print(edits: seq<Edit>, from: nat, to: nat): PrintedHunk
    requires from <= to <= |edits|
  {
    PrintedHunk(OldCount(edits[..from]) + 1, OldCount(edits[from..to]), NewCount(edits[..from]) + 1,
                NewCount(edits[from..to]), Lines(Numbered(edits[from..to])))
  }

  lemma {:induction false} SameSides(ops: seq<Op>, more: seq<Op>)
    requires |ops| == |more| && forall k :: 0 <= k < |ops| ==> ops[k].tag == more[k].tag && ops[k].line == more[k].line
    ensures OldSide(ops) == OldSide(more) && NewSide(ops) == NewSide(more) && Lines(ops) == Lines(more)
  {
    if ops != [] {
      SameSides(ops[1..], more[1..]);
    }
  }

  lemma PrintMeans(edits: seq<Edit>, g: Group)
    requires g.start < g.end <= |edits|
    ensures Meant(Print(edits, From(g), To(g, |edits|))) == GroupHunk(Numbered(edits), g)
  {
    hide OldCount;
    hide NewCount;
    hide OldSide;
    hide NewSide;
    var from, to := From(g), To(g, |edits|);
    var hunk := Numbered(edits)[from..to];
    CountsAreSides(edits[from..to]);
    SameSides(hunk, Numbered(edits[from..to]));
    assert hunk[0] == Numbered(edits)[from];
  }

  /** The first `k` changes lie in groups whose hunks do not overlap, the last ending with change `k - 1`. */
  ghost predicate Gathered(edits: seq<Edit>, changes: seq<nat>, k: nat, groups: seq<Group>) {
    && k <= |changes| && Fitting(edits, groups, LastEnd(changes, k)) && Separate(groups)
    && forall c :: 0 <= c < k ==> Covered(groups, changes[c])
  }

  ghost predicate EditFits(edits: seq<Edit>, g: Group) {
    g.start < g.end <= |edits| && edits[g.start].tag != Keep && edits[g.end - 1].tag != Keep
  }

  ghost predicate Fitting(edits: seq<Edit>, groups: seq<Group>, end: nat) {
    forall g :: 0 <= g < |groups| ==> EditFits(edits, groups[g]) && groups[g].end <= end
  }

  function LastEnd(changes: seq<nat>, k: nat): nat {
    if 0 < k <= |changes| then changes[k - 1] + 1 else 0
  }

  /** The positions of the changes, in order. */
  ghost predicate Listed(edits: seq<Edit>, changes: seq<nat>) {
    S.Increasing(changes) && forall c :: 0 <= c < |changes| ==> changes[c] < |edits| && edits[changes[c]].tag != Keep
  }

  lemma SeparateNext(groups: seq<Group>, end: nat, g: Group)
    requires Separate(groups) && forall h :: 0 <= h < |groups| ==> groups[h].end <= end
    requires groups != [] ==> end + 2 * CONTEXT <= g.start
    ensures Separate(groups + [g])
  {}

  lemma FittingNext(edits: seq<Edit>, groups: seq<Group>, end: nat, g: Group)
    requires Fitting(edits, groups, end) && end <= g.end && EditFits(edits, g)
    ensures Fitting(edits, groups + [g], g.end)
  {}

  lemma GatherNext(edits: seq<Edit>, changes: seq<nat>, k: nat, last: nat, groups: seq<Group>)
    requires Listed(edits, changes) && k <= last < |changes| && Gathered(edits, changes, k, groups)
    requires k > 0 ==> changes[k] - changes[k - 1] > 2 * CONTEXT
    ensures Gathered(edits, changes, last + 1, groups + [Group(changes[k], changes[last] + 1)])
  {
    var g := Group(changes[k], changes[last] + 1);
    var more := groups + [g];
    assert changes[k] <= changes[last];
    assert groups != [] ==> EditFits(edits, groups[0]) && k > 0;
    SeparateNext(groups, LastEnd(changes, k), g);
    FittingNext(edits, groups, LastEnd(changes, k), g);
    hide Separate;
    hide Fitting;
    forall c | 0 <= c < last + 1 ensures Covered(more, changes[c]) {
      CoveredNext(changes, k, last, groups, c);
    }
  }

  lemma CoveredNext(changes: seq<nat>, k: nat, last: nat, groups: seq<Group>, c: nat)
    requires S.Increasing(changes) && k <= last < |changes| && c <= last
    requires c < k ==> Covered(groups, changes[c])
    ensures Covered(groups + [Group(changes[k], changes[last] + 1)], changes[c])
  {
    var more := groups + [Group(changes[k], changes[last] + 1)];
    if c < k {
      var g :| 0 <= g < |groups| && groups[g].start <= changes[c] < groups[g].end;
      assert more[g] == groups[g];
    } else {
      assert changes[k] <= changes[c] <= changes[last];
      assert more[|groups|].start <= changes[c] < more[|groups|].end;
    }
  }

  function PrintAll(edits: seq<Edit>, groups: seq<Group>): (r: seq<PrintedHunk>)
    requires Within(groups, |edits|)
    ensures |r| == |groups|
    ensures forall g :: 0 <= g < |r| ==> r[g] == Print(edits, From(groups[g]), To(groups[g], |edits|))
  {
    seq(|groups|, g requires 0 <= g < |groups| => Print(edits, From(groups[g]), To(groups[g], |edits|)))
  }

  method ListChanges(edits: seq<Edit>) returns (changes: seq<nat>)
    ensures Listed(edits, changes) && forall i: nat :: i < |edits| && edits[i].tag != Keep ==> i in changes
  {
    changes := [];
    for index := 0 to |edits|
      invariant S.Increasing(changes) && forall c :: 0 <= c < |changes| ==> changes[c] < index && edits[changes[c]].tag != Keep
      invariant forall i: nat :: i < index && edits[i].tag != Keep ==> i in changes
    {
      if edits[index].tag != Keep {
        changes := changes + [index];
      }
    }
  }

  /** The hunks are those around groups that miss no change and do not overlap, and that more unchanged lines would part. */
  ghost predicate Shows(edits: seq<Edit>, groups: seq<Group>, out: seq<PrintedHunk>) {
    Within(groups, |edits|) && out == PrintAll(edits, groups) && Pending(Numbered(edits), groups, 0) && AllDense(edits, groups)
  }

  ghost predicate AllDense(edits: seq<Edit>, groups: seq<Group>) {
    forall g :: 0 <= g < |groups| ==> Dense(edits, groups[g])
  }

  /** Among any six operations of a group one is a change. */
  ghost predicate Dense(edits: seq<Edit>, g: Group) {
    forall i: nat :: g.start <= i && i + 6 <= g.end ==> ChangeAmongSix(edits, i)
  }

  ghost predicate ChangeAmongSix(edits: seq<Edit>, i: nat) {
    exists k: nat :: i <= k < i + 6 && k < |edits| && edits[k].tag != Keep
  }

  ghost predicate Chained(changes: seq<nat>, k: nat, last: nat) {
    forall c :: k <= c < last < |changes| ==> changes[c + 1] <= changes[c] + 6
  }

  lemma NoneDense(edits: seq<Edit>)
    ensures AllDense(edits, [])
  {}

  lemma DenseNext(edits: seq<Edit>, groups: seq<Group>, g: Group)
    requires AllDense(edits, groups) && Dense(edits, g)
    ensures AllDense(edits, groups + [g])
  {}

  /** The first change at or after a place in a chain is less than six operations on. */
  lemma {:induction false} ChainReaches(edits: seq<Edit>, changes: seq<nat>, k: nat, last: nat, i: nat)
    requires Listed(edits, changes) && k <= last < |changes| && Chained(changes, k, last)
    requires changes[k] <= i && i + 6 <= changes[last] + 1
    ensures ChangeAmongSix(edits, i)
    decreases last - k
  {
    if changes[k] == i {
      assert i <= changes[k] < i + 6;
    } else {
      assert changes[k + 1] <= changes[k] + 6;
      if changes[k + 1] <= i {
        ChainReaches(edits, changes, k + 1, last, i);
      } else {
        assert i <= changes[k + 1] < i + 6;
      }
    }
  }

  lemma ChainIsDense(edits: seq<Edit>, changes: seq<nat>, k: nat, last: nat)
    requires Listed(edits, changes) && k <= last < |changes| && Chained(changes, k, last)
    ensures Dense(edits, Group(changes[k], changes[last] + 1))
  {
    forall i: nat | changes[k] <= i && i + 6 <= changes[last] + 1 ensures ChangeAmongSix(edits, i) {
      ChainReaches(edits, changes, k, last, i);
    }
  }

  method PrintHunks(edits: seq<Edit>) returns (out: seq<PrintedHunk>)
    ensures exists groups :: Shows(edits, groups, out)
  {
    hide Gathered;
    hide Listed;
    hide Pending;
    hide Print;
    hide AllDense;
    hide Dense;
    NoneDense(edits);
    out := [];
    ghost var groups: seq<Group> := [];
    var changes := ListChanges(edits);
    var k := 0;
    GatherStarts(edits, changes);
    while k < |changes|
      invariant 0 <= k <= |changes| && Gathered(edits, changes, k, groups)
      invariant Within(groups, |edits|) && out == PrintAll(edits, groups) && AllDense(edits, groups)
      invariant 0 < k < |changes| ==> changes[k] - changes[k - 1] > 2 * CONTEXT
    {
      var last := k;
      while last + 1 < |changes| && changes[last + 1] - changes[last] <= 2 * CONTEXT
        invariant k <= last < |changes| && Chained(changes, k, last)
      {
        last := last + 1;
      }
      var from := if changes[k] < CONTEXT then 0 else changes[k] - CONTEXT;
      var to := if changes[last] + CONTEXT + 1 > |edits| then |edits| else changes[last] + CONTEXT + 1;
      ghost var g := Group(changes[k], changes[last] + 1);
      GatherNext(edits, changes, k, last, groups);
      ChainIsDense(edits, changes, k, last);
      DenseNext(edits, groups, g);
      ChangesInOrder(edits, changes, k, last);
      assert from == From(g) && to == To(g, |edits|);
      out := out + [Print(edits, from, to)];
      groups := groups + [g];
      k := last + 1;
    }
    AllGathered(edits, Numbered(edits), changes, groups);
    assert Shows(edits, groups, out);
  }

  lemma ChangesInOrder(edits: seq<Edit>, changes: seq<nat>, k: nat, last: nat)
    requires Listed(edits, changes) && k <= last < |changes|
    ensures changes[k] <= changes[last] < |edits|
  {}

  lemma GatherStarts(edits: seq<Edit>, changes: seq<nat>)
    ensures Gathered(edits, changes, 0, [])
  {}

  lemma AllGathered(edits: seq<Edit>, ops: seq<Op>, changes: seq<nat>, groups: seq<Group>)
    requires Gathered(edits, changes, |changes|, groups)
    requires |ops| == |edits| && forall k :: 0 <= k < |ops| ==> ops[k].tag == edits[k].tag
    requires forall i: nat :: i < |edits| && edits[i].tag != Keep ==> i in changes
    ensures Pending(ops, groups, 0)
  {
    forall g | 0 <= g < |groups| ensures GroupFits(ops, groups[g]) {
      assert EditFits(edits, groups[g]);
    }
    forall i: nat | Changed(ops, i) ensures Covered(groups, i) {
      assert i in changes;
    }
  }

  // --- The numbers as printed ---

  /** The hunk with its numbers as they are printed. */
  function AsPrinted(h: PrintedHunk): Hunk {
    Hunk(Span(h.aStart, h.aLen), Span(h.bStart, h.bLen), h.lines)
  }

  function AllPrinted(hunks: seq<PrintedHunk>): (r: seq<Hunk>)
    ensures |r| == |hunks| && forall k :: 0 <= k < |r| ==> r[k] == AsPrinted(hunks[k])
  {
    seq(|hunks|, k requires 0 <= k < |hunks| => AsPrinted(hunks[k]))
  }

  lemma PrintCounts(edits: seq<Edit>, g: Group)
    requires g.start < g.end <= |edits|
    ensures var ops, from, to := Numbered(edits), From(g), To(g, |edits|);
            var h := Print(edits, from, to);
            && h.aStart == Olds(ops, from) + 1 && h.bStart == News(ops, from) + 1
            && h.aLen == |OldSide(ops[from..to])| && h.bLen == |NewSide(ops[from..to])|
  {
    hide OldCount;
    hide NewCount;
    hide OldSide;
    hide NewSide;
    var from, to := From(g), To(g, |edits|);
    CountsAreSides(edits[..from]);
    CountsAreSides(edits[from..to]);
    NumberedPrefix(edits, from);
    SameSides(Numbered(edits)[from..to], Numbered(edits[from..to]));
  }

  /** Next to a group nothing has changed. */
  lemma KeptBeside(ops: seq<Op>, groups: seq<Group>, g: nat, i: nat)
    requires Pending(ops, groups, 0) && g < |groups| && i < |ops|
    requires i + 1 == groups[g].start || i == groups[g].end
    ensures ops[i].tag == Keep
  {
    forall h | 0 <= h < |groups| ensures !(groups[h].start <= i < groups[h].end) {
      if h < g {
        assert groups[h].end + 2 * CONTEXT <= groups[g].start;
      } else if g < h {
        assert groups[g].end + 2 * CONTEXT <= groups[h].start;
      }
    }
    assert !Covered(groups, i);
  }

  lemma KeepShows(ops: seq<Op>, k: nat)
    requires k < |ops| && ops[k].tag == Keep
    ensures OldSide(ops) != [] && NewSide(ops) != []
  {
    assert ops == ops[..k] + [ops[k]] + ops[k + 1..];
    SidesStep(ops[..k], ops[k]);
    SidesAppend(ops[..k] + [ops[k]], ops[k + 1..]);
  }

  /** Thanks to its context, a hunk has an empty side only if that whole text is empty. */
  lemma EmptySideIsWhole(ops: seq<Op>, groups: seq<Group>, g: nat)
    requires Pending(ops, groups, 0) && g < |groups| && groups[g].start < groups[g].end <= |ops|
    ensures var hunk := ops[From(groups[g])..To(groups[g], |ops|)];
            && (OldSide(hunk) == [] ==> OldSide(ops) == []) && (NewSide(hunk) == [] ==> NewSide(ops) == [])
  {
    hide OldSide;
    hide NewSide;
    hide Pending;
    var here := groups[g];
    var from, to := From(here), To(here, |ops|);
    if here.start > 0 {
      KeptBeside(ops, groups, g, here.start - 1);
      KeepShows(ops[from..to], here.start - 1 - from);
    } else if here.end < |ops| {
      KeptBeside(ops, groups, g, here.end);
      KeepShows(ops[from..to], here.end - from);
    } else {
      assert ops[from..to] == ops;
    }
  }

  predicate ReadsAlike(h: Hunk, h': Hunk) {
    && RangeStart(h.old_) == RangeStart(h'.old_) && RangeLength(h.old_) == RangeLength(h'.old_)
    && RangeStart(h.new_) == RangeStart(h'.new_) && RangeLength(h.new_) == RangeLength(h'.new_)
    && h.lines == h'.lines
  }

  lemma {:induction false} AlikePatch(hunks: seq<Hunk>, hunks': seq<Hunk>, a: seq<string>, at: nat, done: nat)
    requires |hunks| == |hunks'| && forall k :: 0 <= k < |hunks| ==> ReadsAlike(hunks[k], hunks'[k])
    requires at <= |a|
    ensures Patch(hunks, a, at, done) == Patch(hunks', a, at, done)
    decreases |hunks|
  {
    hide RangeStart;
    hide RangeLength;
    hide OldLines;
    hide NewLines;
    if hunks != [] {
      var h := hunks[0];
      assert ReadsAlike(h, hunks'[0]);
      var end := RangeStart(h.old_) + RangeLength(h.old_);
      if end <= |a| {
        AlikePatch(hunks[1..], hunks'[1..], a, end, RangeStart(h.new_) + RangeLength(h.new_));
      }
    }
  }

  /** With lines on both sides the numbers printed are the numbers meant. */
  lemma NumbersMeant(h: PrintedHunk)
    requires h.aStart > 0 && h.bStart > 0 && h.aLen > 0 && h.bLen > 0
    ensures ReadsAlike(AsPrinted(h), Meant(h))
  {}

  lemma FirstGroup(ops: seq<Op>, groups: seq<Group>)
    requires Pending(ops, groups, 0) && ops != [] && ops[0].tag != Keep
    ensures groups != [] && groups[0].start == 0
  {
    assert Changed(ops, 0) && Covered(groups, 0);
    forall g | 0 < g < |groups| ensures groups[g].start > 0 {
      assert groups[0].end + 2 * CONTEXT <= groups[g].start;
    }
  }

  /** Between an empty and a non-empty text there is nothing to keep. */
  lemma OneSided(ops: seq<Op>)
    requires OldSide(ops) == [] || NewSide(ops) == []
    ensures forall k :: 0 <= k < |ops| ==> ops[k].tag != Keep
  {
    forall k | 0 <= k < |ops| ensures ops[k].tag != Keep {
      if ops[k].tag == Keep {
        KeepShows(ops, k);
      }
    }
  }

  /** The first hunk between an empty and a non-empty text starts both sides at line 1. */
  lemma FirstHunk(edits: seq<Edit>, groups: seq<Group>, out: seq<PrintedHunk>)
    requires Shows(edits, groups, out) && (OldText(edits) == [] <==> NewText(edits) != [])
    ensures out != [] && out[0].aStart == 1 && out[0].bStart == 1
    ensures (out[0].aLen == 0 <==> OldText(edits) == []) && (out[0].bLen == 0 <==> NewText(edits) == [])
  {
    var ops := Numbered(edits);
    OneSided(ops);
    FirstGroup(ops, groups);
    EmptySideIsWhole(ops, groups, 0);
    PrintCounts(edits, groups[0]);
    Stretch(ops, 0, To(groups[0], |ops|));
    assert ops[..0] == [];
  }

  /** An offset by one line is refused in either direction. */
  lemma OffByOne(hunks: seq<PrintedHunk>, a: seq<string>, b: seq<string>)
    requires hunks != [] && hunks[0].aStart == 1 && hunks[0].bStart == 1
    requires (hunks[0].aLen == 0 <==> a == []) && (hunks[0].bLen == 0 <==> b == []) && (a == [] <==> b != [])
    ensures Patch(AllPrinted(hunks), a, 0, 0) == None && Patch(FlipHunks(AllPrinted(hunks)), b, 0, 0) == None
  {
    hide OldLines;
    hide NewLines;
    assert AllPrinted(hunks)[0] == AsPrinted(hunks[0]);
  }

  /** With lines in both texts every hunk has lines on both sides. */
  lemma BothSides(edits: seq<Edit>, groups: seq<Group>, out: seq<PrintedHunk>, k: nat)
    requires Shows(edits, groups, out) && OldText(edits) != [] && NewText(edits) != [] && k < |out|
    ensures ReadsAlike(AsPrinted(out[k]), Meant(out[k]))
  {
    EmptySideIsWhole(Numbered(edits), groups, k);
    PrintCounts(edits, groups[k]);
    NumbersMeant(out[k]);
  }

  lemma FlippedAlike(hunks: seq<Hunk>, hunks': seq<Hunk>)
    requires |hunks| == |hunks'| && forall k :: 0 <= k < |hunks| ==> ReadsAlike(hunks[k], hunks'[k])
    ensures forall k :: 0 <= k < |hunks| ==> ReadsAlike(FlipHunks(hunks)[k], FlipHunks(hunks')[k])
  {
    forall k | 0 <= k < |hunks| ensures ReadsAlike(FlipHunks(hunks)[k], FlipHunks(hunks')[k]) {
      assert ReadsAlike(hunks[k], hunks'[k]);
    }
  }

  /** The hunks as printed patch, in either direction, exactly when both texts are empty or neither is. */
  lemma PrintedExactIff(edits: seq<Edit>, groups: seq<Group>, out: seq<PrintedHunk>, a: seq<string>, b: seq<string>)
    requires Shows(edits, groups, out) && OldText(edits) == a && NewText(edits) == b
    requires Patch(AllMeant(out), a, 0, 0) == Some(b) && Patch(FlipHunks(AllMeant(out)), b, 0, 0) == Some(a)
    ensures Patch(AllPrinted(out), a, 0, 0) == Some(b) <==> (a == [] <==> b == [])
    ensures Patch(FlipHunks(AllPrinted(out)), b, 0, 0) == Some(a) <==> (a == [] <==> b == [])
  {
    if a == [] && b == [] {
      OneSided(Numbered(edits));
      NothingPrinted(edits, groups, out);
    } else if a == [] || b == [] {
      FirstHunk(edits, groups, out);
      OffByOne(out, a, b);
    } else {
      forall k | 0 <= k < |out| ensures ReadsAlike(AllPrinted(out)[k], AllMeant(out)[k]) {
        BothSides(edits, groups, out, k);
      }
      AlikePatch(AllPrinted(out), AllMeant(out), a, 0, 0);
      FlippedAlike(AllPrinted(out), AllMeant(out));
      AlikePatch(FlipHunks(AllPrinted(out)), FlipHunks(AllMeant(out)), b, 0, 0);
    }
  }

  lemma NothingPrinted(edits: seq<Edit>, groups: seq<Group>, out: seq<PrintedHunk>)
    requires Shows(edits, groups, out) && OldText(edits) == [] && NewText(edits) == []
    ensures out == []
  {
    var ops := Numbered(edits);
    if out != [] {
      OneSided(ops);
      assert GroupFits(ops, groups[0]);
      KeepOrChange(ops, groups[0].start);
    }
  }

  lemma KeepOrChange(ops: seq<Op>, k: nat)
    requires k < |ops|
    ensures OldSide(ops) != [] || NewSide(ops) != []
  {
    assert ops == ops[..k] + [ops[k]] + ops[k + 1..];
    SidesStep(ops[..k], ops[k]);
    SidesAppend(ops[..k] + [ops[k]], ops[k + 1..]);
  }

  lemma OneInsertText(edits: seq<Edit>)
    requires edits == [Edit(Insert, "x")]
    ensures OldText(edits) == [] && NewText(edits) == ["x"]
  {
    NoText();
    Snoc([], Edit(Insert, "x"));
    assert [] + edits == edits && [] + ["x"] == ["x"];
  }

  lemma OneInsertShown(edits: seq<Edit>, groups: seq<Group>)
    requires edits == [Edit(Insert, "x")] && groups == [Group(0, 1)]
    ensures Shows(edits, groups, [PrintedHunk(1, 0, 1, 1, [Line(Insert, "x")])])
  {
    SnocCounts([], edits[0]);
    assert edits[..0] == [] && edits[0..1] == edits == [] + edits;
    assert Numbered(edits) == [Op(Insert, "x", 0, 0)];
    assert Lines(Numbered(edits)) == [Line(Insert, "x")];
    assert PrintAll(edits, groups) == [Print(edits, 0, 1)];
    OneGroup(Numbered(edits), groups);
  }

  lemma OneGroup(ops: seq<Op>, groups: seq<Group>)
    requires |ops| == 1 && ops[0].tag == Insert && groups == [Group(0, 1)]
    ensures Pending(ops, groups, 0)
  {
    assert groups[0].start <= 0 < groups[0].end && Covered(groups, 0);
  }

  /** The failing input: one line inserted into an empty text is printed as `-1,0 +1,1`, where the format puts `-0,0`. */
  lemma EmptySideOffByOne(edits: seq<Edit>, groups: seq<Group>, out: seq<PrintedHunk>)
    requires edits == [Edit(Insert, "x")] && groups == [Group(0, 1)]
    requires out == [PrintedHunk(1, 0, 1, 1, [Line(Insert, "x")])]
    ensures OldText(edits) == [] && NewText(edits) == ["x"] && Shows(edits, groups, out)
    ensures Patch(AllMeant(out), [], 0, 0) == Some(["x"]) && Patch(AllPrinted(out), [], 0, 0) == None
  {
    OneInsertText(edits);
    OneInsertShown(edits, groups);
    hide OldText;
    hide NewText;
    hide Shows;
    DiffShown(edits, groups, out, [], ["x"]);
    PrintedExactIff(edits, groups, out, [], ["x"]);
    OffByOne(out, [], ["x"]);
  }

  // --- Main result ---

  /** In the exact and the greedy branch alike the hunks turn `a` into `b`, and read in reverse `b` into `a`: as meant
      always, as printed exactly when both texts are empty or neither is. With a table they show the fewest changed lines
      possible. */
  method Diff(a: seq<string>, b: seq<string>) returns (out: seq<PrintedHunk>)
    ensures Patch(AllMeant(out), a, 0, 0) == Some(b) && Patch(FlipHunks(AllMeant(out)), b, 0, 0) == Some(a)
    ensures Patch(AllPrinted(out), a, 0, 0) == Some(b) <==> (a == [] <==> b == [])
    ensures Patch(FlipHunks(AllPrinted(out)), b, 0, 0) == Some(a) <==> (a == [] <==> b == [])
    ensures TrimmedCells(a, b) <= MAX_TABLE_CELLS ==> ChangedLines(AllMeant(out)) == |a| + |b| - 2 * Lcs(a, b)
  {
    var edits := Edits(a, b);
    out := PrintHunks(edits);
    ghost var groups :| Shows(edits, groups, out);
    DiffShown(edits, groups, out, a, b);
    PrintedExactIff(edits, groups, out, a, b);
  }

  lemma DiffShown(edits: seq<Edit>, groups: seq<Group>, out: seq<PrintedHunk>, a: seq<string>, b: seq<string>)
    requires Shows(edits, groups, out) && OldText(edits) == a && NewText(edits) == b
    ensures Patch(AllMeant(out), a, 0, 0) == Some(b) && Patch(FlipHunks(AllMeant(out)), b, 0, 0) == Some(a)
    ensures ChangedLines(AllMeant(out)) == |a| + |b| - 2 * Count(Tags(edits), Keep)
  {
    var ops := Numbered(edits);
    forall g | 0 <= g < |groups| ensures Meant(out[g]) == GroupHunk(ops, groups[g]) {
      PrintMeans(edits, groups[g]);
    }
    assert AllMeant(out) == HunksOf(ops, groups);
    NumberedIsScript(edits);
    PatchesBothWays(ops, groups, a, b);
    ChangesShown(ops, groups, 0);
    assert ops[0..] == ops;
    ChangesCounted(ops);
    SidesWalk(ops);
    WalkLengths(TagsOf(ops), a, b);
  }
}
