/** The interceptors' patches of `fetch` and of `node:http`: a chain of replacements with lazy deletion, so they may be
    uninstalled in any order. Functions are numbered: `0..slots-1` are the originals, one for each patchable name, and
    patches get larger numbers as they are made. */
module PatchChains {
  import opened Options
  import opened Sorting

  datatype Patch = Patch(active: bool, previous: nat)

  /** The patch registry, and the function each name currently refers to. */
  datatype Table = Table(patches: map<nat, Patch>, installed: seq<nat>, next: nat)

  /** A patch replaces an older function, down to an original. */
  ghost predicate Rooted(patches: map<nat, Patch>, slots: nat) {
    forall p | p in patches :: slots <= p && PreviousFits(patches, slots, p)
  }

  ghost predicate PreviousFits(patches: map<nat, Patch>, slots: nat, p: nat)
    requires p in patches
  {
    patches[p].previous < p && (patches[p].previous < slots || patches[p].previous in patches)
  }

  /** The patches met going down from `f`. */
  function Chain(patches: map<nat, Patch>, f: nat): seq<nat> {
    if f in patches && patches[f].previous < f then [f] + Chain(patches, patches[f].previous) else []
  }

  /** The original at the bottom. */
  function Root(patches: map<nat, Patch>, f: nat): nat {
    if f in patches && patches[f].previous < f then Root(patches, patches[f].previous) else f
  }

  predicate IsActive(patches: map<nat, Patch>, f: nat) {
    f in patches && patches[f].active
  }

  /** The active patches met going down from `f`, nearest first. */
  function Actives(patches: map<nat, Patch>, f: nat): seq<nat> {
    Filter(Chain(patches, f), (p: nat) => IsActive(patches, p))
  }

  function TopOf(stack: seq<nat>, original: nat): nat {
    if stack == [] then original else stack[0]
  }

  method ActiveFetch(patches: map<nat, Patch>, candidate: nat, ghost slots: nat) returns (current: nat)
    requires Rooted(patches, slots)
    ensures current == TopOf(Actives(patches, candidate), Root(patches, candidate))
    ensures Actives(patches, current) == Actives(patches, candidate) && Root(patches, current) == Root(patches, candidate)
  {
    current := candidate;
    while current in patches && !patches[current].active
      invariant Actives(patches, current) == Actives(patches, candidate)
      invariant Root(patches, current) == Root(patches, candidate)
      decreases current
    {
      assert PreviousFits(patches, slots, current);
      current := patches[current].previous;
    }
    if current in patches {
      assert PreviousFits(patches, slots, current);
    }
  }

  // --- The table ---

  /** What a name's patches amount to: the active ones, most recent first. */
  function Stack(t: Table, slot: nat): seq<nat>
    requires slot < |t.installed|
  {
    Actives(t.patches, t.installed[slot])
  }

  /** Each name refers to its newest active patch or its original, and no active patch is lost below it. */
  ghost predicate Sound(t: Table) {
    && Rooted(t.patches, |t.installed|) && |t.installed| <= t.next && (forall p | p in t.patches :: p < t.next)
    && (forall slot: nat :: slot < |t.installed| ==> SlotSound(t, slot))
    && (forall p: nat :: IsActive(t.patches, p) ==> Reachable(t, p))
  }

  ghost predicate SlotSound(t: Table, slot: nat)
    requires slot < |t.installed|
  {
    t.installed[slot] == TopOf(Stack(t, slot), slot) && Root(t.patches, t.installed[slot]) == slot
  }

  ghost predicate Reachable(t: Table, p: nat) {
    Root(t.patches, p) < |t.installed| && p in Stack(t, Root(t.patches, p))
  }

  function Originals(slots: nat): Table {
    Table(map[], Iota(slots), slots)
  }

  function Install(t: Table, slot: nat): Table
    requires slot < |t.installed|
  {
    Table(t.patches[t.next := Patch(true, t.installed[slot])], t.installed[slot := t.next], t.next + 1)
  }

  function Uninstall(t: Table, p: nat): Table
    requires p in t.patches && Root(t.patches, p) < |t.installed|
  {
    var patches, slot := t.patches[p := t.patches[p].(active := false)], Root(t.patches, p);
    var below := patches[p].previous;
    t.(patches := patches,
       installed := if t.installed[slot] == p then t.installed[slot := TopOf(Actives(patches, below), Root(patches, below))]
                    else t.installed)
  }

  lemma {:induction false} ChainGoesDown(patches: map<nat, Patch>, f: nat, slots: nat)
    requires Rooted(patches, slots) && (f < slots || f in patches)
    ensures forall p | p in Chain(patches, f) :: p in patches && p <= f && Root(patches, p) == Root(patches, f)
    ensures Root(patches, f) < slots
  {
    if f in patches {
      assert PreviousFits(patches, slots, f);
      ChainGoesDown(patches, patches[f].previous, slots);
    }
  }

  /** A newer patch is invisible from below. */
  lemma {:induction false} NewerInvisible(patches: map<nat, Patch>, p: nat, patch: Patch, f: nat)
    requires f < p
    ensures Chain(patches[p := patch], f) == Chain(patches, f) && Root(patches[p := patch], f) == Root(patches, f)
  {
    if f in patches && patches[f].previous < f {
      NewerInvisible(patches, p, patch, patches[f].previous);
    }
  }

  lemma {:induction false} DeactivationKeepsChain(patches: map<nat, Patch>, p: nat, f: nat)
    requires p in patches
    ensures Chain(patches[p := patches[p].(active := false)], f) == Chain(patches, f)
    ensures Root(patches[p := patches[p].(active := false)], f) == Root(patches, f)
  {
    if f in patches && patches[f].previous < f {
      DeactivationKeepsChain(patches, p, patches[f].previous);
    }
  }

  lemma {:induction false} FilterTwice(s: seq<nat>, a: nat -> bool, b: nat -> bool, both: nat -> bool)
    requires forall x :: both(x) <==> a(x) && b(x)
    ensures Filter(s, both) == Filter(Filter(s, a), b)
  {
    if s != [] {
      FilterTwice(s[1..], a, b, both);
      if a(s[0]) {
        assert ([s[0]] + Filter(s[1..], a))[1..] == Filter(s[1..], a);
      }
    }
  }

  function Without(s: seq<nat>, p: nat): seq<nat> {
    Filter(s, (q: nat) => q != p)
  }

  /** Deactivating a patch takes it out of what is seen from anywhere, and nothing else. */
  lemma DeactivationRemoves(patches: map<nat, Patch>, p: nat, f: nat)
    requires p in patches
    ensures Actives(patches[p := patches[p].(active := false)], f) == Without(Actives(patches, f), p)
  {
    var after := patches[p := patches[p].(active := false)];
    DeactivationKeepsChain(patches, p, f);
    FilterTwice(Chain(patches, f), (q: nat) => IsActive(patches, q), (q: nat) => q != p, (q: nat) => IsActive(after, q));
  }

  lemma NewerAddsNothing(patches: map<nat, Patch>, p: nat, patch: Patch, f: nat, slots: nat)
    requires Rooted(patches, slots) && f < p && (f < slots || f in patches)
    ensures Actives(patches[p := patch], f) == Actives(patches, f)
  {
    NewerInvisible(patches, p, patch, f);
    ChainGoesDown(patches, f, slots);
    FilterAgree(Chain(patches, f), (q: nat) => IsActive(patches[p := patch], q), (q: nat) => IsActive(patches, q));
  }

  lemma InstalledKnown(t: Table, slot: nat)
    requires Sound(t) && slot < |t.installed|
    ensures t.installed[slot] < |t.installed| || t.installed[slot] in t.patches
    ensures t.installed[slot] < t.next
  {
    assert SlotSound(t, slot);
    var stack := Stack(t, slot);
    if stack != [] {
      assert stack[0] in stack;
    }
  }

  /** Installing puts a patch on top of its name's stack and leaves the other stacks alone. */
  lemma InstallPushes(t: Table, slot: nat)
    requires Sound(t) && slot < |t.installed|
    ensures forall k: nat :: k < |t.installed| ==>
              Stack(Install(t, slot), k) == if k == slot then [t.next] + Stack(t, k) else Stack(t, k)
    ensures forall k: nat :: k < |t.installed| ==> Root(Install(t, slot).patches, Install(t, slot).installed[k]) == k
  {
    var u, n := Install(t, slot), |t.installed|;
    var patch := u.patches[t.next];
    forall k: nat | k < n
      ensures Stack(u, k) == if k == slot then [t.next] + Stack(t, k) else Stack(t, k)
      ensures Root(u.patches, u.installed[k]) == k
    {
      assert SlotSound(t, k);
      InstalledKnown(t, k);
      NewerInvisible(t.patches, t.next, patch, t.installed[k]);
      NewerAddsNothing(t.patches, t.next, patch, t.installed[k], n);
      if k == slot {
        assert Chain(u.patches, t.next) == [t.next] + Chain(u.patches, t.installed[k]);
        assert ([t.next] + Chain(u.patches, t.installed[k]))[1..] == Chain(u.patches, t.installed[k]);
      }
    }
  }

  lemma InstallRooted(t: Table, slot: nat)
    requires Sound(t) && slot < |t.installed|
    ensures Rooted(Install(t, slot).patches, |t.installed|)
  {
    InstalledKnown(t, slot);
    var u := Install(t, slot);
    forall p | p in u.patches ensures |t.installed| <= p && PreviousFits(u.patches, |t.installed|, p) {
      if p != t.next {
        assert PreviousFits(t.patches, |t.installed|, p);
      }
    }
  }

  lemma InstallSound(t: Table, slot: nat)
    requires Sound(t) && slot < |t.installed|
    ensures Sound(Install(t, slot))
  {
    var u := Install(t, slot);
    InstallRooted(t, slot);
    InstallPushes(t, slot);
    forall k: nat | k < |u.installed| ensures SlotSound(u, k) {
      assert SlotSound(t, k);
    }
    forall p: nat | IsActive(u.patches, p) ensures Reachable(u, p) {
      if p == t.next {
        assert Root(u.patches, u.installed[slot]) == slot;
        assert t.next in [t.next] + Stack(t, slot);
      } else {
        assert IsActive(t.patches, p) && Reachable(t, p);
        NewerInvisible(t.patches, t.next, u.patches[t.next], p);
      }
    }
  }

  /** A function seen from above its nearest active patch sees the same as from that patch. */
  lemma {:induction false} SeenFromTop(patches: map<nat, Patch>, f: nat, slots: nat)
    requires Rooted(patches, slots) && (f < slots || f in patches)
    ensures var top := TopOf(Actives(patches, f), Root(patches, f));
            Actives(patches, top) == Actives(patches, f) && Root(patches, top) == Root(patches, f)
  {
    if f in patches {
      assert PreviousFits(patches, slots, f);
      SeenFromTop(patches, patches[f].previous, slots);
    }
  }

  lemma DeactivationRooted(patches: map<nat, Patch>, p: nat, slots: nat)
    requires Rooted(patches, slots) && p in patches
    ensures Rooted(patches[p := patches[p].(active := false)], slots)
  {
    var after := patches[p := patches[p].(active := false)];
    forall q | q in after ensures slots <= q && PreviousFits(after, slots, q) {
      assert PreviousFits(patches, slots, q);
    }
  }

  /** Uninstalling, in whatever order, takes the patch out of its stack and leaves everything else. */
  lemma UninstallRemoves(t: Table, p: nat)
    requires Sound(t) && p in t.patches
    ensures Root(t.patches, p) < |t.installed|
    ensures forall k: nat :: k < |t.installed| ==> Stack(Uninstall(t, p), k) == Without(Stack(t, k), p)
    ensures forall k: nat :: k < |t.installed| ==> SlotSound(Uninstall(t, p), k)
  {
    ChainGoesDown(t.patches, p, |t.installed|);
    var u := Uninstall(t, p);
    DeactivationRooted(t.patches, p, |t.installed|);
    forall k: nat | k < |t.installed| ensures Stack(u, k) == Without(Stack(t, k), p) && SlotSound(u, k) {
      UninstallSlot(t, p, k);
    }
  }

  lemma TopKept(s: seq<nat>, p: nat)
    requires s == [] || s[0] != p
    ensures forall original :: TopOf(Without(s, p), original) == TopOf(s, original)
  {}

  lemma UninstallSlot(t: Table, p: nat, k: nat)
    requires Sound(t) && p in t.patches && k < |t.installed| && Root(t.patches, p) < |t.installed|
    requires Rooted(Uninstall(t, p).patches, |t.installed|)
    ensures Stack(Uninstall(t, p), k) == Without(Stack(t, k), p) && SlotSound(Uninstall(t, p), k)
  {
    var u, f := Uninstall(t, p), t.installed[k];
    assert SlotSound(t, k);
    InstalledKnown(t, k);
    DeactivationKeepsChain(t.patches, p, f);
    DeactivationRemoves(t.patches, p, f);
    if f == p {
      assert Root(t.patches, p) == k;
      assert PreviousFits(t.patches, |t.installed|, p);
      var below := t.patches[p].previous;
      SeenFromTop(u.patches, below, |t.installed|);
      assert Chain(u.patches, p) == [p] + Chain(u.patches, below);
      assert Actives(u.patches, p) == Actives(u.patches, below);
      assert u.installed[k] == TopOf(Actives(u.patches, below), Root(u.patches, below));
    } else {
      assert u.installed[k] == f;
      assert Stack(t, k) == [] || Stack(t, k)[0] == f;
      TopKept(Stack(t, k), p);
    }
  }

  lemma UninstallSound(t: Table, p: nat)
    requires Sound(t) && p in t.patches && Root(t.patches, p) < |t.installed|
    ensures Sound(Uninstall(t, p))
  {
    var u := Uninstall(t, p);
    DeactivationRooted(t.patches, p, |t.installed|);
    UninstallRemoves(t, p);
    forall q: nat | IsActive(u.patches, q) ensures Reachable(u, q) {
      assert q != p && IsActive(t.patches, q) && Reachable(t, q);
      DeactivationKeepsChain(t.patches, p, q);
    }
  }

  // --- Runs ---

  datatype Event = Installs(slot: nat) | Uninstalls(patch: nat)

  predicate Enabled(t: Table, ev: Event) {
    match ev
    case Installs(slot) => slot < |t.installed|
    case Uninstalls(p) => p in t.patches && Root(t.patches, p) < |t.installed|
  }

  function RunAll(t: Table, events: seq<Event>): Option<Table>
    decreases |events|
  {
    if events == [] then Some(t)
    else if !Enabled(t, events[0]) then None
    else RunAll(if events[0].Installs? then Install(t, events[0].slot) else Uninstall(t, events[0].patch), events[1..])
  }

  lemma {:induction false} RunSound(t: Table, events: seq<Event>)
    requires Sound(t) && RunAll(t, events).Some?
    ensures Sound(RunAll(t, events).value) && |RunAll(t, events).value.installed| == |t.installed|
    decreases |events|
  {
    if events != [] {
      match events[0]
      case Installs(slot) =>
        InstallSound(t, slot);
        RunSound(Install(t, slot), events[1..]);
      case Uninstalls(p) =>
        UninstallSound(t, p);
        RunSound(Uninstall(t, p), events[1..]);
    }
  }

  lemma {:induction false} RunExtends(t: Table, events: seq<Event>, ev: Event)
    requires RunAll(t, events).Some?
    ensures RunAll(t, events + [ev]).Some? <==> Enabled(RunAll(t, events).value, ev)
    decreases |events|
  {
    var more := events + [ev];
    assert more[0] == if events == [] then ev else events[0];
    if events == [] {
      assert more[1..] == [];
    } else {
      assert more[1..] == events[1..] + [ev];
      RunExtends(if events[0].Installs? then Install(t, events[0].slot) else Uninstall(t, events[0].patch), events[1..], ev);
    }
  }

  /** At any time any name can be patched and any patch taken out. */
  lemma RunGoesOn(slots: nat, events: seq<Event>, ev: Event)
    requires RunAll(Originals(slots), events).Some?
    ensures RunAll(Originals(slots), events + [ev]).Some? <==>
            match ev
            case Installs(slot) => slot < slots
            case Uninstalls(p) => p in RunAll(Originals(slots), events).value.patches
  {
    OriginalsSound(slots);
    RunSound(Originals(slots), events);
    RunExtends(Originals(slots), events, ev);
    var t := RunAll(Originals(slots), events).value;
    if ev.Uninstalls? && ev.patch in t.patches {
      ChainGoesDown(t.patches, ev.patch, slots);
    }
  }

  lemma OriginalsSound(slots: nat)
    ensures Sound(Originals(slots))
  {
    forall k: nat | k < slots ensures SlotSound(Originals(slots), k) {}
  }

  /** The active patches of one name. */
  ghost predicate AnyActive(t: Table, slot: nat) {
    exists p: nat :: IsActive(t.patches, p) && Root(t.patches, p) == slot
  }

  /** After any installs and uninstalls, in any order: a name refers to an active patch or to its original, its active
      patches can all be reached from there, and the original is back exactly when none is active. */
  lemma PatchesNeverStrand(slots: nat, events: seq<Event>, slot: nat)
    requires slot < slots && RunAll(Originals(slots), events).Some?
    ensures var t := RunAll(Originals(slots), events).value;
            && |t.installed| == slots
            && (t.installed[slot] == slot || IsActive(t.patches, t.installed[slot]))
            && (forall p: nat :: IsActive(t.patches, p) && Root(t.patches, p) == slot ==> p in Chain(t.patches, t.installed[slot]))
            && (t.installed[slot] == slot <==> !AnyActive(t, slot))
  {
    OriginalsSound(slots);
    RunSound(Originals(slots), events);
    var t := RunAll(Originals(slots), events).value;
    assert SlotSound(t, slot);
    var stack := Stack(t, slot);
    if stack != [] {
      assert stack[0] in stack;
      ChainGoesDown(t.patches, t.installed[slot], slots);
    }
    forall p: nat | IsActive(t.patches, p) && Root(t.patches, p) == slot ensures p in stack {
      assert Reachable(t, p);
    }
  }

  /** Where a call made through any function, kept from before or not, ends up: the nearest active patch, or the original. */
  function Reached(patches: map<nat, Patch>, f: nat): nat {
    TopOf(Actives(patches, f), Root(patches, f))
  }

  /** An active patch's live requests go to the next active patch of the stack, then to the original: what was
      uninstalled between them is skipped. This speaks of the slots of `fetch` and `request`; an active `get` hands its
      requests to the `request` installed with it. */
  lemma LiveRequestsSkipInactive(t: Table, slot: nat, k: nat)
    requires Sound(t) && slot < |t.installed| && k < |Stack(t, slot)|
    ensures Stack(t, slot)[k] in t.patches
    ensures Reached(t.patches, t.patches[Stack(t, slot)[k]].previous) == TopOf(Stack(t, slot)[k + 1..], slot)
  {
    InstalledKnown(t, slot);
    assert SlotSound(t, slot);
    SuffixBelow(t.patches, t.installed[slot], k, |t.installed|);
  }

  lemma {:induction false} SuffixBelow(patches: map<nat, Patch>, f: nat, k: nat, slots: nat)
    requires Rooted(patches, slots) && (f < slots || f in patches) && k < |Actives(patches, f)|
    ensures var p := Actives(patches, f)[k];
            && p in patches
            && Actives(patches, patches[p].previous) == Actives(patches, f)[k + 1..]
            && Root(patches, patches[p].previous) == Root(patches, f)
  {
    assert PreviousFits(patches, slots, f);
    var below := patches[f].previous;
    assert Chain(patches, f) == [f] + Chain(patches, below);
    assert Chain(patches, f)[1..] == Chain(patches, below);
    if IsActive(patches, f) {
      assert Actives(patches, f) == [f] + Actives(patches, below);
      if k > 0 {
        SuffixBelow(patches, below, k - 1, slots);
      }
    } else {
      assert Actives(patches, f) == Actives(patches, below);
      SuffixBelow(patches, below, k, slots);
    }
  }
}
