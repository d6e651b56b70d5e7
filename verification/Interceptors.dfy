/** `FetchInterceptor` and `HttpInterceptor` over the functions they patch. */
module Interceptors {
  import opened Options
  import opened PatchChains
  import opened Sorting

  /** The patchable names and the registry of patches. */
  class Functions {
    var patches: map<nat, Patch>
    var installed: seq<nat>
    var next: nat

    ghost function View(): Table
      reads this
    {
      Table(patches, installed, next)
    }

    constructor (slots: nat)
      ensures View() == Originals(slots)
    {
      patches, installed, next := map[], Iota(slots), slots;
    }

    method Patch(slot: nat) returns (patched: nat)
      requires slot < |installed|
      modifies this
      ensures View() == Install(old(View()), slot) && patched == old(next)
    {
      patched := next;
      patches := patches[patched := PatchChains.Patch.Patch(true, installed[slot])];
      installed := installed[slot := patched];
      next := next + 1;
    }

    method Unpatch(slot: nat, patched: nat)
      requires Sound(View()) && patched in patches && Root(patches, patched) == slot < |installed|
      modifies this
      ensures View() == Uninstall(old(View()), patched)
    {
      DeactivationRooted(patches, patched, |installed|);
      patches := patches[patched := patches[patched].(active := false)];
      if installed[slot] == patched {
        var live := ActiveFetch(patches, patches[patched].previous, |installed|);
        installed := installed[slot := live];
      }
    }
  }

  /** Holds at most one patch of `fetch`, the only name here. */
  class FetchInterceptor {
    var patched: Option<nat>

    ghost predicate Owns(g: Functions)
      reads this, g
    {
      Sound(g.View()) && |g.installed| == 1 && (patched.Some? ==> patched.value in g.patches)
    }

    constructor ()
      ensures patched == None
    {
      patched := None;
    }

    method Install(g: Functions)
      requires Owns(g)
      modifies this, g
      ensures Owns(g) && g.View() == PatchChains.Install(old(g.View()), 0)
      ensures patched == Some(old(g.next))
    {
      InstallSound(g.View(), 0);
      var made := g.Patch(0);
      patched := Some(made);
    }

    method Uninstall(g: Functions)
      requires Owns(g)
      modifies this, g
      ensures Owns(g) && patched == None
      ensures if old(patched).None? then g.View() == old(g.View())
              else Root(old(g.patches), old(patched).value) == 0 && g.View() == PatchChains.Uninstall(old(g.View()), old(patched).value)
    {
      if patched.None? {
        return;
      }
      ChainGoesDown(g.patches, patched.value, 1);
      UninstallSound(g.View(), patched.value);
      g.Unpatch(0, patched.value);
      patched := None;
    }
  }

  // --- node:http: request and get of two modules ---

  /** The names and patches one interceptor holds. */
  ghost predicate Owned(t: Table, owned: seq<(nat, nat)>) {
    forall i :: 0 <= i < |owned| ==> Owns(t, owned[i].0, owned[i].1)
  }

  ghost predicate Owns(t: Table, slot: nat, p: nat) {
    p in t.patches && Root(t.patches, p) == slot < |t.installed|
  }

  function InstallAll(t: Table, slots: nat): (r: Table)
    requires slots <= |t.installed|
    ensures |r.installed| == |t.installed| && r.next == t.next + slots
  {
    if slots == 0 then t else Install(InstallAll(t, slots - 1), slots - 1)
  }

  function UninstallAll(t: Table, owned: seq<(nat, nat)>): Table {
    if owned == [] then t
    else
      var n := |owned| - 1;
      var u := UninstallAll(t, owned[..n]);
      if Enabled(u, Uninstalls(owned[n].1)) then Uninstall(u, owned[n].1) else u
  }

  predicate Held(owned: seq<(nat, nat)>, p: nat) {
    exists i :: 0 <= i < |owned| && owned[i].1 == p
  }

  lemma UninstallKeepsOwners(t: Table, p: nat)
    requires p in t.patches && Root(t.patches, p) < |t.installed|
    ensures forall slot, q :: Owns(t, slot, q) <==> Owns(Uninstall(t, p), slot, q)
  {
    forall q | q in t.patches ensures Root(Uninstall(t, p).patches, q) == Root(t.patches, q) {
      DeactivationKeepsChain(t.patches, p, q);
    }
  }

  /** Switching off all patches an interceptor holds takes exactly these out of every stack. */
  lemma {:induction false} UninstallAllRemoves(t: Table, owned: seq<(nat, nat)>)
    requires Sound(t) && Owned(t, owned)
    ensures var u := UninstallAll(t, owned);
            && Sound(u) && |u.installed| == |t.installed|
            && (forall slot, q :: Owns(t, slot, q) <==> Owns(u, slot, q))
            && (forall k: nat :: k < |t.installed| ==> Stack(u, k) == Filter(Stack(t, k), (q: nat) => !Held(owned, q)))
    decreases |owned|
  {
    if owned == [] {
      forall k: nat | k < |t.installed| ensures Filter(Stack(t, k), (q: nat) => !Held(owned, q)) == Stack(t, k) {
        KeepAll(Stack(t, k), (q: nat) => !Held(owned, q));
      }
    } else {
      var n := |owned| - 1;
      var front, p := owned[..n], owned[n].1;
      UninstallAllRemoves(t, front);
      var u := UninstallAll(t, front);
      assert Owns(t, owned[n].0, p) && Owns(u, owned[n].0, p);
      UninstallSound(u, p);
      UninstallRemoves(u, p);
      UninstallKeepsOwners(u, p);
      forall q: nat ensures !Held(owned, q) <==> !Held(front, q) && q != p {
        HeldSnoc(owned, q);
      }
      forall k: nat | k < |t.installed|
        ensures Without(Stack(u, k), p) == Filter(Stack(t, k), (q: nat) => !Held(owned, q))
      {
        FilterTwice(Stack(t, k), (q: nat) => !Held(front, q), (q: nat) => q != p, (q: nat) => !Held(owned, q));
      }
    }
  }

  /** One patch per name, numbered from `next`. */
  function Made(slots: nat, next: nat): seq<(nat, nat)> {
    seq(slots, (i: nat) => (i, next + i))
  }

  lemma OwnedSnoc(t: Table, owned: seq<(nat, nat)>, slot: nat, p: nat)
    requires Owned(t, owned) && Owns(t, slot, p)
    ensures Owned(t, owned + [(slot, p)])
  {}

  lemma HeldSnoc(owned: seq<(nat, nat)>, q: nat)
    requires owned != []
    ensures Held(owned, q) <==> Held(owned[..|owned| - 1], q) || q == owned[|owned| - 1].1
  {
    if Held(owned, q) && q != owned[|owned| - 1].1 {
      var i :| 0 <= i < |owned| && owned[i].1 == q;
      assert owned[..|owned| - 1][i].1 == q;
    }
    if Held(owned[..|owned| - 1], q) {
      var i :| 0 <= i < |owned| - 1 && owned[..|owned| - 1][i].1 == q;
      assert owned[i].1 == q;
    }
  }

  lemma {:induction false} KeepAll(s: seq<nat>, p: nat -> bool)
    requires forall x :: x in s ==> p(x)
    ensures Filter(s, p) == s
  {
    if s != [] {
      KeepAll(s[1..], p);
    }
  }

  lemma InstallKeepsOwners(t: Table, slot: nat)
    requires Sound(t) && slot < |t.installed|
    ensures Owns(Install(t, slot), slot, t.next)
    ensures forall s, q :: Owns(t, s, q) ==> Owns(Install(t, slot), s, q)
  {
    InstallPushes(t, slot);
    assert Install(t, slot).installed[slot] == t.next;
    forall q | q in t.patches ensures Root(Install(t, slot).patches, q) == Root(t.patches, q) {
      NewerInvisible(t.patches, t.next, Patch(true, t.installed[slot]), q);
    }
  }

  /** Holds every patch it made: installing it twice adds to the list, so one uninstall takes out all of them. */
  class HttpInterceptor {
    var patched: seq<(nat, nat)>

    ghost predicate Valid(g: Functions)
      reads this, g
    {
      Sound(g.View()) && Owned(g.View(), patched)
    }

    constructor ()
      ensures patched == []
    {
      patched := [];
    }

    method Install(g: Functions)
      requires Valid(g)
      modifies this, g
      ensures Valid(g) && g.View() == InstallAll(old(g.View()), |old(g.installed)|)
      ensures patched == old(patched) + Made(|old(g.installed)|, old(g.next))
    {
      ghost var before := g.View();
      var n := |g.installed|;
      for slot := 0 to n
        invariant Valid(g) && |g.installed| == n && g.View() == InstallAll(before, slot)
        invariant patched == old(patched) + Made(slot, before.next)
      {
        ghost var t := g.View();
        InstallSound(t, slot);
        InstallKeepsOwners(t, slot);
        var made := g.Patch(slot);
        assert Made(slot + 1, before.next) == Made(slot, before.next) + [(slot, made)];
        OwnedSnoc(g.View(), patched, slot, made);
        patched := patched + [(slot, made)];
      }
    }

    method Uninstall(g: Functions)
      requires Valid(g)
      modifies this, g
      ensures Valid(g) && patched == [] && g.View() == UninstallAll(old(g.View()), old(patched))
    {
      ghost var before := g.View();
      for i := 0 to |patched|
        invariant patched == old(patched) && Valid(g) && g.View() == UninstallAll(before, patched[..i])
      {
        ghost var t := g.View();
        var (slot, made) := patched[i];
        assert Owns(t, slot, made);
        UninstallSound(t, made);
        UninstallKeepsOwners(t, made);
        g.Unpatch(slot, made);
        assert patched[..i + 1][..i] == patched[..i];
      }
      assert patched[..|patched|] == patched;
      patched := [];
    }
  }
}
