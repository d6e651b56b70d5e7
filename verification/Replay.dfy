/** Which recording answers a request: the first unplayed match, else the first played one if that is allowed. */
module Replay {
  import opened Matching
  import opened Options
  import opened Protocol
  import opened Sorting

  function FirstOutside(candidates: seq<nat>, played: set<nat>): (r: Option<nat>)
    ensures r.Some? ==> r.value in candidates && r.value !in played
    ensures r.None? ==> forall c | c in candidates :: c in played
  {
    if candidates == [] then None
    else if candidates[0] !in played then Some(candidates[0])
    else FirstOutside(candidates[1..], played)
  }

  function Choose(matching: seq<nat>, played: set<nat>, allowPlayed: bool): Option<nat> {
    var unplayed := FirstOutside(matching, played);
    if unplayed.Some? then unplayed
    else if allowPlayed && matching != [] then Some(matching[0])
    else None
  }

  function PlayedSet(played: seq<bool>): set<nat> {
    set i: nat | i < |played| && played[i]
  }

  lemma {:induction false} FirstOutsideAppend(front: seq<nat>, c: nat, played: set<nat>)
    ensures FirstOutside(front + [c], played) ==
            if FirstOutside(front, played).Some? then FirstOutside(front, played)
            else if c !in played then Some(c) else None
  {
    if front == [] {
      assert front + [c] == [c];
    } else {
      assert (front + [c])[1..] == front[1..] + [c];
      FirstOutsideAppend(front[1..], c, played);
    }
  }

  lemma {:induction false} FirstOutsidePrefix(front: seq<nat>, rest: seq<nat>, played: set<nat>)
    requires FirstOutside(front, played).Some?
    ensures FirstOutside(front + rest, played) == FirstOutside(front, played)
  {
    assert front != [];
    assert (front + rest)[1..] == front[1..] + rest;
    if front[0] in played {
      FirstOutsidePrefix(front[1..], rest, played);
    }
  }

  predicate PlayedAt(played: seq<bool>, i: nat) {
    i < |played| && played[i]
  }

  /** Of the matches among the first `n`: the first unplayed one, or, if played ones are allowed and there are no others,
      the first one. */
  ghost predicate Earliest(n: nat, isMatch: nat -> bool, played: seq<bool>, allowPlayed: bool, r: Option<nat>) {
    match r
    case None => forall i: nat | i < n && isMatch(i) :: PlayedAt(played, i) && !allowPlayed
    case Some(k) =>
      && k < n && isMatch(k)
      && if !PlayedAt(played, k) then forall i: nat | i < k && isMatch(i) :: PlayedAt(played, i)
         else allowPlayed && (forall i: nat | i < n && isMatch(i) :: PlayedAt(played, i)) && forall i: nat | i < k :: !isMatch(i)
  }

  /** The first match outside a set of positions has no such match in front of it. */
  lemma FirstOutsideIs(n: nat, isMatch: nat -> bool, played: set<nat>)
    ensures var r := FirstOutside(Filter(Iota(n), isMatch), played);
            && (r.Some? ==> r.value < n && isMatch(r.value) && r.value !in played &&
                            forall i: nat | i < r.value && isMatch(i) :: i in played)
            && (r.None? ==> forall i: nat | i < n && isMatch(i) :: i in played)
  {
    var order, candidates := Iota(n), Filter(Iota(n), isMatch);
    var r := FirstOutside(candidates, played);
    forall i: nat | i < n ensures i in order {
      assert order[i] == i;
    }
    if r.Some? {
      assert r.value in candidates;
      FirstOutsideAt(order, isMatch, played, r.value);
      forall i: nat | i < r.value && isMatch(i) ensures i in played {
        assert order[i] == i;
      }
    }
  }

  /** What is chosen, told from the list itself. */
  lemma ChoiceIsEarliest(n: nat, isMatch: nat -> bool, played: seq<bool>, allowPlayed: bool)
    ensures Earliest(n, isMatch, played, allowPlayed, Choose(Filter(Iota(n), isMatch), PlayedSet(played), allowPlayed))
  {
    var candidates := Filter(Iota(n), isMatch);
    FirstOutsideIs(n, isMatch, PlayedSet(played));
    FirstOutsideIs(n, isMatch, {});
    assert candidates != [] ==> FirstOutside(candidates, {}) == Some(candidates[0]);
    assert forall i: nat :: i in PlayedSet(played) <==> PlayedAt(played, i);
    hide Filter;
  }

  /** The same for any condition that agrees on the list. */
  lemma ChoiceIs(n: nat, isMatch: nat -> bool, same: nat -> bool, played: seq<bool>, allowPlayed: bool)
    requires forall i: nat | i < n :: isMatch(i) == same(i)
    ensures Earliest(n, same, played, allowPlayed, Choose(Filter(Iota(n), isMatch), PlayedSet(played), allowPlayed))
  {
    ChoiceIsEarliest(n, isMatch, played, allowPlayed);
  }

  method Pick(candidates: seq<nat>, played: seq<bool>, allowPlayed: bool, isMatch: nat -> bool) returns (r: Option<nat>)
    ensures r == Choose(Filter(candidates, isMatch), PlayedSet(played), allowPlayed)
  {
    ghost var chosen := PlayedSet(played);
    var fallback: Option<nat> := None;
    for i := 0 to |candidates|
      invariant FirstOutside(Filter(candidates[..i], isMatch), chosen) == None
      invariant fallback == Choose(Filter(candidates[..i], isMatch), chosen, allowPlayed)
    {
      var idx: nat := candidates[i];
      assert candidates[..i + 1] == candidates[..i] + [idx];
      FilterAppend(candidates[..i], [idx], isMatch);
      if !isMatch(idx) {
        assert Filter(candidates[..i + 1], isMatch) == Filter(candidates[..i], isMatch);
        continue;
      }
      assert [idx][1..] == [];
      FirstOutsideAppend(Filter(candidates[..i], isMatch), idx, chosen);
      if !(idx < |played| && played[idx]) {
        assert candidates == candidates[..i + 1] + candidates[i + 1..];
        FilterAppend(candidates[..i + 1], candidates[i + 1..], isMatch);
        FirstOutsidePrefix(Filter(candidates[..i + 1], isMatch), Filter(candidates[i + 1..], isMatch), chosen);
        return Some(idx);
      }
      if allowPlayed && fallback.None? {
        fallback := Some(idx);
      }
    }
    assert candidates[..|candidates|] == candidates;
    return fallback;
  }

  // --- The replay machine over recordings visited in `order` ---

  function MatchAt(recorded: seq<HttpInteraction>, probe: HttpRequest, config: MatchConfig): nat -> bool {
    (i: nat) => i < |recorded| && Matches(probe, recorded[i].request, config)
  }

  function Candidates(order: seq<nat>, recorded: seq<HttpInteraction>, probe: HttpRequest, config: MatchConfig): seq<nat> {
    Filter(order, MatchAt(recorded, probe, config))
  }

  function Mark(played: set<nat>, taken: Option<nat>): set<nat> {
    if taken.Some? then played + {taken.value} else played
  }

  /** The recordings that answer `probes` asked one after the other. */
  function Run(
      order: seq<nat>, recorded: seq<HttpInteraction>, played: set<nat>, probes: seq<HttpRequest>,
      config: MatchConfig, recording: bool): (r: seq<Option<nat>>)
    ensures |r| == |probes|
    decreases |probes|
  {
    if probes == [] then []
    else
      var taken := Choose(Candidates(order, recorded, probes[0], config), played, !recording);
      [taken] + Run(order, recorded, Mark(played, taken), probes[1..], config, recording)
  }

  ghost predicate SameCandidates(first: seq<nat>, second: seq<nat>, recorded: seq<HttpInteraction>, config: MatchConfig) {
    forall p :: Candidates(first, recorded, p, config) == Candidates(second, recorded, p, config)
  }

  ghost predicate SameRuns(
      first: seq<nat>, second: seq<nat>, recorded: seq<HttpInteraction>, config: MatchConfig, recording: bool)
  {
    forall probes :: Run(first, recorded, {}, probes, config, recording) ==
                     Run(second, recorded, {}, probes, config, recording)
  }

  /** What the client receives: the recorded response, or a miss. */
  function Answers(recorded: seq<HttpInteraction>, taken: seq<Option<nat>>): (r: seq<Option<HttpResponse>>)
    ensures |r| == |taken|
  {
    seq(|taken|, k requires 0 <= k < |taken| =>
      if taken[k].Some? && taken[k].value < |recorded| then Some(recorded[taken[k].value].response) else None)
  }

  lemma {:induction false} SameCandidatesSameRun(
      first: seq<nat>, second: seq<nat>, recorded: seq<HttpInteraction>, played: set<nat>, probes: seq<HttpRequest>,
      config: MatchConfig, recording: bool)
    requires SameCandidates(first, second, recorded, config)
    ensures Run(first, recorded, played, probes, config, recording) ==
            Run(second, recorded, played, probes, config, recording)
    decreases |probes|
  {
    if probes != [] {
      var taken := Choose(Candidates(first, recorded, probes[0], config), played, !recording);
      assert Candidates(first, recorded, probes[0], config) == Candidates(second, recorded, probes[0], config);
      SameCandidatesSameRun(first, second, recorded, Mark(played, taken), probes[1..], config, recording);
    }
  }

  // --- Asking one request over and over lists its candidates ---

  lemma {:induction false} FirstOutsideMiddle(candidates: seq<nat>, k: nat, played: set<nat>)
    requires Distinct(candidates) && k < |candidates|
    requires forall i :: 0 <= i < |candidates| ==> (candidates[i] in played <==> i < k)
    ensures FirstOutside(candidates, played) == Some(candidates[k])
  {
    if k > 0 {
      FirstOutsideMiddle(candidates[1..], k - 1, played);
    }
  }

  lemma {:induction false} RepeatedProbe(
      order: seq<nat>, recorded: seq<HttpInteraction>, played: set<nat>, probe: HttpRequest, probes: seq<HttpRequest>,
      candidates: seq<nat>, k: nat, config: MatchConfig, recording: bool)
    requires Distinct(candidates) && candidates == Candidates(order, recorded, probe, config)
    requires k + |probes| == |candidates| && forall i :: 0 <= i < |probes| ==> probes[i] == probe
    requires forall i :: 0 <= i < |candidates| ==> (candidates[i] in played <==> i < k)
    ensures forall i :: 0 <= i < |probes| ==>
              Run(order, recorded, played, probes, config, recording)[i] == Some(candidates[k + i])
    decreases |probes|
  {
    if probes != [] {
      FirstOutsideMiddle(candidates, k, played);
      assert probes[0] == probe;
      var taken: Option<nat> := Some(candidates[k]);
      RepeatedProbe(order, recorded, Mark(played, taken), probe, probes[1..], candidates, k + 1, config, recording);
      var rest := Run(order, recorded, Mark(played, taken), probes[1..], config, recording);
      assert Run(order, recorded, played, probes, config, recording) == [taken] + rest;
      forall i | 0 <= i < |probes| ensures ([taken] + rest)[i] == Some(candidates[k + i]) {
        if i > 0 {
          assert rest[i - 1] == Some(candidates[k + 1 + (i - 1)]);
        }
      }
    }
  }

  /** Runs from a fresh start agree for every request sequence exactly when every request sees the same candidates. */
  lemma RunsDecideCandidates(
      first: seq<nat>, second: seq<nat>, recorded: seq<HttpInteraction>, config: MatchConfig, recording: bool)
    requires Distinct(first) && Distinct(second) && multiset(first) == multiset(second)
    ensures SameRuns(first, second, recorded, config, recording) <==> SameCandidates(first, second, recorded, config)
  {
    if SameRuns(first, second, recorded, config, recording) {
      forall p ensures Candidates(first, recorded, p, config) == Candidates(second, recorded, p, config) {
        RepeatedProbeDecides(first, second, recorded, p, config, recording);
      }
    }
    if SameCandidates(first, second, recorded, config) {
      forall probes ensures Run(first, recorded, {}, probes, config, recording) ==
                            Run(second, recorded, {}, probes, config, recording) {
        SameCandidatesSameRun(first, second, recorded, {}, probes, config, recording);
      }
    }
  }

  lemma RepeatedProbeDecides(
      first: seq<nat>, second: seq<nat>, recorded: seq<HttpInteraction>, p: HttpRequest, config: MatchConfig, recording: bool)
    requires Distinct(first) && Distinct(second) && multiset(first) == multiset(second)
    requires SameRuns(first, second, recorded, config, recording)
    ensures Candidates(first, recorded, p, config) == Candidates(second, recorded, p, config)
  {
    var a, b := Candidates(first, recorded, p, config), Candidates(second, recorded, p, config);
    SameNumber(first, second, MatchAt(recorded, p, config));
    var probes := Repeated(p, |a|);
    RepeatedProbe(first, recorded, {}, p, probes, a, 0, config, recording);
    RepeatedProbe(second, recorded, {}, p, probes, b, 0, config, recording);
    var left := Run(first, recorded, {}, probes, config, recording);
    assert left == Run(second, recorded, {}, probes, config, recording);
    forall i | 0 <= i < |a| ensures a[i] == b[i] {
      assert left[i] == Some(a[0 + i]) && left[i] == Some(b[0 + i]);
    }
  }

  function Repeated(p: HttpRequest, n: nat): (r: seq<HttpRequest>)
    ensures |r| == n && forall i :: 0 <= i < n ==> r[i] == p
  {
    seq(n, _ => p)
  }

  lemma SameNumber(first: seq<nat>, second: seq<nat>, p: nat -> bool)
    requires Distinct(first) && Distinct(second) && multiset(first) == multiset(second)
    ensures |Filter(first, p)| == |Filter(second, p)|
    ensures Distinct(Filter(first, p)) && Distinct(Filter(second, p))
  {
    FilterMultiset(first, p);
    FilterMultiset(second, p);
    assert multiset(Filter(first, p)) == multiset(Filter(second, p));
    SameElements(Filter(first, p), Filter(second, p));
    FilterDistinct(first, p);
    FilterDistinct(second, p);
  }

  // --- Replaying a list that was written in some order ---

  ghost predicate Arranges(order: seq<nat>, n: nat) {
    Distinct(order) && |order| == n && forall i: nat | i in order :: i < n
  }

  function Arranged<T>(items: seq<T>, order: seq<nat>): (r: seq<T>)
    requires forall i: nat | i in order :: i < |items|
    ensures |r| == |order| && forall k :: 0 <= k < |r| ==> order[k] in order && r[k] == items[order[k]]
  {
    assert forall k :: 0 <= k < |order| ==> order[k] in order;
    seq(|order|, k requires 0 <= k < |order| => items[order[k]])
  }

  function At(order: seq<nat>): nat -> nat {
    (k: nat) => if k < |order| then order[k] else 0
  }

  function Through(order: seq<nat>, p: nat -> bool): nat -> bool {
    (k: nat) => p(At(order)(k))
  }

  lemma MatchAtArranged(order: seq<nat>, recorded: seq<HttpInteraction>, probe: HttpRequest, config: MatchConfig, k: nat)
    requires Arranges(order, |recorded|) && k < |order|
    ensures MatchAt(Arranged(recorded, order), probe, config)(k) == Through(order, MatchAt(recorded, probe, config))(k)
  {
    assert order[k] in order;
    assert At(order)(k) == order[k];
    assert Arranged(recorded, order)[k] == recorded[order[k]];
    assert Through(order, MatchAt(recorded, probe, config))(k) == MatchAt(recorded, probe, config)(order[k]);
  }

  /** Positions in the written list stand for the recordings `order` put there. */
  lemma WrittenCandidates(order: seq<nat>, recorded: seq<HttpInteraction>, probe: HttpRequest, config: MatchConfig)
    requires Arranges(order, |recorded|)
    ensures Map(At(order), Candidates(Iota(|order|), Arranged(recorded, order), probe, config)) ==
            Candidates(order, recorded, probe, config)
  {
    var positions := Iota(|order|);
    assert Map(At(order), positions) == order;
    var inFile := MatchAt(Arranged(recorded, order), probe, config);
    var inMemory := Through(order, MatchAt(recorded, probe, config));
    forall k | k in positions ensures inFile(k) == inMemory(k) {
      MatchAtArranged(order, recorded, probe, config, k);
    }
    FilterAgree(positions, inFile, inMemory);
    ThroughFilter(positions, order, MatchAt(recorded, probe, config));
  }

  lemma {:induction false} ThroughFilter(positions: seq<nat>, order: seq<nat>, p: nat -> bool)
    ensures Map(At(order), Filter(positions, Through(order, p))) == Filter(Map(At(order), positions), p)
  {
    if positions != [] {
      assert Map(At(order), positions)[1..] == Map(At(order), positions[1..]);
      ThroughFilter(positions[1..], order, p);
    }
  }

  ghost function Positions(order: seq<nat>, played: set<nat>): set<nat> {
    set k: nat | k < |order| && order[k] in played
  }

  lemma {:induction false} FirstOutsideMapped(order: seq<nat>, candidates: seq<nat>, played: set<nat>)
    requires forall c: nat | c in candidates :: c < |order|
    ensures FirstOutside(Map(At(order), candidates), played) ==
            match FirstOutside(candidates, Positions(order, played)) case None => None case Some(k) => Some(order[k])
  {
    if candidates != [] {
      assert Map(At(order), candidates)[1..] == Map(At(order), candidates[1..]);
      assert forall c: nat | c in candidates[1..] :: c in candidates;
      assert candidates[0] in candidates;
      FirstOutsideMapped(order, candidates[1..], played);
    }
  }

  function Unwrap(order: seq<nat>, at: Option<nat>): Option<nat> {
    if at.Some? && at.value < |order| then Some(order[at.value]) else None
  }

  lemma WrittenStep(
      order: seq<nat>, recorded: seq<HttpInteraction>, played: set<nat>, probe: HttpRequest,
      config: MatchConfig, recording: bool)
    requires Arranges(order, |recorded|)
    ensures var here := Candidates(Iota(|order|), Arranged(recorded, order), probe, config);
            var at := Choose(here, Positions(order, played), !recording);
            var taken := Choose(Candidates(order, recorded, probe, config), played, !recording);
            && taken == Unwrap(order, at)
            && (at.Some? ==> at.value < |order|)
            && Mark(Positions(order, played), at) == Positions(order, Mark(played, taken))
  {
    var here := Candidates(Iota(|order|), Arranged(recorded, order), probe, config);
    WrittenCandidates(order, recorded, probe, config);
    FirstOutsideMapped(order, here, played);
    assert here != [] ==> here[0] in here && here[0] < |order|;
  }

  /** Replaying the written list gives, position for position, the recordings the order itself gives. */
  lemma {:induction false} WrittenRun(
      order: seq<nat>, recorded: seq<HttpInteraction>, played: set<nat>, probes: seq<HttpRequest>,
      config: MatchConfig, recording: bool)
    requires Arranges(order, |recorded|)
    ensures var positions := Run(Iota(|order|), Arranged(recorded, order), Positions(order, played), probes, config, recording);
            var taken := Run(order, recorded, played, probes, config, recording);
            && (forall k :: 0 <= k < |probes| ==> taken[k] == Unwrap(order, positions[k]))
            && Answers(Arranged(recorded, order), positions) == Answers(recorded, taken)
    decreases |probes|
  {
    if probes != [] {
      WrittenStep(order, recorded, played, probes[0], config, recording);
      var taken := Choose(Candidates(order, recorded, probes[0], config), played, !recording);
      WrittenRun(order, recorded, Mark(played, taken), probes[1..], config, recording);
      var positions := Run(Iota(|order|), Arranged(recorded, order), Positions(order, played), probes, config, recording);
      var all := Run(order, recorded, played, probes, config, recording);
      forall k | 0 <= k < |probes| ensures all[k] == Unwrap(order, positions[k]) {
        if k > 0 {
          assert all[1..][k - 1] == Unwrap(order, positions[1..][k - 1]);
        }
      }
      AnswersUnwrap(order, recorded, positions, all);
    }
  }

  lemma AnswersUnwrap(
      order: seq<nat>, recorded: seq<HttpInteraction>, positions: seq<Option<nat>>, taken: seq<Option<nat>>)
    requires Arranges(order, |recorded|) && |positions| == |taken|
    requires forall k :: 0 <= k < |taken| ==> taken[k] == Unwrap(order, positions[k])
    ensures Answers(Arranged(recorded, order), positions) == Answers(recorded, taken)
  {
    forall k | 0 <= k < |taken|
      ensures Answers(Arranged(recorded, order), positions)[k] == Answers(recorded, taken)[k]
    {
      if taken[k].Some? {
        assert order[positions[k].value] in order;
      }
    }
  }

  // --- Each recording asked for once, in order ---

  ghost predicate Before(order: seq<nat>, i: nat, j: nat) {
    exists a, b :: 0 <= a < b < |order| && order[a] == i && order[b] == j
  }

  /** Recording `j` could also answer the request recording `i` was made for. */
  predicate Fits(recorded: seq<HttpInteraction>, i: nat, j: nat, config: MatchConfig) {
    i < j < |recorded| && Matches(recorded[i].request, recorded[j].request, config)
  }

  /** No recording that also fits an earlier request stands in front of that request's own recording. */
  ghost predicate NoOvertaking(order: seq<nat>, recorded: seq<HttpInteraction>, config: MatchConfig) {
    forall i: nat, j: nat :: Fits(recorded, i, j, config) ==> Before(order, i, j)
  }

  function RequestsOf(recorded: seq<HttpInteraction>): (r: seq<HttpRequest>)
    ensures |r| == |recorded| && forall i :: 0 <= i < |r| ==> r[i] == recorded[i].request
  {
    seq(|recorded|, i requires 0 <= i < |recorded| => recorded[i].request)
  }

  function Below(n: nat): (r: set<nat>)
    ensures forall k: nat :: k in r <==> k < n
  {
    if n == 0 then {} else Below(n - 1) + {n - 1}
  }

  /** The chosen recording is the one with no other unplayed match in front of it. */
  lemma {:induction false} FirstOutsideAt(order: seq<nat>, p: nat -> bool, played: set<nat>, a: nat)
    requires Distinct(order) && a < |order| && p(order[a]) && order[a] !in played
    ensures FirstOutside(Filter(order, p), played) == Some(order[a]) <==>
            forall b :: 0 <= b < a ==> !(p(order[b]) && order[b] !in played)
  {
    if a > 0 {
      FirstOutsideAt(order[1..], p, played, a - 1);
      if p(order[0]) && order[0] !in played {
        assert FirstOutside(Filter(order, p), played) == Some(order[0]);
      } else {
        assert FirstOutside(Filter(order, p), played) == FirstOutside(Filter(order[1..], p), played);
        assert forall b :: 1 <= b < a ==> order[b] == order[1..][b - 1];
        assert forall b :: 0 <= b < a - 1 ==> order[1..][b] == order[b + 1];
      }
    }
  }

  ghost predicate Inverts(order: seq<nat>, at: seq<nat>, n: nat) {
    |at| == n && forall i: nat :: i < n ==> at[i] < |order| && order[at[i]] == i
  }

  /** Where each recording stands in an arrangement. */
  lemma {:induction false} Inverse(order: seq<nat>, n: nat, m: nat) returns (at: seq<nat>)
    requires Arranges(order, n) && m <= n
    ensures Inverts(order, at, m)
    decreases m
  {
    if m == 0 {
      return [];
    }
    at := Inverse(order, n, m - 1);
    AllPresent(order, n);
    assert m - 1 in order;
    var a :| 0 <= a < |order| && order[a] == m - 1;
    at := at + [a];
  }

  lemma AllPresent(order: seq<nat>, n: nat)
    requires Arranges(order, n)
    ensures forall i: nat | i < n :: i in order
  {
    var members := set i | i in order;
    DistinctSize(order);
    assert members <= Below(n);
    BelowSize(n);
    SubsetOfSameSize(members, Below(n));
    forall i: nat | i < n ensures i in order {
      assert i in Below(n);
    }
  }

  lemma {:induction false} BelowSize(n: nat)
    ensures |Below(n)| == n
  {
    if n > 0 {
      BelowSize(n - 1);
      assert Below(n) == Below(n - 1) + {n - 1};
    }
  }

  ghost predicate InTurnAt(order: seq<nat>, recorded: seq<HttpInteraction>, config: MatchConfig, i: nat)
    requires i < |recorded|
  {
    FirstOutside(Candidates(order, recorded, recorded[i].request, config), Below(i)) == Some(i)
  }

  lemma InTurnIff(order: seq<nat>, recorded: seq<HttpInteraction>, config: MatchConfig, i: nat)
    requires Arranges(order, |recorded|) && config.Valid() && i < |recorded|
    ensures InTurnAt(order, recorded, config, i) <==>
            forall j: nat :: Fits(recorded, i, j, config) ==> Before(order, i, j)
  {
    var at := Inverse(order, |recorded|, |recorded|);
    var isMatch := MatchAt(recorded, recorded[i].request, config);
    MatchesItself(recorded[i].request, config);
    FirstOutsideAt(order, isMatch, Below(i), at[i]);
    if forall b :: 0 <= b < at[i] ==> !(isMatch(order[b]) && order[b] !in Below(i)) {
      forall j: nat | Fits(recorded, i, j, config) ensures Before(order, i, j)
      {
        assert order[at[j]] == j && isMatch(j) && j !in Below(i);
        assert at[i] < at[j];
        assert order[at[i]] == i;
      }
    }
    if forall j: nat :: Fits(recorded, i, j, config) ==> Before(order, i, j) {
      forall b | 0 <= b < at[i] ensures !(isMatch(order[b]) && order[b] !in Below(i)) {
        var j := order[b];
        assert j in order && j != i;
        assert isMatch(j) && j !in Below(i) ==> Fits(recorded, i, j, config);
      }
    }
  }

  /** Asking for every recording once, in order, returns each in turn exactly when none overtakes another. */
  lemma AskedInTurn(order: seq<nat>, recorded: seq<HttpInteraction>, config: MatchConfig, recording: bool)
    requires Arranges(order, |recorded|) && config.Valid()
    ensures CountsFrom(Run(order, recorded, {}, RequestsOf(recorded), config, recording), 0) <==>
            NoOvertaking(order, recorded, config)
  {
    assert RequestsOf(recorded)[0..] == RequestsOf(recorded);
    assert Below(0) == {};
    AskedFrom(order, recorded, RequestsOf(recorded), config, recording, 0);
    if InTurnFrom(order, recorded, config, 0) {
      forall i: nat, j: nat | Fits(recorded, i, j, config) ensures Before(order, i, j) {
        InTurnIff(order, recorded, config, i);
      }
    }
    if NoOvertaking(order, recorded, config) {
      forall i: nat | i < |recorded| ensures InTurnAt(order, recorded, config, i) {
        InTurnIff(order, recorded, config, i);
      }
    }
  }

  lemma AskedNext(
      order: seq<nat>, recorded: seq<HttpInteraction>, config: MatchConfig, recording: bool, from: nat)
    requires Arranges(order, |recorded|) && config.Valid() && from < |recorded|
    ensures var taken := Choose(Candidates(order, recorded, recorded[from].request, config), Below(from), !recording);
            && (taken == Some(from) <==> InTurnAt(order, recorded, config, from))
            && (taken == Some(from) ==> Mark(Below(from), taken) == Below(from + 1))
  {
    var candidates := Candidates(order, recorded, recorded[from].request, config);
    MatchesItself(recorded[from].request, config);
    AllPresent(order, |recorded|);
    assert from in candidates && from !in Below(from);
  }

  ghost predicate InTurnFrom(order: seq<nat>, recorded: seq<HttpInteraction>, config: MatchConfig, from: nat) {
    forall i: nat :: from <= i < |recorded| ==> InTurnAt(order, recorded, config, i)
  }

  lemma {:induction false} AskedFrom(
      order: seq<nat>, recorded: seq<HttpInteraction>, probes: seq<HttpRequest>, config: MatchConfig, recording: bool,
      from: nat)
    requires Arranges(order, |recorded|) && config.Valid() && from <= |recorded|
    requires probes == RequestsOf(recorded)[from..]
    ensures CountsFrom(Run(order, recorded, Below(from), probes, config, recording), from) <==>
            InTurnFrom(order, recorded, config, from)
    decreases |recorded| - from
  {
    if from < |recorded| {
      AskedNext(order, recorded, config, recording, from);
      assert probes[0] == recorded[from].request;
      var taken := Choose(Candidates(order, recorded, probes[0], config), Below(from), !recording);
      var rest := Run(order, recorded, Mark(Below(from), taken), probes[1..], config, recording);
      Counting(taken, rest, from);
      if taken == Some(from) {
        AskedFrom(order, recorded, probes[1..], config, recording, from + 1);
        assert InTurnFrom(order, recorded, config, from + 1) <==> InTurnFrom(order, recorded, config, from);
      }
    }
  }

  ghost predicate CountsFrom(answered: seq<Option<nat>>, from: nat) {
    forall i :: 0 <= i < |answered| ==> answered[i] == Some(from + i)
  }

  lemma Counting(first: Option<nat>, rest: seq<Option<nat>>, from: nat)
    ensures CountsFrom([first] + rest, from) <==> first == Some(from) && CountsFrom(rest, from + 1)
  {
    var all := [first] + rest;
    assert all[0] == first;
    if CountsFrom(all, from) {
      forall i | 0 <= i < |rest| ensures rest[i] == Some(from + 1 + i) {
        assert rest[i] == all[i + 1];
      }
    }
  }
}
