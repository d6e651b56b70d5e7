/** `ordering.rs`: the order interactions are written to disk in, and what it means for replay. */
module Ordering {
  import opened Compatibility
  import J = Json
  import opened Lexicographic
  import opened Matching
  import opened Options
  import opened Protocol
  import opened Replay
  import opened Sorting

  // --- validate ---

  datatype Validation = Accepted | OutOfRange(index: nat) | Repeated(index: nat) | WrongLength(length: nat)

  ghost predicate WritesOnce(order: seq<nat>, count: nat) {
    Distinct(order) && forall i: nat | i in order :: i < count
  }

  /** Accepts exactly the orders that write every interaction once, and otherwise names the first offence. */
  method Validate(order: seq<nat>, count: nat) returns (r: Validation)
    ensures r.Accepted? <==> Arranges(order, count)
    ensures r.OutOfRange? ==> exists k :: 0 <= k < |order| && order[k] == r.index >= count && WritesOnce(order[..k], count)
    ensures r.Repeated? ==> exists k :: 0 <= k < |order| && order[k] == r.index && r.index in order[..k] &&
                                        WritesOnce(order[..k], count)
    ensures r.WrongLength? ==> r.length == |order| != count && WritesOnce(order, count)
  {
    var written := new bool[count](_ => false);
    for k := 0 to |order|
      invariant WritesOnce(order[..k], count)
      invariant forall i :: 0 <= i < count ==> (written[i] <==> i in order[..k])
    {
      var idx := order[k];
      assert order[..k + 1] == order[..k] + [idx];
      if idx >= count {
        assert idx in order;
        return OutOfRange(idx);
      }
      if written[idx] {
        return Repeated(idx);
      }
      written[idx] := true;
    }
    assert order[..|order|] == order;
    if |order| != count {
      return WrongLength(|order|);
    }
    return Accepted;
  }

  // --- output_order ---

  function TieAt(tie: seq<nat>, i: nat): nat {
    if i < |tie| then tie[i] else 0
  }

  function KeyAt(keys: seq<seq<string>>, i: nat): seq<string> {
    if i < |keys| then keys[i] else []
  }

  function ByTie(tie: seq<nat>): (nat, nat) -> bool {
    (i: nat, j: nat) => TieAt(tie, i) <= TieAt(tie, j)
  }

  function ByKey(keys: seq<seq<string>>): (nat, nat) -> bool {
    (i: nat, j: nat) => KeyLe(KeyAt(keys, i), KeyAt(keys, j))
  }

  lemma ByKeyTotal(keys: seq<seq<string>>)
    ensures TotalPreorder(ByKey(keys))
  {
    forall i: nat, j: nat, k: nat
      ensures KeyLe(KeyAt(keys, i), KeyAt(keys, j)) || KeyLe(KeyAt(keys, j), KeyAt(keys, i))
      ensures KeyLe(KeyAt(keys, i), KeyAt(keys, j)) && KeyLe(KeyAt(keys, j), KeyAt(keys, k)) ==>
                KeyLe(KeyAt(keys, i), KeyAt(keys, k))
    {
      KeyLeOrder(KeyAt(keys, i), KeyAt(keys, j), KeyAt(keys, k));
    }
  }

  function KeysOf(interactions: seq<HttpInteraction>, config: MatchConfig): (r: seq<seq<string>>)
    ensures |r| == |interactions| && forall i :: 0 <= i < |r| ==> r[i] == Key(interactions[i].request, config)
  {
    seq(|interactions|, i requires 0 <= i < |interactions| => Key(interactions[i].request, config))
  }

  /** The recorded order: by tie-break where one is given for every interaction. */
  function RecordedOrder(count: nat, tie: seq<nat>): seq<nat> {
    if |tie| == count then StableSort(Iota(count), ByTie(tie)) else Iota(count)
  }

  function WriteOrder(interactions: seq<HttpInteraction>, config: Option<MatchConfig>, tie: seq<nat>): seq<nat> {
    var recorded := RecordedOrder(|interactions|, tie);
    match config
    case None => recorded
    case Some(c) => StableSort(recorded, ByKey(KeysOf(interactions, c)))
  }

  method OutputOrder(interactions: seq<HttpInteraction>, config: Option<MatchConfig>, tieBreak: seq<nat>)
    returns (order: seq<nat>)
    ensures order == WriteOrder(interactions, config, tieBreak)
    ensures Arranges(order, |interactions|)
  {
    order := [];
    for i := 0 to |interactions|
      invariant order == Iota(i)
    {
      order := order + [i];
    }
    if |tieBreak| == |interactions| {
      order := StableSort(order, ByTie(tieBreak));
    }
    if config.Some? {
      var keys: seq<seq<string>> := [];
      for i := 0 to |interactions|
        invariant keys == KeysOf(interactions, config.value)[..i]
      {
        var key := SortKey(interactions[i].request, config.value);
        keys := keys + [key];
      }
      assert keys == KeysOf(interactions, config.value);
      order := StableSort(order, ByKey(keys));
    }
    WriteOrderArranges(interactions, config, tieBreak);
  }

  lemma SortArranges(order: seq<nat>, count: nat, le: (nat, nat) -> bool)
    requires Arranges(order, count)
    ensures Arranges(StableSort(order, le), count)
  {
    SortDistinct(order, le);
    SortElements(order, le);
  }

  lemma RecordedOrderArranges(count: nat, tie: seq<nat>)
    ensures Arranges(RecordedOrder(count, tie), count)
  {
    if |tie| == count {
      SortArranges(Iota(count), count, ByTie(tie));
    }
  }

  /** Every interaction is written exactly once, so `validate` never refuses an order from `output_order`. */
  lemma WriteOrderArranges(interactions: seq<HttpInteraction>, config: Option<MatchConfig>, tie: seq<nat>)
    ensures Arranges(WriteOrder(interactions, config, tie), |interactions|)
    ensures multiset(WriteOrder(interactions, config, tie)) == multiset(RecordedOrder(|interactions|, tie))
  {
    RecordedOrderArranges(|interactions|, tie);
    if config.Some? {
      var le := ByKey(KeysOf(interactions, config.value));
      SortArranges(RecordedOrder(|interactions|, tie), |interactions|, le);
      SortMultiset(RecordedOrder(|interactions|, tie), le);
    }
  }

  function Written(interactions: seq<HttpInteraction>, config: Option<MatchConfig>, tie: seq<nat>): seq<HttpInteraction> {
    WriteOrderArranges(interactions, config, tie);
    Arranged(interactions, WriteOrder(interactions, config, tie))
  }

  // --- Sorting and replay ---

  /** Of two recordings one request could match, the earlier never has the larger key: pair by pair, in recorded order. */
  ghost predicate PairsInOrder(interactions: seq<HttpInteraction>, config: MatchConfig, tie: seq<nat>) {
    var order := RecordedOrder(|interactions|, tie);
    forall x, y :: 0 <= x < y < |order| && CompatibleAt(interactions, order[x], order[y], config) ==>
      ByKey(KeysOf(interactions, config))(order[x], order[y])
  }

  predicate CompatibleAt(interactions: seq<HttpInteraction>, i: nat, j: nat, config: MatchConfig) {
    i < |interactions| && j < |interactions| && Compatible(interactions[i].request, interactions[j].request, config)
  }

  /** The recordings one request matches, in recorded order, have ascending keys. */
  ghost predicate AscendingFor(p: HttpRequest, interactions: seq<HttpInteraction>, config: MatchConfig, tie: seq<nat>) {
    Sorted(Candidates(RecordedOrder(|interactions|, tie), interactions, p, config), ByKey(KeysOf(interactions, config)))
  }

  /** Looking at pairs of recordings is looking at every request there could be. */
  lemma PairsDecideRequests(interactions: seq<HttpInteraction>, config: MatchConfig, tie: seq<nat>)
    ensures PairsInOrder(interactions, config, tie) <==> forall p :: AscendingFor(p, interactions, config, tie)
  {
    var order, le := RecordedOrder(|interactions|, tie), ByKey(KeysOf(interactions, config));
    RecordedOrderArranges(|interactions|, tie);
    forall p ensures AscendingFor(p, interactions, config, tie) <==> PairSorted(order, le, MatchAt(interactions, p, config)) {
      FilterSortedIff(order, le, MatchAt(interactions, p, config));
    }
    if PairsInOrder(interactions, config, tie) {
      forall p ensures PairSorted(order, le, MatchAt(interactions, p, config)) {
        PairsOrderMatches(interactions, config, tie, p);
      }
    }
    if forall p :: AscendingFor(p, interactions, config, tie) {
      forall x, y | 0 <= x < y < |order| && CompatibleAt(interactions, order[x], order[y], config)
        ensures le(order[x], order[y])
      {
        var a, b := interactions[order[x]].request, interactions[order[y]].request;
        WitnessMatches(a, b, config);
        assert AscendingFor(Witness(a, b), interactions, config, tie);
        assert PairSorted(order, le, MatchAt(interactions, Witness(a, b), config));
      }
    }
  }

  lemma PairsOrderMatches(interactions: seq<HttpInteraction>, config: MatchConfig, tie: seq<nat>, p: HttpRequest)
    requires PairsInOrder(interactions, config, tie)
    ensures PairSorted(RecordedOrder(|interactions|, tie), ByKey(KeysOf(interactions, config)), MatchAt(interactions, p, config))
  {
    var order, isMatch := RecordedOrder(|interactions|, tie), MatchAt(interactions, p, config);
    forall x, y | 0 <= x < y < |order| && isMatch(order[x]) && isMatch(order[y])
      ensures CompatibleAt(interactions, order[x], order[y], config)
    {
      MatchedAreCompatible(p, interactions[order[x]].request, interactions[order[y]].request, config);
    }
  }

  /** Replaying the written order and the recorded order gives the same recordings to every request sequence, exactly
      when no two compatible recordings stand against their keys. */
  lemma SortingPreservesReplayIff(
      interactions: seq<HttpInteraction>, config: MatchConfig, tie: seq<nat>, recording: bool)
    ensures SameRuns(RecordedOrder(|interactions|, tie), WriteOrder(interactions, Some(config), tie),
                     interactions, config, recording) <==>
            PairsInOrder(interactions, config, tie)
  {
    var recorded, sorted := RecordedOrder(|interactions|, tie), WriteOrder(interactions, Some(config), tie);
    var le := ByKey(KeysOf(interactions, config));
    RecordedOrderArranges(|interactions|, tie);
    WriteOrderArranges(interactions, Some(config), tie);
    RunsDecideCandidates(recorded, sorted, interactions, config, recording);
    ByKeyTotal(KeysOf(interactions, config));
    forall p
      ensures Candidates(recorded, interactions, p, config) == Candidates(sorted, interactions, p, config) <==>
              AscendingFor(p, interactions, config, tie)
    {
      SortKeepsSelection(recorded, le, MatchAt(interactions, p, config));
    }
    assert SameCandidates(recorded, sorted, interactions, config) <==>
           forall p :: AscendingFor(p, interactions, config, tie);
    PairsDecideRequests(interactions, config, tie);
  }

  ghost predicate AllZeroSafe(interactions: seq<HttpInteraction>, config: MatchConfig) {
    forall i | i in interactions :: ZeroSafe(i.request, config)
  }

  /** No recorded body with a negative float zero: nothing is ever swapped. */
  lemma ZeroSafeInOrder(interactions: seq<HttpInteraction>, config: MatchConfig, tie: seq<nat>)
    requires AllZeroSafe(interactions, config)
    ensures PairsInOrder(interactions, config, tie)
  {
    var order, keys := RecordedOrder(|interactions|, tie), KeysOf(interactions, config);
    forall x, y | 0 <= x < y < |order| && CompatibleAt(interactions, order[x], order[y], config)
      ensures ByKey(keys)(order[x], order[y])
    {
      var a, b := interactions[order[x]], interactions[order[y]];
      assert a in interactions && b in interactions;
      WitnessMatches(a.request, b.request, config);
      MatchesShareKey(Witness(a.request, b.request), a.request, b.request, config);
      KeyLeOrder(keys[order[x]], keys[order[y]], keys[order[x]]);
    }
  }

  /** The claim of `output_order`'s comment: the sort makes the file canonical without changing what replays.
      Replaying the written file answers every request sequence as replaying in recorded order does. */
  lemma SortingPreservesReplay(
      interactions: seq<HttpInteraction>, config: MatchConfig, tie: seq<nat>, probes: seq<HttpRequest>, recording: bool)
    requires PairsInOrder(interactions, config, tie)
    ensures var recorded := RecordedOrder(|interactions|, tie);
            var file := Written(interactions, Some(config), tie);
            Answers(file, Run(Iota(|file|), file, {}, probes, config, recording)) ==
            Answers(interactions, Run(recorded, interactions, {}, probes, config, recording))
  {
    var order := WriteOrder(interactions, Some(config), tie);
    WriteOrderArranges(interactions, Some(config), tie);
    SortingPreservesReplayIff(interactions, config, tie, recording);
    assert Positions(order, {}) == {};
    WrittenRun(order, interactions, {}, probes, config, recording);
  }

  // --- Asking for what was recorded, in the order it was reserved ---

  lemma IncreasingTie(tie: seq<nat>, count: nat)
    requires Increasing(tie) && |tie| == count
    ensures RecordedOrder(count, tie) == Iota(count)
  {
    SortOfSorted(Iota(count), ByTie(tie));
  }

  function Either(i: nat, j: nat): nat -> bool {
    (k: nat) => k == i || k == j
  }

  lemma {:induction false} SelectOne(s: seq<nat>, i: nat, j: nat)
    requires Distinct(s) && i !in s && j in s
    ensures Filter(s, Either(i, j)) == [j]
  {
    if s[0] == j {
      FilterNone(s[1..], Either(i, j));
    } else {
      SelectOne(s[1..], i, j);
    }
  }

  lemma {:induction false} FilterNone(s: seq<nat>, p: nat -> bool)
    requires forall x :: x in s ==> !p(x)
    ensures Filter(s, p) == []
  {
    if s != [] {
      FilterNone(s[1..], p);
    }
  }

  lemma {:induction false} SelectTwo(s: seq<nat>, i: nat, j: nat)
    requires Distinct(s) && i != j && i in s && j in s
    ensures Filter(s, Either(i, j)) == if Before(s, i, j) then [i, j] else [j, i]
  {
    var tail := s[1..];
    var a :| 0 <= a < |s| && s[a] == i;
    var b :| 0 <= b < |s| && s[b] == j;
    assert Before(s, i, j) <==> a < b;
    if s[0] == i {
      SelectOne(tail, i, j);
    } else if s[0] == j {
      SelectOne(tail, j, i);
      FilterAgree(tail, Either(i, j), Either(j, i));
    } else {
      assert tail[a - 1] == i && tail[b - 1] == j;
      SelectTwo(tail, i, j);
      assert Before(tail, i, j) <==> a < b;
    }
  }

  lemma {:induction false} SelectFromIota(n: nat, i: nat, j: nat)
    requires i < j < n
    ensures Filter(Iota(n), Either(i, j)) == [i, j]
  {
    assert Iota(n)[i] == i && Iota(n)[j] == j;
    SelectTwo(Iota(n), i, j);
  }

  /** After a stable sort of 0, 1, .., n-1 two indices stand in order exactly when the comparison allows it. */
  lemma SortedBefore(n: nat, le: (nat, nat) -> bool, i: nat, j: nat)
    requires TotalPreorder(le) && i < j < n
    ensures Before(StableSort(Iota(n), le), i, j) <==> le(i, j)
  {
    SelectFromIota(n, i, j);
    FilterSortCommute(Iota(n), le, Either(i, j));
    SortPair(i, j, le);
    SortDistinct(Iota(n), le);
    SortElements(Iota(n), le);
    assert Iota(n)[i] == i && Iota(n)[j] == j;
    SelectTwo(StableSort(Iota(n), le), i, j);
  }

  /** A recording that fits an earlier request never has a smaller key than that request's own recording. */
  ghost predicate KeysInTurn(interactions: seq<HttpInteraction>, config: MatchConfig) {
    forall i: nat, j: nat :: Fits(interactions, i, j, config) ==>
      KeyLe(Key(interactions[i].request, config), Key(interactions[j].request, config))
  }

  /** The k-th request, asked of the written file, gets the k-th recording for every k exactly when `KeysInTurn`. */
  lemma RoundTripIff(interactions: seq<HttpInteraction>, config: MatchConfig, tie: seq<nat>, recording: bool)
    requires Increasing(tie) && |tie| == |interactions| && config.Valid()
    ensures var order := WriteOrder(interactions, Some(config), tie);
            CountsFrom(Run(order, interactions, {}, RequestsOf(interactions), config, recording), 0) <==>
            KeysInTurn(interactions, config)
  {
    var order := WriteOrder(interactions, Some(config), tie);
    WriteOrderArranges(interactions, Some(config), tie);
    AskedInTurn(order, interactions, config, recording);
    OvertakingByKey(interactions, config, tie);
  }

  lemma OvertakingByKey(interactions: seq<HttpInteraction>, config: MatchConfig, tie: seq<nat>)
    requires Increasing(tie) && |tie| == |interactions|
    ensures NoOvertaking(WriteOrder(interactions, Some(config), tie), interactions, config) <==>
            KeysInTurn(interactions, config)
  {
    forall i: nat, j: nat | Fits(interactions, i, j, config)
      ensures Before(WriteOrder(interactions, Some(config), tie), i, j) <==>
              KeyLe(Key(interactions[i].request, config), Key(interactions[j].request, config))
    {
      WrittenBefore(interactions, config, tie, i, j);
    }
  }

  lemma WrittenBefore(interactions: seq<HttpInteraction>, config: MatchConfig, tie: seq<nat>, i: nat, j: nat)
    requires Increasing(tie) && |tie| == |interactions| && i < j < |interactions|
    ensures Before(WriteOrder(interactions, Some(config), tie), i, j) <==>
            KeyLe(Key(interactions[i].request, config), Key(interactions[j].request, config))
  {
    var keys := KeysOf(interactions, config);
    IncreasingTie(tie, |interactions|);
    ByKeyTotal(keys);
    SortedBefore(|interactions|, ByKey(keys), i, j);
  }

  lemma ZeroSafeInTurn(interactions: seq<HttpInteraction>, config: MatchConfig)
    requires AllZeroSafe(interactions, config) && config.Valid()
    ensures KeysInTurn(interactions, config)
  {
    forall i: nat, j: nat | Fits(interactions, i, j, config)
      ensures KeyLe(Key(interactions[i].request, config), Key(interactions[j].request, config))
    {
      MatchesItself(interactions[i].request, config);
      assert interactions[i] in interactions && interactions[j] in interactions;
      MatchesShareKey(interactions[i].request, interactions[i].request, interactions[j].request, config);
      var key := Key(interactions[i].request, config);
      KeyLeOrder(key, key, key);
    }
  }

  /** A replay-only session over the written file gives every request, asked in reservation order, its own response. */
  lemma RoundTrip(interactions: seq<HttpInteraction>, config: MatchConfig, tie: seq<nat>)
    requires Increasing(tie) && |tie| == |interactions| && config.Valid()
    requires KeysInTurn(interactions, config)
    ensures var file := Written(interactions, Some(config), tie);
            var answers := Answers(file, Run(Iota(|file|), file, {}, RequestsOf(interactions), config, false));
            forall k :: 0 <= k < |interactions| ==> answers[k] == Some(interactions[k].response)
  {
    var order := WriteOrder(interactions, Some(config), tie);
    WriteOrderArranges(interactions, Some(config), tie);
    RoundTripIff(interactions, config, tie, false);
    InTurnAnswers(order, interactions, config);
  }

  lemma InTurnAnswers(order: seq<nat>, interactions: seq<HttpInteraction>, config: MatchConfig)
    requires Arranges(order, |interactions|)
    requires CountsFrom(Run(order, interactions, {}, RequestsOf(interactions), config, false), 0)
    ensures var file := Arranged(interactions, order);
            var answers := Answers(file, Run(Iota(|file|), file, {}, RequestsOf(interactions), config, false));
            forall k :: 0 <= k < |interactions| ==> answers[k] == Some(interactions[k].response)
  {
    assert Positions(order, {}) == {};
    WrittenRun(order, interactions, {}, RequestsOf(interactions), config, false);
    CountedAnswers(interactions, Run(order, interactions, {}, RequestsOf(interactions), config, false));
  }

  lemma CountedAnswers(interactions: seq<HttpInteraction>, taken: seq<Option<nat>>)
    requires CountsFrom(taken, 0) && |taken| == |interactions|
    ensures forall k :: 0 <= k < |interactions| ==> Answers(interactions, taken)[k] == Some(interactions[k].response)
  {}

  // --- The order of the file ---

  lemma KeyBegins(request: HttpRequest, config: MatchConfig)
    requires |config.matchOn| >= 2 && config.matchOn[0] == ByMethod && config.matchOn[1] == ByUri
    ensures var key := Key(request, config);
            |key| >= 2 && key[0] == ToUpper(request.method_, config.upper) && key[1] == request.uri
  {
    var tail := config.matchOn[1..];
    assert tail[0] == ByUri;
    assert KeyOf(request, tail, config) == KeyPart(request, ByUri, config) + KeyOf(request, tail[1..], config);
    assert Key(request, config) == KeyPart(request, ByMethod, config) + KeyOf(request, tail, config);
  }

  ghost predicate MethodThenUri(a: HttpRequest, b: HttpRequest, upper: map<char, string>) {
    && StrLe(ToUpper(a.method_, upper), ToUpper(b.method_, upper))
    && (ToUpper(a.method_, upper) == ToUpper(b.method_, upper) ==> StrLe(a.uri, b.uri))
  }

  /** With the default matchers the file is sorted by method, and under one method by URI. */
  lemma WrittenAscends(interactions: seq<HttpInteraction>, config: MatchConfig, tie: seq<nat>, i: nat, j: nat)
    requires |config.matchOn| >= 2 && config.matchOn[0] == ByMethod && config.matchOn[1] == ByUri
    requires i < j < |Written(interactions, Some(config), tie)|
    ensures var file := Written(interactions, Some(config), tie);
            MethodThenUri(file[i].request, file[j].request, config.upper)
  {
    var order, keys := WriteOrder(interactions, Some(config), tie), KeysOf(interactions, config);
    WriteOrderArranges(interactions, Some(config), tie);
    ByKeyTotal(keys);
    SortSorts(RecordedOrder(|interactions|, tie), ByKey(keys));
    assert order[i] in order && order[j] in order;
    KeyBegins(interactions[order[i]].request, config);
    KeyBegins(interactions[order[j]].request, config);
    KeysInOrder(keys[order[i]], keys[order[j]]);
    assert ByKey(keys)(order[i], order[j]);
  }

  lemma KeysInOrder(a: seq<string>, b: seq<string>)
    requires |a| >= 2 && |b| >= 2 && KeyLe(a, b)
    ensures StrLe(a[0], b[0]) && (a[0] == b[0] ==> StrLe(a[1], b[1]))
  {
    StrLeOrder(a[0], b[0], a[0]);
    StrLeOrder(a[1], b[1], a[1]);
  }

  // --- Completion order ---

  datatype Slot = Slot(order: nat, interaction: HttpInteraction)

  function Slots(orders: seq<nat>, interactions: seq<HttpInteraction>): (r: seq<Slot>)
    requires |orders| == |interactions|
    ensures |r| == |orders| && forall i :: 0 <= i < |r| ==> r[i] == Slot(orders[i], interactions[i])
  {
    seq(|orders|, i requires 0 <= i < |orders| => Slot(orders[i], interactions[i]))
  }

  function BySlot(): (Slot, Slot) -> bool {
    (a: Slot, b: Slot) => a.order <= b.order
  }

  function BySlotKey(config: MatchConfig): (Slot, Slot) -> bool {
    (a: Slot, b: Slot) => KeyLe(Key(a.interaction.request, config), Key(b.interaction.request, config))
  }

  function SlotAt(slots: seq<Slot>): nat -> Slot
    requires slots != []
  {
    (i: nat) => if i < |slots| then slots[i] else slots[0]
  }

  function Interactions(slots: seq<Slot>): (r: seq<HttpInteraction>)
    ensures |r| == |slots| && forall i :: 0 <= i < |r| ==> r[i] == slots[i].interaction
  {
    seq(|slots|, i requires 0 <= i < |slots| => slots[i].interaction)
  }

  /** The file as a function of the slots alone: sort them by reservation, then by key. */
  function FileOf(slots: seq<Slot>, config: MatchConfig): seq<HttpInteraction> {
    Interactions(StableSort(StableSort(slots, BySlot()), BySlotKey(config)))
  }

  lemma WrittenIsFile(orders: seq<nat>, interactions: seq<HttpInteraction>, config: MatchConfig)
    requires |orders| == |interactions|
    ensures Written(interactions, Some(config), orders) == FileOf(Slots(orders, interactions), config)
  {
    var order := WriteOrder(interactions, Some(config), orders);
    WriteOrderArranges(interactions, Some(config), orders);
    if |orders| > 0 {
      var slots := Slots(orders, interactions);
      SortedSlots(orders, interactions, config);
      SlotsArranged(slots, interactions, order);
    }
  }

  lemma SlotsArranged(slots: seq<Slot>, interactions: seq<HttpInteraction>, order: seq<nat>)
    requires slots != [] && |slots| == |interactions| && Arranges(order, |slots|)
    requires forall i :: 0 <= i < |slots| ==> slots[i].interaction == interactions[i]
    ensures Arranged(interactions, order) == Interactions(Map(SlotAt(slots), order))
  {
    forall k | 0 <= k < |order| ensures Arranged(interactions, order)[k] == Interactions(Map(SlotAt(slots), order))[k] {
      assert order[k] in order;
    }
  }

  lemma SortedSlots(orders: seq<nat>, interactions: seq<HttpInteraction>, config: MatchConfig)
    requires |orders| == |interactions| > 0
    ensures var slots := Slots(orders, interactions);
            Map(SlotAt(slots), WriteOrder(interactions, Some(config), orders)) ==
            StableSort(StableSort(slots, BySlot()), BySlotKey(config))
  {
    var n, slots, keys := |orders|, Slots(orders, interactions), KeysOf(interactions, config);
    var recorded := RecordedOrder(n, orders);
    RecordedOrderArranges(n, orders);
    assert Map(SlotAt(slots), Iota(n)) == slots;
    TieMirrors(orders, slots);
    MapSort(Iota(n), SlotAt(slots), ByTie(orders), BySlot());
    KeyMirrors(recorded, slots, interactions, config);
    MapSort(recorded, SlotAt(slots), ByKey(keys), BySlotKey(config));
  }

  lemma TieMirrors(orders: seq<nat>, slots: seq<Slot>)
    requires slots != [] && |orders| == |slots| && forall i :: 0 <= i < |slots| ==> slots[i].order == orders[i]
    ensures Mirrors(Iota(|orders|), SlotAt(slots), ByTie(orders), BySlot())
  {}

  lemma KeyMirrors(order: seq<nat>, slots: seq<Slot>, interactions: seq<HttpInteraction>, config: MatchConfig)
    requires slots != [] && |interactions| == |slots| && Arranges(order, |slots|)
    requires forall i :: 0 <= i < |slots| ==> slots[i].interaction == interactions[i]
    ensures Mirrors(order, SlotAt(slots), ByKey(KeysOf(interactions, config)), BySlotKey(config))
  {
    var keys := KeysOf(interactions, config);
    forall i, j | 0 <= i < |order| && 0 <= j < |order|
      ensures ByKey(keys)(order[i], order[j]) == BySlotKey(config)(SlotAt(slots)(order[i]), SlotAt(slots)(order[j]))
    {
      assert order[i] in order && order[j] in order;
    }
  }

  /** Two sessions that reserved the same orders for the same interactions write the same file, however their
      responses came back. */
  lemma CompletionOrderIndependent(
      orders: seq<nat>, interactions: seq<HttpInteraction>, orders': seq<nat>, interactions': seq<HttpInteraction>,
      config: MatchConfig)
    requires |orders| == |interactions| && |orders'| == |interactions'|
    requires Distinct(orders) && Distinct(orders')
    requires forall s :: s in Slots(orders, interactions) <==> s in Slots(orders', interactions')
    ensures Written(interactions, Some(config), orders) == Written(interactions', Some(config), orders')
  {
    var left, right := Slots(orders, interactions), Slots(orders', interactions');
    WrittenIsFile(orders, interactions, config);
    WrittenIsFile(orders', interactions', config);
    SlotsSortSame(orders, interactions, orders', interactions');
  }

  lemma SlotsSortSame(
      orders: seq<nat>, interactions: seq<HttpInteraction>, orders': seq<nat>, interactions': seq<HttpInteraction>)
    requires |orders| == |interactions| && |orders'| == |interactions'|
    requires Distinct(orders) && Distinct(orders')
    requires forall s :: s in Slots(orders, interactions) <==> s in Slots(orders', interactions')
    ensures StableSort(Slots(orders, interactions), BySlot()) == StableSort(Slots(orders', interactions'), BySlot())
  {
    var left, right := Slots(orders, interactions), Slots(orders', interactions');
    forall s, t | s in left && t in left && BySlot()(s, t) && BySlot()(t, s) ensures s == t {
      var i :| 0 <= i < |left| && left[i] == s;
      var j :| 0 <= j < |left| && left[j] == t;
      assert orders[i] == orders[j];
    }
    SortSame(left, right, BySlot());
  }

  lemma SlotsInOrder(interactions: seq<HttpInteraction>)
    ensures StableSort(Slots(Iota(|interactions|), interactions), BySlot()) == Slots(Iota(|interactions|), interactions)
  {
    SortOfSorted(Slots(Iota(|interactions|), interactions), BySlot());
  }

  lemma BySlotKeyTotal(config: MatchConfig)
    ensures TotalPreorder(BySlotKey(config))
  {
    forall a: Slot, b: Slot, c: Slot
      ensures BySlotKey(config)(a, b) || BySlotKey(config)(b, a)
      ensures BySlotKey(config)(a, b) && BySlotKey(config)(b, c) ==> BySlotKey(config)(a, c)
    {
      KeyLeOrder(Key(a.interaction.request, config), Key(b.interaction.request, config), Key(c.interaction.request, config));
    }
  }

  /** Loading a written file and writing it again, in the order it was loaded, changes nothing. */
  lemma RewritingIsIdentity(orders: seq<nat>, interactions: seq<HttpInteraction>, config: MatchConfig)
    requires |orders| == |interactions|
    ensures var file := Written(interactions, Some(config), orders);
            Written(file, Some(config), Iota(|file|)) == file
  {
    var file := Written(interactions, Some(config), orders);
    WrittenIsFile(orders, interactions, config);
    WrittenIsFile(Iota(|file|), file, config);
    SlotsInOrder(file);
    var sorted := StableSort(StableSort(Slots(orders, interactions), BySlot()), BySlotKey(config));
    BySlotKeyTotal(config);
    SortSorts(StableSort(Slots(orders, interactions), BySlot()), BySlotKey(config));
    var again := Slots(Iota(|file|), file);
    assert Sorted(again, BySlotKey(config)) by {
      forall i, j | 0 <= i < j < |again| ensures BySlotKey(config)(again[i], again[j]) {
        assert BySlotKey(config)(sorted[i], sorted[j]);
      }
    }
    SortOfSorted(again, BySlotKey(config));
  }

  // --- The one input family on which it fails: the two float zeros ---

  function ZeroRecording(zero: string): HttpInteraction
    requires J.FloatZero(zero)
  {
    HttpInteraction(HttpRequest("POST", "/", [], JsonBody(J.Number(zero))), HttpResponse(200, [], TextBody(zero)), "")
  }

  lemma ZeroKey(zero: string, config: MatchConfig)
    requires J.FloatZero(zero) && config == MatchConfig([ByJsonBody], [], map[], map[])
    ensures Key(ZeroRecording(zero).request, config) == [zero]
  {
    var request := ZeroRecording(zero).request;
    FilterNothing(J.Number(zero), "");
    assert KeyPart(request, ByJsonBody, config) == [zero];
    assert config.matchOn[1..] == [];
    assert KeyOf(request, config.matchOn, config) == [zero] + KeyOf(request, [], config);
  }

  lemma ZeroKeysSwap()
    ensures !KeyLe(["0.0"], ["-0.0"]) && KeyLe(["-0.0"], ["0.0"])
  {
    assert !StrLe("0.0", "-0.0") && StrLe("-0.0", "0.0");
  }

  lemma ZerosMatch(zero: string, config: MatchConfig)
    requires J.FloatZero(zero) && config == MatchConfig([ByJsonBody], [], map[], map[])
    ensures Matches(ZeroRecording("0.0").request, ZeroRecording(zero).request, config)
  {
    FilterNothing(J.Number("0.0"), "");
    FilterNothing(J.Number(zero), "");
  }

  const ZERO_CONFIG := MatchConfig([ByJsonBody], [], map[], map[])
  const ZEROS := [ZeroRecording("0.0"), ZeroRecording("-0.0")]

  lemma ZeroOrders(tie: seq<nat>)
    requires tie == [0, 1]
    ensures RecordedOrder(2, tie) == tie
    ensures !ByKey(KeysOf(ZEROS, ZERO_CONFIG))(0, 1)
    ensures WriteOrder(ZEROS, Some(ZERO_CONFIG), tie) == [1, 0]
  {
    var zero: nat, one: nat := 0, 1;
    ZeroKey("0.0", ZERO_CONFIG);
    ZeroKey("-0.0", ZERO_CONFIG);
    ZeroKeysSwap();
    assert Iota(2) == [zero, one];
    SortPair(zero, one, ByTie(tie));
    SortPair(zero, one, ByKey(KeysOf(ZEROS, ZERO_CONFIG)));
  }

  lemma ZeroCandidates(tie: seq<nat>, swapped: seq<nat>)
    requires tie == [0, 1] && swapped == [1, 0]
    ensures Candidates(tie, ZEROS, ZEROS[0].request, ZERO_CONFIG) == tie
    ensures Candidates(swapped, ZEROS, ZEROS[0].request, ZERO_CONFIG) == swapped
  {
    var zero: nat, one: nat := 0, 1;
    ZerosMatch("0.0", ZERO_CONFIG);
    ZerosMatch("-0.0", ZERO_CONFIG);
    FilterPair(zero, one, MatchAt(ZEROS, ZEROS[0].request, ZERO_CONFIG));
    FilterPair(one, zero, MatchAt(ZEROS, ZEROS[0].request, ZERO_CONFIG));
  }

  lemma ArrangedPair<T>(items: seq<T>, order: seq<nat>)
    requires |items| == 2 && order == [1, 0]
    ensures Arranged(items, order) == [items[1], items[0]]
  {}

  lemma FirstAnswer(order: seq<nat>, recorded: seq<HttpInteraction>, probe: HttpRequest, config: MatchConfig)
    requires Candidates(order, recorded, probe, config) != []
    ensures Run(order, recorded, {}, [probe], config, false) == [Some(Candidates(order, recorded, probe, config)[0])]
  {
    assert [probe][1..] == [];
  }

  /** `0.0` recorded before `-0.0`: equal to the matcher, told apart by the key, and swapped in the file. Asking for the
      first recording once tells: the recorded order answers with it, the written order with the other. */
  lemma NegativeZeroIsSwapped(tie: seq<nat>)
    requires tie == [0, 1]
    ensures Written(ZEROS, Some(ZERO_CONFIG), tie) == [ZEROS[1], ZEROS[0]]
    ensures Run(RecordedOrder(2, tie), ZEROS, {}, [ZEROS[0].request], ZERO_CONFIG, false) == [Some(0)]
    ensures Run(WriteOrder(ZEROS, Some(ZERO_CONFIG), tie), ZEROS, {}, [ZEROS[0].request], ZERO_CONFIG, false) == [Some(1)]
    ensures !PairsInOrder(ZEROS, ZERO_CONFIG, tie)
  {
    var swapped: seq<nat> := [1, 0];
    ZeroOrders(tie);
    assert Written(ZEROS, Some(ZERO_CONFIG), tie) == [ZEROS[1], ZEROS[0]] by {
      WriteOrderArranges(ZEROS, Some(ZERO_CONFIG), tie);
      ArrangedPair(ZEROS, WriteOrder(ZEROS, Some(ZERO_CONFIG), tie));
    }
    ZeroCandidates(tie, swapped);
    FirstAnswer(tie, ZEROS, ZEROS[0].request, ZERO_CONFIG);
    FirstAnswer(swapped, ZEROS, ZEROS[0].request, ZERO_CONFIG);
    assert CompatibleAt(ZEROS, tie[0], tie[1], ZERO_CONFIG) by {
      ZerosMatch("-0.0", ZERO_CONFIG);
    }
    assert !ByKey(KeysOf(ZEROS, ZERO_CONFIG))(tie[0], tie[1]);
  }
}
