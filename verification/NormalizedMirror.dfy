/** The Python `Cassette` with a URI normalizer: a second, normalized Rust cassette is matched and ordered in place of
    the one that is saved. */
module NormalizedMirror {
  import opened CassetteModel
  import opened Lexicographic
  import opened Matching
  import opened Options
  import opened Ordering
  import opened Protocol
  import opened Replay
  import opened Sorting

  type Normalizer = Option<string -> string>

  function NormalizedRequest(n: Normalizer, request: HttpRequest): HttpRequest {
    if n.Some? then request.(uri := n.value(request.uri)) else request
  }

  /** `_normalized_copy`. */
  function NormalizedCopy(n: Normalizer, i: HttpInteraction): HttpInteraction {
    i.(request := NormalizedRequest(n, i.request))
  }

  /** The interactions as they are matched. */
  function Compared(n: Normalizer, items: seq<HttpInteraction>): (r: seq<HttpInteraction>)
    ensures |r| == |items| && forall i :: 0 <= i < |r| ==> r[i] == NormalizedCopy(n, items[i])
  {
    seq(|items|, i requires 0 <= i < |items| => NormalizedCopy(n, items[i]))
  }

  lemma ComparedWithout(items: seq<HttpInteraction>)
    ensures Compared(None, items) == items
  {}

  /** The scan of the saved interactions, comparing both sides normalized. */
  function NormalizedChoice(n: Normalizer, c: Contents, request: HttpRequest, config: MatchConfig): (r: Option<nat>)
    ensures r.Some? ==> r.value < |c.http|
  {
    var compared := c.(http := Compared(n, c.http));
    ChoiceInRange(compared, NormalizedRequest(n, request), config);
    HttpChoice(compared, NormalizedRequest(n, request), config)
  }

  /** A URI as it is compared. */
  function ComparedUri(n: Normalizer, uri: string): string {
    match n case None => uri case Some(normalize) => normalize(uri)
  }

  /** The recordings that can answer: those that match once both URIs are normalized. */
  ghost function Answering(n: Normalizer, http: seq<HttpInteraction>, request: HttpRequest, config: MatchConfig): nat -> bool {
    (i: nat) =>
      i < |http| && Matches(request.(uri := ComparedUri(n, request.uri)),
                            http[i].request.(uri := ComparedUri(n, http[i].request.uri)), config)
  }

  lemma NormalizedChoiceIs(n: Normalizer, c: Contents, request: HttpRequest, config: MatchConfig)
    ensures Earliest(|c.http|, Answering(n, c.http, request, config), c.played, !c.recording,
                     NormalizedChoice(n, c, request, config))
  {
    var compared := c.(http := Compared(n, c.http));
    ChoiceIs(|c.http|, MatchAt(compared.http, NormalizedRequest(n, request), config), Answering(n, c.http, request, config),
             c.played, !c.recording);
  }

  /** Requests whose URIs normalize alike get the same recording, and one made for another such URI will do. */
  lemma AlikeUrisShare(n: Normalizer, c: Contents, a: HttpRequest, b: HttpRequest, config: MatchConfig)
    requires n.Some? && b == a.(uri := b.uri) && n.value(a.uri) == n.value(b.uri) && config.Valid()
    ensures NormalizedChoice(n, c, a, config) == NormalizedChoice(n, c, b, config)
    ensures forall i: nat :: i < |c.http| && c.http[i].request == b ==> Answering(n, c.http, a, config)(i)
  {
    MatchesItself(NormalizedRequest(n, a), config);
  }

  /** What `save` writes: ordered by the interactions as they are matched. */
  function Saved(n: Normalizer, items: seq<HttpInteraction>, orders: seq<nat>, config: MatchConfig): seq<HttpInteraction> {
    WriteOrderArranges(Compared(n, items), Some(config), orders);
    Arranged(items, WriteOrder(Compared(n, items), Some(config), orders))
  }

  /** The mirror of a saved file is the mirror's own canonical file. */
  lemma MirrorOfSaved(n: Normalizer, items: seq<HttpInteraction>, orders: seq<nat>, config: MatchConfig)
    ensures Compared(n, Saved(n, items, orders, config)) == Written(Compared(n, items), Some(config), orders)
  {
    var order := WriteOrder(Compared(n, items), Some(config), orders);
    WriteOrderArranges(Compared(n, items), Some(config), orders);
    forall k | 0 <= k < |order|
      ensures Compared(n, Arranged(items, order))[k] == Arranged(Compared(n, items), order)[k]
    {
      assert order[k] in order;
    }
  }

  lemma ResponsesKept(n: Normalizer, items: seq<HttpInteraction>, taken: seq<Option<nat>>)
    ensures Answers(Compared(n, items), taken) == Answers(items, taken)
  {}

  /** Saving and loading changes no answer of a session that normalizes URIs, for any sequence of requests. */
  lemma SavingKeepsNormalizedReplay(
      n: Normalizer, items: seq<HttpInteraction>, orders: seq<nat>, config: MatchConfig, probes: seq<HttpRequest>,
      recording: bool)
    requires PairsInOrder(Compared(n, items), config, orders)
    ensures var file := Saved(n, items, orders, config);
            Answers(file, Run(Iota(|file|), Compared(n, file), {}, probes, config, recording)) ==
            Answers(items, Run(RecordedOrder(|items|, orders), Compared(n, items), {}, probes, config, recording))
  {
    var file := Saved(n, items, orders, config);
    MirrorOfSaved(n, items, orders, config);
    SortingPreservesReplay(Compared(n, items), config, orders, probes, recording);
    ResponsesKept(n, file, Run(Iota(|file|), Compared(n, file), {}, probes, config, recording));
    ResponsesKept(n, items, Run(RecordedOrder(|items|, orders), Compared(n, items), {}, probes, config, recording));
  }

  // --- Completion order ---

  function ByComparedKey(n: Normalizer, config: MatchConfig): (Slot, Slot) -> bool {
    (a: Slot, b: Slot) => KeyLe(Key(NormalizedRequest(n, a.interaction.request), config),
                                Key(NormalizedRequest(n, b.interaction.request), config))
  }

  lemma ComparedKeyMirrors(n: Normalizer, order: seq<nat>, slots: seq<Slot>, items: seq<HttpInteraction>, config: MatchConfig)
    requires slots != [] && |items| == |slots| && Arranges(order, |slots|)
    requires forall i :: 0 <= i < |slots| ==> slots[i].interaction == items[i]
    ensures Mirrors(order, SlotAt(slots), ByKey(KeysOf(Compared(n, items), config)), ByComparedKey(n, config))
  {
    var keys := KeysOf(Compared(n, items), config);
    forall i, j | 0 <= i < |order| && 0 <= j < |order|
      ensures ByKey(keys)(order[i], order[j]) == ByComparedKey(n, config)(SlotAt(slots)(order[i]), SlotAt(slots)(order[j]))
    {
      assert order[i] in order && order[j] in order;
    }
  }

  /** The saved file as a function of the reserved slots alone. */
  lemma SavedBySlots(n: Normalizer, items: seq<HttpInteraction>, orders: seq<nat>, config: MatchConfig)
    requires |orders| == |items|
    ensures Saved(n, items, orders, config) ==
            Interactions(StableSort(StableSort(Slots(orders, items), BySlot()), ByComparedKey(n, config)))
  {
    var order, slots := WriteOrder(Compared(n, items), Some(config), orders), Slots(orders, items);
    WriteOrderArranges(Compared(n, items), Some(config), orders);
    if items != [] {
      var recorded := RecordedOrder(|items|, orders);
      RecordedOrderArranges(|items|, orders);
      assert Map(SlotAt(slots), Iota(|items|)) == slots;
      TieMirrors(orders, slots);
      MapSort(Iota(|items|), SlotAt(slots), ByTie(orders), BySlot());
      ComparedKeyMirrors(n, recorded, slots, items, config);
      MapSort(recorded, SlotAt(slots), ByKey(KeysOf(Compared(n, items), config)), ByComparedKey(n, config));
      SlotsArranged(slots, items, order);
    }
  }

  /** However the responses of reserved requests came back, the same file is saved. */
  lemma SavedIgnoresArrival(
      n: Normalizer, items: seq<HttpInteraction>, orders: seq<nat>, items': seq<HttpInteraction>, orders': seq<nat>,
      config: MatchConfig)
    requires |orders| == |items| && |orders'| == |items'| && Distinct(orders) && Distinct(orders')
    requires forall s :: s in Slots(orders, items) <==> s in Slots(orders', items')
    ensures Saved(n, items, orders, config) == Saved(n, items', orders', config)
  {
    SavedBySlots(n, items, orders, config);
    SavedBySlots(n, items', orders', config);
    SlotsSortSame(orders, items, orders', items');
  }
}
