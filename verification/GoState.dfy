/** The state of a Go transport: three protocols share one lock, one order counter and one file. */
module GoState {
  import opened CassetteModel
  import opened Matching
  import opened MethodUriIndex
  import opened Options
  import opened Protocol
  import opened Replay
  import opened ReservationOrder
  import opened Sorting

  datatype Kind = Http | Grpc | WebSocket

  /** One protocol's recordings in arrival order, whether each was played, and the order each was reserved under. */
  datatype Lane<T> = Lane(items: seq<T>, played: seq<bool>, orders: seq<nat>)
  {
    ghost predicate Aligned(next: nat) {
      |played| == |items| == |orders| && Distinct(orders) && forall o: nat | o in orders :: o < next
    }

    predicate SameLength() {
      |items| == |orders|
    }

    function Append(item: T, order: nat): Lane<T> {
      Lane(items + [item], played + [true], orders + [order])
    }

    function Written(): seq<T> {
      if SameLength() then Ordered(items, orders) else items
    }
  }

  function LoadedLane<T>(items: seq<T>): Lane<T> {
    Lane(items, seq(|items|, _ => false), Iota(|items|))
  }

  datatype File = File(http: seq<HttpInteraction>, grpc: seq<GrpcInteraction>, ws: seq<WsInteraction>)

  const EMPTY_FILE := File([], [], [])

  /** `otherFields` stands for the header and body matchers in use. */
  datatype Config = Config(
    canRecord: bool, matchMethod: bool, matchUri: bool, otherFields: (HttpRequest, HttpRequest) -> bool,
    normalizeUri: string -> string, webSocketUri: string -> string, upper: map<char, string>,
    scrubHttp: HttpInteraction -> HttpInteraction, scrubGrpc: GrpcInteraction -> GrpcInteraction,
    scrubWs: WsInteraction -> WsInteraction)
  {
    predicate UsesIndex() { matchMethod && matchUri }

    /** `matchingRequest`: a recorded request as it is compared. */
    function Matching(request: HttpRequest): HttpRequest {
      if matchUri then request.(uri := normalizeUri(request.uri)) else request
    }

    predicate Matches(incoming: HttpRequest, recorded: HttpRequest) {
      && (matchMethod ==> EqIgnoreAsciiCase(incoming.method_, recorded.method_))
      && (matchUri ==> incoming.uri == recorded.uri)
      && otherFields(incoming, recorded)
    }

    function KeyOf(interaction: HttpInteraction): string {
      IndexKey(Matching(interaction.request), upper)
    }

    function Keys(http: seq<HttpInteraction>): (r: seq<string>)
      ensures |r| == |http| && forall i :: 0 <= i < |r| ==> r[i] == KeyOf(http[i])
    {
      seq(|http|, i requires 0 <= i < |http| => KeyOf(http[i]))
    }
  }

  datatype TransportError = TransportClosed | WriteFailed | Incomplete(kind: Kind, what: string) | Reported(text: string)

  datatype Recording = OfHttp(http: HttpInteraction) | OfGrpc(grpc: GrpcInteraction) | OfWebSocket(ws: WsInteraction)
  {
    function Kind(): Kind {
      match this case OfHttp(_) => Http case OfGrpc(_) => Grpc case OfWebSocket(_) => WebSocket
    }
  }

  datatype Transport = Transport(
    http: Lane<HttpInteraction>, grpc: Lane<GrpcInteraction>, ws: Lane<WsInteraction>, index: Index, nextOrder: nat,
    pending: map<nat, string>, grpcPending: map<nat, string>, wsPending: map<nat, string>,
    recordErr: seq<TransportError>, saveEmpty: bool, closed: bool, closeErr: seq<TransportError>, disk: Option<File>)
  {
    function Pending(kind: Kind): map<nat, string> {
      match kind case Http => pending case Grpc => grpcPending case WebSocket => wsPending
    }

    function WithPending(kind: Kind, waiting: map<nat, string>): Transport {
      match kind
      case Http => this.(pending := waiting)
      case Grpc => this.(grpcPending := waiting)
      case WebSocket => this.(wsPending := waiting)
    }

    function Orders(kind: Kind): seq<nat> {
      match kind case Http => http.orders case Grpc => grpc.orders case WebSocket => ws.orders
    }

    predicate SameLengths() {
      http.SameLength() && grpc.SameLength() && ws.SameLength()
    }

    /** Each protocol's recordings sorted by reservation order: what every save writes. */
    function Output(): File {
      File(http.Written(), grpc.Written(), ws.Written())
    }
  }

  // --- load ---

  function Loaded(file: Option<File>, discards: bool, index: Index): Transport {
    var kept := if file.Some? && !discards then file.value else EMPTY_FILE;
    Transport(
      LoadedLane(kept.http), LoadedLane(kept.grpc), LoadedLane(kept.ws), index,
      |kept.http| + |kept.grpc| + |kept.ws|, map[], map[], map[], [], file.Some? && discards, false, [], file)
  }

  // --- Lookups ---

  function HttpAt(config: Config, recorded: seq<HttpInteraction>, probe: HttpRequest): nat -> bool {
    (i: nat) => i < |recorded| && config.Matches(probe, config.Matching(recorded[i].request))
  }

  function GrpcAt(recorded: seq<GrpcInteraction>, method_: string): nat -> bool {
    (i: nat) => i < |recorded| && recorded[i].request.method_ == method_
  }

  function WebSocketAt(config: Config, recorded: seq<WsInteraction>, uri: string): nat -> bool {
    (i: nat) => i < |recorded| && config.webSocketUri(recorded[i].uri) == config.webSocketUri(uri)
  }

  /** The full scan every lookup amounts to. */
  function Chosen<T>(lane: Lane<T>, matches: nat -> bool, canRecord: bool): (r: Option<nat>)
    ensures r.Some? ==> matches(r.value) && r.value < |lane.items|
  {
    var candidates := Filter(Iota(|lane.items|), matches);
    assert candidates != [] ==> candidates[0] in candidates;
    Choose(candidates, PlayedSet(lane.played), !canRecord)
  }

  /** What is chosen, told from the list itself. */
  lemma ChosenIs<T>(lane: Lane<T>, matches: nat -> bool, same: nat -> bool, canRecord: bool)
    requires forall i: nat | i < |lane.items| :: matches(i) == same(i)
    ensures Earliest(|lane.items|, same, lane.played, !canRecord, Chosen(lane, matches, canRecord))
  {
    ChoiceIs(|lane.items|, matches, same, lane.played, !canRecord);
  }

  function Item<T>(items: seq<T>, choice: Option<nat>): Option<T> {
    if choice.Some? && choice.value < |items| then Some(items[choice.value]) else None
  }

  function Took<T>(lane: Lane<T>, choice: Option<nat>): Lane<T> {
    lane.(played := SetPlayed(lane.played, choice))
  }

  // --- Reserving, recording, finishing, closing ---

  function Reserve(t: Transport, kind: Kind, what: string): (Option<nat>, Transport) {
    if t.closed then (None, t)
    else (Some(t.nextOrder), t.(nextOrder := t.nextOrder + 1).WithPending(kind, t.Pending(kind)[t.nextOrder := what]))
  }

  function Append(config: Config, t: Transport, r: Recording, order: nat): Transport {
    match r
    case OfHttp(item) =>
      var stored := config.scrubHttp(item);
      t.(http := t.http.Append(stored, order),
         index := if config.UsesIndex() then Extend(t.index, config.KeyOf(stored), |t.http.items|) else t.index)
    case OfGrpc(item) => t.(grpc := t.grpc.Append(config.scrubGrpc(item), order))
    case OfWebSocket(item) => t.(ws := t.ws.Append(config.scrubWs(item), order))
  }

  function Finish(t: Transport, kind: Kind, order: nat, error: Option<TransportError>): Transport {
    t.(recordErr := t.recordErr + if error.Some? then [error.value] else [])
     .WithPending(kind, t.Pending(kind) - {order})
  }

  /** Build, save, commit: the lists change only after the file has. */
  function Record(config: Config, t: Transport, r: Recording, order: nat, writes: bool): (Option<TransportError>, Transport) {
    if t.closed then (Some(TransportClosed), t)
    else if !writes then (Some(WriteFailed), t.(saveEmpty := false))
    else
      var u := Append(config, t, r, order);
      (None, u.(disk := Some(u.Output()), saveEmpty := false))
  }

  /** gRPC and WebSocket recordings finish within the critical section that records them. */
  function RecordAndFinish(config: Config, t: Transport, r: Recording, order: nat, writes: bool)
    : (Option<TransportError>, Transport)
  {
    var (error, u) := Record(config, t, r, order, writes);
    (error, Finish(u, r.Kind(), order, error))
  }

  function Unfinished(kind: Kind, pending: map<nat, string>): nat -> TransportError {
    (o: nat) => Incomplete(kind, if o in pending then pending[o] else "")
  }

  /** One error for each order still pending, lowest first. */
  function IncompleteErrors(kind: Kind, pending: map<nat, string>, next: nat): (r: seq<TransportError>)
    ensures (forall o | o in pending :: o < next) ==> (r == [] <==> pending == map[])
  {
    var orders := Filter(Iota(next), o => o in pending);
    assert forall o | o in pending && o < next :: Iota(next)[o] in Iota(next) && o in orders;
    assert orders != [] ==> orders[0] in orders;
    assert pending.Keys == {} ==> pending == map[];
    Map(Unfinished(kind, pending), orders)
  }

  lemma {:induction false} IncompleteLists(kind: Kind, pending: map<nat, string>, next: nat) returns (orders: seq<nat>)
    requires forall o | o in pending :: o < next
    ensures ListsKeys(orders, pending)
    ensures IncompleteErrors(kind, pending, next) == Reports(kind, pending, orders)
  {
    orders := Filter(Iota(next), o => o in pending);
    FilterSorted(Iota(next), (a: nat, b: nat) => a <= b, o => o in pending);
    FilterDistinct(Iota(next), o => o in pending);
    forall i, j | 0 <= i < j < |orders| ensures orders[i] < orders[j] {
      assert orders[i] != orders[j];
    }
    forall o ensures o in orders <==> o in pending {
      if o in pending {
        assert Iota(next)[o] == o;
      }
    }
    assert forall i :: 0 <= i < |orders| ==> orders[i] in orders;
  }

  /** One report for each of the orders. */
  function Reports(kind: Kind, pending: map<nat, string>, orders: seq<nat>): (r: seq<TransportError>)
    ensures |r| == |orders|
    ensures forall i :: 0 <= i < |r| && orders[i] in pending ==> r[i] == Incomplete(kind, pending[orders[i]])
  {
    seq(|orders|, i requires 0 <= i < |orders| =>
      Incomplete(kind, if orders[i] in pending then pending[orders[i]] else ""))
  }

  /** What `Close` reports the first time: the errors noted, then HTTP, gRPC and WebSocket calls that are still pending,
      each in the order they were reserved, then a due empty save that failed. */
  lemma CloseLists(t: Transport, writes: bool) returns (http: seq<nat>, grpc: seq<nat>, ws: seq<nat>)
    requires AllBelow(t.pending, t.nextOrder) && AllBelow(t.grpcPending, t.nextOrder) && AllBelow(t.wsPending, t.nextOrder)
    requires !t.closed
    ensures ListsKeys(http, t.pending) && ListsKeys(grpc, t.grpcPending) && ListsKeys(ws, t.wsPending)
    ensures Close(t, writes).0 ==
            t.recordErr + Reports(Http, t.pending, http) + Reports(Grpc, t.grpcPending, grpc) +
            Reports(WebSocket, t.wsPending, ws) + if t.saveEmpty && !writes then [WriteFailed] else []
  {
    http := IncompleteLists(Http, t.pending, t.nextOrder);
    grpc := IncompleteLists(Grpc, t.grpcPending, t.nextOrder);
    ws := IncompleteLists(WebSocket, t.wsPending, t.nextOrder);
  }

  function CloseErrors(t: Transport): seq<TransportError> {
    t.recordErr + IncompleteErrors(Http, t.pending, t.nextOrder) + IncompleteErrors(Grpc, t.grpcPending, t.nextOrder) +
    IncompleteErrors(WebSocket, t.wsPending, t.nextOrder)
  }

  function Close(t: Transport, writes: bool): (seq<TransportError>, Transport) {
    if t.closed then (t.closeErr, t)
    else
      var errors := CloseErrors(t) + if t.saveEmpty && !writes then [WriteFailed] else [];
      (errors,
       t.(closed := true, closeErr := errors, saveEmpty := false,
          disk := if t.saveEmpty && writes then Some(File(t.http.items, t.grpc.items, t.ws.items)) else t.disk))
  }

  // --- What holds whenever the lock is free ---

  ghost predicate AllBelow(pending: map<nat, string>, next: nat) {
    forall o | o in pending :: o < next
  }

  ghost predicate IndexSound(config: Config, t: Transport) {
    if config.UsesIndex() then Indexes(t.index, config.Keys(t.http.items)) else t.index == map[]
  }

  ghost predicate Sound(config: Config, t: Transport) {
    && t.http.Aligned(t.nextOrder) && t.grpc.Aligned(t.nextOrder) && t.ws.Aligned(t.nextOrder)
    && IndexSound(config, t)
    && AllBelow(t.pending, t.nextOrder) && AllBelow(t.grpcPending, t.nextOrder) && AllBelow(t.wsPending, t.nextOrder)
    && (t.saveEmpty ==> t.http.items == [] && t.grpc.items == [] && t.ws.items == [])
  }

  /** A caller records under an order it reserved, and at most once. */
  ghost predicate Unused(t: Transport, r: Recording, order: nat) {
    order < t.nextOrder && order !in t.Orders(r.Kind())
  }

  lemma AppendAligned<T>(lane: Lane<T>, item: T, order: nat, next: nat)
    requires lane.Aligned(next) && order < next && order !in lane.orders
    ensures lane.Append(item, order).Aligned(next)
  {}

  lemma AppendIndexSound(config: Config, t: Transport, item: HttpInteraction, order: nat)
    requires IndexSound(config, t)
    ensures IndexSound(config, Append(config, t, OfHttp(item), order))
  {
    if config.UsesIndex() {
      var stored := config.scrubHttp(item);
      ExtendKeepsIndex(t.index, config.Keys(t.http.items), config.KeyOf(stored));
      assert config.Keys(t.http.items + [stored]) == config.Keys(t.http.items) + [config.KeyOf(stored)];
    }
  }

  lemma AppendSound(config: Config, t: Transport, r: Recording, order: nat)
    requires Sound(config, t) && Unused(t, r, order)
    ensures Sound(config, Append(config, t, r, order).(saveEmpty := false))
  {
    match r
    case OfHttp(item) =>
      AppendAligned(t.http, config.scrubHttp(item), order, t.nextOrder);
      AppendIndexSound(config, t, item, order);
    case OfGrpc(item) => AppendAligned(t.grpc, config.scrubGrpc(item), order, t.nextOrder);
    case OfWebSocket(item) => AppendAligned(t.ws, config.scrubWs(item), order, t.nextOrder);
  }

  /** A failed save changes no list, flag, order or index entry; a successful one leaves the file current. */
  lemma RecordSound(config: Config, t: Transport, r: Recording, order: nat, writes: bool)
    requires Sound(config, t) && Unused(t, r, order)
    ensures var (error, u) := Record(config, t, r, order, writes);
            && Sound(config, u)
            && (error.Some? <==> t.closed || !writes)
            && (error.Some? ==> u == t.(saveEmpty := u.saveEmpty))
            && (error.None? ==> u.disk == Some(u.Output()) && order in u.Orders(r.Kind()))
  {
    AppendSound(config, t, r, order);
  }

  lemma FinishSound(config: Config, t: Transport, kind: Kind, order: nat, error: Option<TransportError>)
    requires Sound(config, t)
    ensures Sound(config, Finish(t, kind, order, error))
  {}

  lemma ReserveSound(config: Config, t: Transport, kind: Kind, what: string)
    requires Sound(config, t)
    ensures Sound(config, Reserve(t, kind, what).1)
  {}

  lemma LoadedLaneAligned<T>(items: seq<T>, next: nat)
    requires |items| <= next
    ensures LoadedLane(items).Aligned(next)
  {}

  lemma LoadedSound(config: Config, file: Option<File>, discards: bool, index: Index)
    requires IndexSound(config, Loaded(file, discards, index))
    ensures Sound(config, Loaded(file, discards, index))
  {
    var t := Loaded(file, discards, index);
    LoadedLaneAligned(t.http.items, t.nextOrder);
    LoadedLaneAligned(t.grpc.items, t.nextOrder);
    LoadedLaneAligned(t.ws.items, t.nextOrder);
  }

  /** Looking up the method+URI key finds what scanning every recording finds. */
  lemma IndexedChoice(config: Config, t: Transport, probe: HttpRequest)
    requires IndexSound(config, t) && config.UsesIndex()
    ensures Filter(Lookup(t.index, IndexKey(probe, config.upper)), HttpAt(config, t.http.items, probe)) ==
            Filter(Iota(|t.http.items|), HttpAt(config, t.http.items, probe))
  {
    var keys := config.Keys(t.http.items);
    forall i: nat | i < |keys| && HttpAt(config, t.http.items, probe)(i)
      ensures keys[i] == IndexKey(probe, config.upper)
    {
      SameUpper(probe.method_, config.Matching(t.http.items[i].request).method_, config.upper);
    }
    LookupCovers(t.index, keys, IndexKey(probe, config.upper), HttpAt(config, t.http.items, probe));
  }
}
