/** `recorder_state.rs`: the state one lock protects, and the critical sections of `recorder.rs` as functions on it. */
module RecorderState {
  import opened CassetteModel
  import opened Matching
  import opened Options
  import opened Ordering
  import opened Protocol
  import opened Sorting

  datatype RecordMode = NoRecording | Once | NewEpisodes | All | Rewrite | Verify
  {
    predicate Replays() { !All? && !Rewrite? }
    predicate Replaces() { All? || Rewrite? }
    predicate CanRecord(exists_: bool) { NewEpisodes? || All? || Rewrite? || (Once? && !exists_) }
  }

  /** Scrubbing treats requests and responses separately; `retag` rewrites the content length or fails. */
  datatype Security = Security(
    httpRequest: HttpRequest -> HttpRequest, httpResponse: HttpResponse -> HttpResponse,
    grpcRequest: GrpcRequest -> GrpcRequest, grpcResponse: GrpcResponse -> GrpcResponse,
    retag: HttpResponse -> Option<HttpResponse>)

  datatype Settings = Settings(mode: RecordMode, matching: MatchConfig, security: Security, canRecord: bool)

  datatype Disk = Disk(http: seq<HttpInteraction>, grpc: seq<GrpcInteraction>, ws: seq<WsInteraction>)

  datatype State = State(
    cassette: Contents, nextOrder: nat, httpOrder: seq<nat>, grpcOrder: seq<nat>,
    pending: map<nat, string>, errors: seq<string>, saveEmpty: bool, finalized: bool, disk: Option<Disk>)

  const RETAG_FAILED := "encode JSON body"

  // --- Construction ---

  function Opened(mode: RecordMode, file: Option<Disk>): State {
    var exists_ := file.Some?;
    var kept := if file.Some? && !mode.Replaces() then file.value else Disk([], [], []);
    State(
      Contents(kept.http, seq(|kept.http|, _ => false), kept.grpc, seq(|kept.grpc|, _ => false), kept.ws,
               mode.CanRecord(exists_)),
      |kept.http| + |kept.grpc| + |kept.ws|, Iota(|kept.http|), Iota(|kept.grpc|),
      map[], [], exists_ && mode.All?, false, if mode.Rewrite? then None else file)
  }

  // --- prepare_http, prepare_grpc ---

  datatype Action<T> = Closed | NoMatch | Replayed(value: T) | Record(order: nat)

  function Reserve<T>(settings: Settings, st: State, request: string): (Action<T>, State) {
    if !settings.canRecord then (NoMatch, st)
    else (Record(st.nextOrder), st.(nextOrder := st.nextOrder + 1, pending := st.pending[st.nextOrder := request]))
  }

  function HttpLabel(request: HttpRequest): string {
    "HTTP " + request.method_ + " " + request.uri
  }

  function PrepareHttp(settings: Settings, st: State, request: HttpRequest): (Action<HttpResponse>, State) {
    if st.finalized then (Closed, st)
    else
      var choice := if settings.mode.Replays()
                    then HttpChoice(st.cassette, settings.security.httpRequest(request), settings.matching) else None;
      if choice.Some? && choice.value < |st.cassette.http| then
        (Replayed(st.cassette.http[choice.value].response),
         st.(cassette := st.cassette.(played := SetPlayed(st.cassette.played, choice))))
      else Reserve(settings, st, HttpLabel(request))
  }

  function PrepareGrpc(settings: Settings, st: State, request: GrpcRequest): (Action<GrpcInteraction>, State) {
    if st.finalized then (Closed, st)
    else
      var choice := if settings.mode.Replays()
                    then GrpcChoice(st.cassette, settings.security.grpcRequest(request)) else None;
      if choice.Some? && choice.value < |st.cassette.grpc| then
        (Replayed(st.cassette.grpc[choice.value]),
         st.(cassette := st.cassette.(grpcPlayed := SetPlayed(st.cassette.grpcPlayed, choice))))
      else Reserve(settings, st, "gRPC " + request.method_)
  }

  // --- record_http, record_grpc: the section that inserts ---

  datatype Insertion = Refused | BadBody | Misplaced | Inserted

  function PartitionPoint(s: seq<nat>, order: nat): (r: nat)
    ensures r <= |s|
    ensures forall i :: 0 <= i < r ==> s[i] < order
    ensures r < |s| ==> s[r] >= order
  {
    if s == [] || s[0] >= order then 0 else 1 + PartitionPoint(s[1..], order)
  }

  function InsertHttp(settings: Settings, st: State, order: nat, interaction: HttpInteraction): (Insertion, State) {
    if st.finalized then (Refused, st)
    else
      var security := settings.security;
      match security.retag(security.httpResponse(interaction.response))
      case None =>
        (BadBody, st.(pending := st.pending - {order}, errors := st.errors + [RETAG_FAILED]))
      case Some(response) =>
        var stored := HttpInteraction(security.httpRequest(interaction.request), response, interaction.recordedAt);
        var position := PartitionPoint(st.httpOrder, order);
        var ordered := st.(httpOrder := InsertAt(st.httpOrder, position, order));
        if position > |st.cassette.http| || position > |st.cassette.played| then (Misplaced, ordered)
        else
          (Inserted,
           ordered.(
             cassette := st.cassette.(http := InsertAt(st.cassette.http, position, stored),
                                      played := InsertAt(st.cassette.played, position, st.cassette.recording)),
             pending := st.pending - {order}, saveEmpty := false))
  }

  function InsertGrpc(settings: Settings, st: State, order: nat, interaction: GrpcInteraction): (Insertion, State) {
    if st.finalized then (Refused, st)
    else
      var security := settings.security;
      var stored := GrpcInteraction(
        security.grpcRequest(interaction.request), security.grpcResponse(interaction.response), interaction.recordedAt);
      var position := PartitionPoint(st.grpcOrder, order);
      var ordered := st.(grpcOrder := InsertAt(st.grpcOrder, position, order));
      if position > |st.cassette.grpc| || position > |st.cassette.grpcPlayed| then (Misplaced, ordered)
      else
        (Inserted,
         ordered.(
           cassette := st.cassette.(grpc := InsertAt(st.cassette.grpc, position, stored),
                                    grpcPlayed := InsertAt(st.cassette.grpcPlayed, position, st.cassette.recording)),
           pending := st.pending - {order}, saveEmpty := false))
  }

  // --- save, errors, finish ---

  /** The file the current cassette would be saved as. */
  function FileNow(settings: Settings, st: State): Disk {
    Disk(Written(st.cassette.http, Some(settings.matching), st.httpOrder), st.cassette.grpc, st.cassette.ws)
  }

  function Save(settings: Settings, st: State, writes: bool): State {
    if writes then st.(disk := Some(FileNow(settings, st))) else st
  }

  function Remember(st: State, error: string): State {
    st.(errors := st.errors + [error])
  }

  function Fail(st: State, order: nat, error: string): State {
    st.(pending := st.pending - {order}, errors := st.errors + [error])
  }

  function FinishBegin(st: State): (bool, State) {
    (!st.finalized && st.saveEmpty, st.(finalized := true))
  }

  datatype FinishResult = Finished | Incomplete(requests: seq<string>) | Failed(errors: seq<string>)

  /** The pending requests in ascending order number. */
  function PendingBelow(pending: map<nat, string>, n: nat): seq<string> {
    if n == 0 then [] else PendingBelow(pending, n - 1) + if n - 1 in pending then [pending[n - 1]] else []
  }

  function IncompleteErrors(requests: seq<string>): (r: seq<string>)
    ensures |r| == |requests|
  {
    seq(|requests|, i requires 0 <= i < |requests| => "incomplete recording for " + requests[i])
  }

  function FinishEnd(st: State): FinishResult {
    var pending := PendingBelow(st.pending, st.nextOrder);
    if pending != [] && st.errors == [] then Incomplete(pending)
    else
      var errors := st.errors + IncompleteErrors(pending);
      if errors == [] then Finished else Failed(errors)
  }

  lemma {:induction false} PendingEmpty(pending: map<nat, string>, n: nat)
    requires forall o | o in pending :: o < n
    ensures PendingBelow(pending, n) == [] <==> pending == map[]
  {
    if n > 0 {
      if n - 1 !in pending {
        PendingEmpty(pending, n - 1);
      }
    }
  }

  /** The requests reported as incomplete: each pending one, in the order they were reserved. */
  lemma {:induction false} PendingListed(pending: map<nat, string>, n: nat) returns (orders: seq<nat>)
    requires forall o | o in pending :: o < n
    ensures ListsKeys(orders, pending) && |PendingBelow(pending, n)| == |orders|
    ensures forall i :: 0 <= i < |orders| ==> PendingBelow(pending, n)[i] == pending[orders[i]]
  {
    orders := PendingUnder(pending, n);
  }

  lemma {:induction false} PendingUnder(pending: map<nat, string>, n: nat) returns (orders: seq<nat>)
    ensures Increasing(orders) && forall o: nat :: o in orders <==> o in pending && o < n
    ensures |PendingBelow(pending, n)| == |orders|
    ensures forall i :: 0 <= i < |orders| ==> PendingBelow(pending, n)[i] == pending[orders[i]]
  {
    if n == 0 {
      return [];
    }
    var front := PendingUnder(pending, n - 1);
    assert forall i :: 0 <= i < |front| ==> front[i] in front;
    orders := front + if n - 1 in pending then [n - 1] else [];
  }

  /** What `finish` reports: with no error remembered the incomplete requests themselves, and otherwise every error in the
      order it was remembered, then one for each incomplete request. */
  lemma FinishReports(st: State) returns (orders: seq<nat>)
    requires forall o | o in st.pending :: o < st.nextOrder
    ensures ListsKeys(orders, st.pending)
    ensures var r := FinishEnd(st);
            && (r.Incomplete? ==> st.errors == [] && |r.requests| == |orders| &&
                                  forall i :: 0 <= i < |orders| ==> r.requests[i] == st.pending[orders[i]])
            && (r.Failed? ==> st.errors != [] && |r.errors| == |st.errors| + |orders| && st.errors <= r.errors &&
                              forall i :: 0 <= i < |orders| ==>
                                r.errors[|st.errors| + i] == "incomplete recording for " + st.pending[orders[i]])
  {
    orders := PendingListed(st.pending, st.nextOrder);
  }

  /** `finish` succeeds exactly when nothing is pending and no error was remembered. */
  lemma FinishSucceedsIff(st: State)
    requires forall o | o in st.pending :: o < st.nextOrder
    ensures FinishEnd(st).Finished? <==> st.pending == map[] && st.errors == []
    ensures FinishEnd(st).Incomplete? <==> st.pending != map[] && st.errors == []
  {
    PendingEmpty(st.pending, st.nextOrder);
  }
}
