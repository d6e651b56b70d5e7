/** Whole sessions of one recorder: any number of concurrent HTTP and gRPC calls and `finish` calls, interleaved one
    critical section at a time. */
module Sessions {
  import opened CassetteModel
  import opened Matching
  import opened Options
  import opened Ordering
  import opened Protocol
  import opened RecorderState
  import opened Replay
  import opened Sorting

  /** Where a call that reserved an order stands between its critical sections. */
  datatype Call =
    | HttpWaiting(request: HttpRequest)
    | GrpcWaiting(grpc: GrpcRequest)
    | MustSave
    | MustRemember(error: string)
  {
    predicate Waiting() { HttpWaiting? || GrpcWaiting? }
  }

  datatype Finisher = SavesEmpty | RemembersError | Reports

  /** A response as it is to be stored, and when it came. */
  datatype Reply<T> = Reply(response: T, at: string)

  /** The recorder, the calls under way, and what has happened so far. */
  datatype System = System(
    st: State, calls: map<nat, Call>, finishers: map<nat, Finisher>,
    asked: map<nat, HttpRequest>, stored: map<nat, Reply<HttpResponse>>, answered: seq<nat>,
    grpcAsked: map<nat, GrpcRequest>, grpcStored: map<nat, Reply<GrpcResponse>>, grpcAnswered: seq<nat>, failed: set<nat>)

  datatype Event =
    | AskHttp(httpRequest: HttpRequest)
    | AskGrpc(grpcRequest: GrpcRequest)
    | GotHttp(order: nat, response: HttpResponse, at: string)
    | GotGrpc(order: nat, grpcResponse: GrpcResponse, at: string)
    | SaveCall(order: nat, writes: bool)
    | RememberCall(order: nat)
    | FailCall(order: nat, error: string)
    | DropCall(order: nat)
    | BeginFinish(caller: nat)
    | SaveFinish(caller: nat, writes: bool)
    | RememberFinish(caller: nat)
    | EndFinish(caller: nat)

  const WRITE_FAILED := "write error"

  function Start(mode: RecordMode, file: Option<Disk>): System {
    System(Opened(mode, file), map[], map[], map[], map[], [], map[], map[], [], {})
  }

  predicate Enabled(s: System, ev: Event) {
    match ev
    case AskHttp(_) => true
    case AskGrpc(_) => true
    case GotHttp(order, _, _) => order in s.calls && s.calls[order].HttpWaiting?
    case GotGrpc(order, _, _) => order in s.calls && s.calls[order].GrpcWaiting?
    case SaveCall(order, _) => order in s.calls && s.calls[order].MustSave?
    case RememberCall(order) => order in s.calls && s.calls[order].MustRemember?
    case FailCall(order, _) => order in s.calls && s.calls[order].Waiting()
    case DropCall(order) => order in s.calls && s.calls[order].Waiting()
    case BeginFinish(caller) => caller !in s.finishers
    case SaveFinish(caller, _) => caller in s.finishers && s.finishers[caller].SavesEmpty?
    case RememberFinish(caller) => caller in s.finishers && s.finishers[caller].RemembersError?
    case EndFinish(caller) => caller in s.finishers && s.finishers[caller].Reports?
  }

  /** The order number of the recording that answers, if one does. */
  function Answering(settings: Settings, st: State, request: HttpRequest): seq<nat> {
    var choice := if !st.finalized && settings.mode.Replays()
                  then HttpChoice(st.cassette, settings.security.httpRequest(request), settings.matching) else None;
    if choice.Some? && choice.value < |st.httpOrder| then [st.httpOrder[choice.value]] else []
  }

  function AnsweringGrpc(settings: Settings, st: State, request: GrpcRequest): seq<nat> {
    var choice := if !st.finalized && settings.mode.Replays()
                  then GrpcChoice(st.cassette, settings.security.grpcRequest(request)) else None;
    if choice.Some? && choice.value < |st.grpcOrder| then [st.grpcOrder[choice.value]] else []
  }

  function Step(settings: Settings, s: System, ev: Event): System
    requires Enabled(s, ev)
  {
    match ev
    case AskHttp(request) =>
      var (action, st) := PrepareHttp(settings, s.st, request);
      var answered := s.answered + Answering(settings, s.st, request);
      if action.Record?
      then s.(st := st, calls := s.calls[action.order := HttpWaiting(request)], asked := s.asked[action.order := request])
      else s.(st := st, answered := answered)
    case AskGrpc(request) =>
      var (action, st) := PrepareGrpc(settings, s.st, request);
      if action.Record?
      then s.(st := st, calls := s.calls[action.order := GrpcWaiting(request)],
              grpcAsked := s.grpcAsked[action.order := request])
      else s.(st := st, grpcAnswered := s.grpcAnswered + AnsweringGrpc(settings, s.st, request))
    case GotHttp(order, response, at) =>
      var (r, st) := InsertHttp(settings, s.st, order, HttpInteraction(s.calls[order].request, response, at));
      if r.Inserted? then
        var stored := settings.security.retag(settings.security.httpResponse(response));
        s.(st := st, calls := s.calls[order := MustSave],
           stored := if stored.Some? then s.stored[order := Reply(stored.value, at)] else s.stored)
      else s.(st := st, calls := s.calls - {order}, failed := if r.BadBody? then s.failed + {order} else s.failed)
    case GotGrpc(order, response, at) =>
      var (r, st) := InsertGrpc(settings, s.st, order, GrpcInteraction(s.calls[order].grpc, response, at));
      if r.Inserted?
      then s.(st := st, calls := s.calls[order := MustSave],
              grpcStored := s.grpcStored[order := Reply(settings.security.grpcResponse(response), at)])
      else s.(st := st, calls := s.calls - {order})
    case SaveCall(order, writes) =>
      s.(st := Save(settings, s.st, writes),
         calls := if writes then s.calls - {order} else s.calls[order := MustRemember(WRITE_FAILED)])
    case RememberCall(order) =>
      s.(st := Remember(s.st, s.calls[order].error), calls := s.calls - {order})
    case FailCall(order, error) =>
      s.(st := Fail(s.st, order, error), calls := s.calls - {order}, failed := s.failed + {order})
    case DropCall(order) =>
      s.(calls := s.calls - {order})
    case BeginFinish(caller) =>
      var (saves, st) := FinishBegin(s.st);
      s.(st := st, finishers := s.finishers[caller := if saves then SavesEmpty else Reports])
    case SaveFinish(caller, writes) =>
      s.(st := Save(settings, s.st, writes),
         finishers := s.finishers[caller := if writes then Reports else RemembersError])
    case RememberFinish(caller) =>
      s.(st := Remember(s.st, WRITE_FAILED), finishers := s.finishers[caller := Reports])
    case EndFinish(caller) =>
      s.(finishers := s.finishers - {caller})
  }

  /** Where a run ends, if every event of it was possible. */
  function RunAll(settings: Settings, s: System, events: seq<Event>): Option<System>
    decreases |events|
  {
    if events == [] then Some(s)
    else if Enabled(s, events[0]) then RunAll(settings, Step(settings, s, events[0]), events[1..])
    else None
  }

  // --- Invariants ---

  /** Order lists are strictly increasing and as long as the interactions and flags they number. */
  ghost predicate Lists(st: State) {
    && |st.httpOrder| == |st.cassette.http| == |st.cassette.played|
    && |st.grpcOrder| == |st.cassette.grpc| == |st.cassette.grpcPlayed|
    && Increasing(st.httpOrder) && Increasing(st.grpcOrder)
  }

  ghost predicate OneOf(a: bool, b: bool, c: bool, d: bool) {
    (a && !b && !c && !d) || (!a && b && !c && !d) || (!a && !b && c && !d) || (!a && !b && !c && d)
  }

  /** Each order handed out is pending, recorded as HTTP, recorded as gRPC, or failed, and only one of these. */
  ghost predicate Accounted(start: State, s: System) {
    && start.nextOrder <= s.st.nextOrder
    && (forall o: nat :: o in s.st.pending ==> start.nextOrder <= o < s.st.nextOrder)
    && (forall o: nat :: o in s.failed ==> start.nextOrder <= o < s.st.nextOrder)
    && (forall o: nat :: o in s.st.httpOrder ==> o < s.st.nextOrder)
    && (forall o: nat :: o in s.st.grpcOrder ==> o < s.st.nextOrder)
    && (forall o: nat :: start.nextOrder <= o < s.st.nextOrder ==>
          OneOf(o in s.st.pending, o in s.st.httpOrder, o in s.st.grpcOrder, o in s.failed))
    && (forall o: nat :: o < start.nextOrder ==>
          (o in s.st.httpOrder <==> o in start.httpOrder) && (o in s.st.grpcOrder <==> o in start.grpcOrder))
    && (forall o: nat :: o in s.calls ==> o < s.st.nextOrder)
    && (forall o: nat :: o in s.calls && s.calls[o].Waiting() ==> o in s.st.pending)
  }

  /** What is recorded under an order is the request that reserved it and the response that came back for it. */
  ghost predicate Faithful(settings: Settings, start: State, s: System) {
    && (forall o: nat :: o in s.calls && s.calls[o].HttpWaiting? ==> o in s.asked && s.asked[o] == s.calls[o].request)
    && (forall o: nat :: o in s.calls && s.calls[o].GrpcWaiting? ==> o !in s.asked)
    && (forall o: nat :: o in s.asked ==> start.nextOrder <= o < s.st.nextOrder && o !in s.st.grpcOrder)
    && (forall k: nat :: k < |s.st.httpOrder| && s.st.httpOrder[k] >= start.nextOrder ==> RecordedAt(settings, s, k))
  }

  ghost predicate RecordedAt(settings: Settings, s: System, k: nat) {
    k < |s.st.httpOrder| && k < |s.st.cassette.http| &&
    RecordedAs(settings, s, s.st.httpOrder[k], s.st.cassette.http[k])
  }

  ghost predicate RecordedAs(settings: Settings, s: System, order: nat, interaction: HttpInteraction) {
    && order in s.asked && interaction.request == settings.security.httpRequest(s.asked[order])
    && order in s.stored && Reply(interaction.response, interaction.recordedAt) == s.stored[order]
  }

  /** The same for gRPC. */
  ghost predicate GrpcFaithful(settings: Settings, start: State, s: System) {
    && (forall o: nat :: o in s.calls && s.calls[o].GrpcWaiting? ==> o in s.grpcAsked && s.grpcAsked[o] == s.calls[o].grpc)
    && (forall o: nat :: o in s.calls && s.calls[o].HttpWaiting? ==> o !in s.grpcAsked)
    && (forall o: nat :: o in s.grpcAsked ==> start.nextOrder <= o < s.st.nextOrder && o !in s.st.httpOrder)
    && (forall k: nat :: k < |s.st.grpcOrder| && s.st.grpcOrder[k] >= start.nextOrder ==> GrpcRecordedAt(settings, s, k))
  }

  ghost predicate GrpcRecordedAt(settings: Settings, s: System, k: nat) {
    k < |s.st.grpcOrder| && k < |s.st.cassette.grpc| &&
    GrpcRecordedAs(settings, s, s.st.grpcOrder[k], s.st.cassette.grpc[k])
  }

  ghost predicate GrpcRecordedAs(settings: Settings, s: System, order: nat, interaction: GrpcInteraction) {
    && order in s.grpcAsked && interaction.request == settings.security.grpcRequest(s.grpcAsked[order])
    && order in s.grpcStored && Reply(interaction.response, interaction.recordedAt) == s.grpcStored[order]
  }

  /** Whatever was recorded since `first` or has answered counts as played; what answered was loaded, and once each. */
  ghost predicate SpentIn(orders: seq<nat>, played: seq<bool>, answered: seq<nat>, loaded: seq<nat>, first: nat) {
    && Distinct(answered) && (forall a :: a in answered ==> a in loaded && a < first)
    && forall k :: 0 <= k < |orders| && k < |played| && (orders[k] >= first || orders[k] in answered) ==> played[k]
  }

  ghost predicate Spent(settings: Settings, start: State, s: System) {
    && s.st.cassette.recording == settings.canRecord
    && (settings.canRecord ==>
          && SpentIn(s.st.httpOrder, s.st.cassette.played, s.answered, start.httpOrder, start.nextOrder)
          && SpentIn(s.st.grpcOrder, s.st.cassette.grpcPlayed, s.grpcAnswered, start.grpcOrder, start.nextOrder))
  }

  ghost predicate Grew(start: State, st: State) {
    |st.cassette.http| > |start.cassette.http| || |st.cassette.grpc| > |start.cassette.grpc|
  }

  ghost predicate Unsaved(s: System) {
    exists o: nat :: o in s.calls && !s.calls[o].Waiting()
  }

  /** The file is current, or a save or an error is still on its way, or an error was remembered. */
  ghost predicate Durable(settings: Settings, start: State, s: System) {
    && (Grew(start, s.st) ==> Unsaved(s) || s.st.errors != [] || s.st.disk == Some(FileNow(settings, s.st)))
    && (s.failed != {} ==> s.st.errors != [])
  }

  ghost predicate Invariant(settings: Settings, start: State, s: System) {
    Lists(s.st) && Accounted(start, s) && Faithful(settings, start, s) && GrpcFaithful(settings, start, s) &&
    Spent(settings, start, s) && Durable(settings, start, s)
  }

  // --- Insertion at the partition point ---

  lemma InsertElements(s: seq<nat>, position: nat, order: nat)
    requires position <= |s|
    ensures forall o: nat :: o in InsertAt(s, position, order) <==> o in s || o == order
  {
    assert InsertAt(s, position, order) == s[..position] + [order] + s[position..];
    assert s == s[..position] + s[position..];
  }

  lemma InsertKeepsOrder(s: seq<nat>, order: nat)
    requires Increasing(s) && order !in s
    ensures Increasing(InsertAt(s, PartitionPoint(s, order), order))
  {
    var p := PartitionPoint(s, order);
    assert p < |s| ==> s[p] in s;
    assert forall i :: p <= i < |s| ==> s[p] <= s[i];
    InsertBetween(s, p, order);
  }

  lemma InsertBetween(s: seq<nat>, position: nat, order: nat)
    requires Increasing(s) && position <= |s|
    requires (forall i :: 0 <= i < position ==> s[i] < order) && forall i :: position <= i < |s| ==> order < s[i]
    ensures Increasing(InsertAt(s, position, order))
  {}

  // --- Each step keeps the invariants ---

  /** A call still waiting for its response holds an order nobody has recorded or failed under. */
  lemma WaitingIsNew(start: State, s: System, order: nat)
    requires Accounted(start, s) && order in s.calls && s.calls[order].Waiting()
    ensures start.nextOrder <= order < s.st.nextOrder
    ensures order in s.st.pending && order !in s.st.httpOrder && order !in s.st.grpcOrder && order !in s.failed
  {
    assert order in s.st.pending;
  }

  /** `insert_interaction` never finds its position out of range. */
  lemma InsertHttpLists(settings: Settings, st: State, order: nat, interaction: HttpInteraction)
    requires Lists(st) && order !in st.httpOrder
    ensures !InsertHttp(settings, st, order, interaction).0.Misplaced?
    ensures Lists(InsertHttp(settings, st, order, interaction).1)
  {
    InsertKeepsOrder(st.httpOrder, order);
  }

  lemma InsertGrpcLists(settings: Settings, st: State, order: nat, interaction: GrpcInteraction)
    requires Lists(st) && order !in st.grpcOrder
    ensures !InsertGrpc(settings, st, order, interaction).0.Misplaced?
    ensures Lists(InsertGrpc(settings, st, order, interaction).1)
  {
    InsertKeepsOrder(st.grpcOrder, order);
  }

  /** What the insertion of an HTTP response changes, field by field. */
  lemma InsertHttpFrame(settings: Settings, st: State, order: nat, interaction: HttpInteraction)
    ensures var (r, st') := InsertHttp(settings, st, order, interaction);
            && st'.nextOrder == st.nextOrder && st'.grpcOrder == st.grpcOrder && st'.disk == st.disk
            && st'.cassette.grpc == st.cassette.grpc && st'.cassette.ws == st.cassette.ws
            && (r.Refused? ==> st' == st)
            && (r.BadBody? || r.Inserted? ==> st'.pending == st.pending - {order})
            && (r.BadBody? ==> st'.httpOrder == st.httpOrder && st'.cassette == st.cassette && st'.errors != [])
            && (r.Inserted? || r.Misplaced? ==>
                  st'.errors == st.errors &&
                  st'.httpOrder == InsertAt(st.httpOrder, PartitionPoint(st.httpOrder, order), order))
  {}

  lemma GotHttpFrame(settings: Settings, s: System, ev: Event)
    requires Enabled(s, ev) && ev.GotHttp?
    ensures var interaction := HttpInteraction(s.calls[ev.order].request, ev.response, ev.at);
            var (r, st) := InsertHttp(settings, s.st, ev.order, interaction);
            var s' := Step(settings, s, ev);
            && s'.st == st
            && s'.calls == (if r.Inserted? then s.calls[ev.order := MustSave] else s.calls - {ev.order})
            && s'.failed == (if r.BadBody? then s.failed + {ev.order} else s.failed)
            && s'.asked == s.asked && s'.grpcAsked == s.grpcAsked && s'.grpcStored == s.grpcStored
  {
    hide InsertHttp;
  }

  lemma PrepareLists(settings: Settings, st: State, request: HttpRequest, grpc: GrpcRequest)
    requires Lists(st)
    ensures Lists(PrepareHttp(settings, st, request).1) && Lists(PrepareGrpc(settings, st, grpc).1)
  {}

  lemma StepLists(settings: Settings, start: State, s: System, ev: Event)
    requires Lists(s.st) && Accounted(start, s) && Enabled(s, ev)
    ensures Lists(Step(settings, s, ev).st)
  {
    match ev
    case AskHttp(request) => PrepareLists(settings, s.st, request, GrpcRequest("", [], NoBody));
    case AskGrpc(request) => PrepareLists(settings, s.st, HttpRequest("", "", [], NoBody), request);
    case GotHttp(order, response, at) =>
      WaitingIsNew(start, s, order);
      InsertHttpLists(settings, s.st, order, HttpInteraction(s.calls[order].request, response, at));
    case GotGrpc(order, response, at) =>
      WaitingIsNew(start, s, order);
      InsertGrpcLists(settings, s.st, order, GrpcInteraction(s.calls[order].grpc, response, at));
    case _ =>
  }

  // Accounting: an order is handed out, and later settled, or nothing about orders changes.

  ghost predicate FewerWaiting(s: System, s': System) {
    forall o: nat :: o in s'.calls ==> o in s.calls && (s'.calls[o].Waiting() ==> s'.calls[o] == s.calls[o])
  }

  lemma UntouchedAccounted(start: State, s: System, s': System)
    requires Accounted(start, s) && FewerWaiting(s, s') && s'.failed == s.failed
    requires s'.st.nextOrder == s.st.nextOrder && s'.st.pending == s.st.pending
    requires s'.st.httpOrder == s.st.httpOrder && s'.st.grpcOrder == s.st.grpcOrder
    ensures Accounted(start, s')
  {}

  lemma ReservedAccounted(start: State, s: System, s': System, text: string, call: Call)
    requires Accounted(start, s) && s'.failed == s.failed
    requires s'.st.nextOrder == s.st.nextOrder + 1 && s'.st.pending == s.st.pending[s.st.nextOrder := text]
    requires s'.st.httpOrder == s.st.httpOrder && s'.st.grpcOrder == s.st.grpcOrder
    requires s'.calls == s.calls[s.st.nextOrder := call]
    ensures Accounted(start, s')
  {}

  lemma SettledAccounted(start: State, s: System, s': System, order: nat)
    requires Accounted(start, s) && order in s.calls && s.calls[order].Waiting()
    requires FewerWaiting(s, s') && (order in s'.calls ==> !s'.calls[order].Waiting())
    requires s'.st.nextOrder == s.st.nextOrder && s'.st.pending == s.st.pending - {order}
    requires forall o: nat :: o != order ==> (o in s'.st.httpOrder <==> o in s.st.httpOrder)
    requires forall o: nat :: o != order ==> (o in s'.st.grpcOrder <==> o in s.st.grpcOrder)
    requires forall o: nat :: o != order ==> (o in s'.failed <==> o in s.failed)
    requires OneOf(false, order in s'.st.httpOrder, order in s'.st.grpcOrder, order in s'.failed)
    ensures Accounted(start, s')
  {
    WaitingIsNew(start, s, order);
  }

  /** `prepare_http` reserves the next order, or at most marks a recording played. */
  lemma PrepareHttpFrame(settings: Settings, st: State, request: HttpRequest)
    ensures var (action, st') := PrepareHttp(settings, st, request);
            if action.Record?
            then action.order == st.nextOrder && settings.canRecord &&
                 st' == st.(nextOrder := st.nextOrder + 1, pending := st.pending[st.nextOrder := HttpLabel(request)])
            else st' == st.(cassette := st.cassette.(played := st'.cassette.played)) &&
                 |st'.cassette.played| == |st.cassette.played|
  {}

  lemma PrepareGrpcFrame(settings: Settings, st: State, request: GrpcRequest)
    ensures var (action, st') := PrepareGrpc(settings, st, request);
            if action.Record?
            then action.order == st.nextOrder && settings.canRecord &&
                 st' == st.(nextOrder := st.nextOrder + 1, pending := st.pending[st.nextOrder := "gRPC " + request.method_])
            else st' == st.(cassette := st.cassette.(grpcPlayed := st'.cassette.grpcPlayed)) &&
                 |st'.cassette.grpcPlayed| == |st.cassette.grpcPlayed|
  {}

  lemma StepAccounted(settings: Settings, start: State, s: System, ev: Event)
    requires Lists(s.st) && Accounted(start, s) && Enabled(s, ev)
    ensures Accounted(start, Step(settings, s, ev))
  {
    match ev
    case AskHttp(_) => AskHttpAccounted(settings, start, s, ev);
    case AskGrpc(_) => AskGrpcAccounted(settings, start, s, ev);
    case GotHttp(_, _, _) => GotHttpAccounted(settings, start, s, ev);
    case GotGrpc(_, _, _) => GotGrpcAccounted(settings, start, s, ev);
    case FailCall(order, _) =>
      WaitingIsNew(start, s, order);
      SettledAccounted(start, s, Step(settings, s, ev), order);
    case _ => UntouchedAccounted(start, s, Step(settings, s, ev));
  }

  lemma AskHttpAccounted(settings: Settings, start: State, s: System, ev: Event)
    requires Accounted(start, s) && ev.AskHttp?
    ensures Accounted(start, Step(settings, s, ev))
  {
    var s', request := Step(settings, s, ev), ev.httpRequest;
    PrepareHttpFrame(settings, s.st, request);
    if PrepareHttp(settings, s.st, request).0.Record? {
      ReservedAccounted(start, s, s', HttpLabel(request), HttpWaiting(request));
    } else {
      UntouchedAccounted(start, s, s');
    }
  }

  lemma AskGrpcAccounted(settings: Settings, start: State, s: System, ev: Event)
    requires Accounted(start, s) && ev.AskGrpc?
    ensures Accounted(start, Step(settings, s, ev))
  {
    var s', request := Step(settings, s, ev), ev.grpcRequest;
    PrepareGrpcFrame(settings, s.st, request);
    if PrepareGrpc(settings, s.st, request).0.Record? {
      ReservedAccounted(start, s, s', "gRPC " + request.method_, GrpcWaiting(request));
    } else {
      UntouchedAccounted(start, s, s');
    }
  }

  lemma GotHttpAccounted(settings: Settings, start: State, s: System, ev: Event)
    requires Lists(s.st) && Accounted(start, s) && Enabled(s, ev) && ev.GotHttp?
    ensures Accounted(start, Step(settings, s, ev))
  {
    GotHttpFrame(settings, s, ev);
    InsertHttpFrame(settings, s.st, ev.order, HttpInteraction(s.calls[ev.order].request, ev.response, ev.at));
    hide Accounted;
    hide Step;
    var s' := Step(settings, s, ev);
    var interaction := HttpInteraction(s.calls[ev.order].request, ev.response, ev.at);
    WaitingIsNew(start, s, ev.order);
    InsertHttpLists(settings, s.st, ev.order, interaction);
    hide InsertHttp;
    InsertElements(s.st.httpOrder, PartitionPoint(s.st.httpOrder, ev.order), ev.order);
    if InsertHttp(settings, s.st, ev.order, interaction).0.Refused? {
      UntouchedAccounted(start, s, s');
    } else {
      SettledAccounted(start, s, s', ev.order);
    }
  }

  lemma GotGrpcAccounted(settings: Settings, start: State, s: System, ev: Event)
    requires Lists(s.st) && Accounted(start, s) && Enabled(s, ev) && ev.GotGrpc?
    ensures Accounted(start, Step(settings, s, ev))
  {
    hide Accounted;
    var s' := Step(settings, s, ev);
    var interaction := GrpcInteraction(s.calls[ev.order].grpc, ev.grpcResponse, ev.at);
    WaitingIsNew(start, s, ev.order);
    InsertGrpcLists(settings, s.st, ev.order, interaction);
    InsertElements(s.st.grpcOrder, PartitionPoint(s.st.grpcOrder, ev.order), ev.order);
    if InsertGrpc(settings, s.st, ev.order, interaction).0.Refused? {
      UntouchedAccounted(start, s, s');
    } else {
      SettledAccounted(start, s, s', ev.order);
    }
  }

  // What is recorded

  lemma UntouchedFaithful(settings: Settings, start: State, s: System, s': System)
    requires Faithful(settings, start, s) && FewerWaiting(s, s')
    requires s'.asked == s.asked && s'.stored == s.stored && s'.st.nextOrder == s.st.nextOrder
    requires s'.st.httpOrder == s.st.httpOrder && forall o: nat :: o in s.asked ==> o !in s'.st.grpcOrder
    requires s'.st.cassette.http == s.st.cassette.http
    ensures Faithful(settings, start, s')
  {
    forall k: nat | k < |s'.st.httpOrder| && s'.st.httpOrder[k] >= start.nextOrder ensures RecordedAt(settings, s', k)
    {
      assert RecordedAt(settings, s, k);
    }
  }

  lemma ReservedFaithful(settings: Settings, start: State, s: System, s': System, call: Call)
    requires Accounted(start, s) && Faithful(settings, start, s) && call.Waiting()
    requires s'.st.nextOrder == s.st.nextOrder + 1 && s'.calls == s.calls[s.st.nextOrder := call]
    requires s'.asked == if call.HttpWaiting? then s.asked[s.st.nextOrder := call.request] else s.asked
    requires s'.stored == s.stored && s'.st.cassette.http == s.st.cassette.http
    requires s'.st.httpOrder == s.st.httpOrder && s'.st.grpcOrder == s.st.grpcOrder
    ensures Faithful(settings, start, s')
  {
    forall k: nat | k < |s'.st.httpOrder| && s'.st.httpOrder[k] >= start.nextOrder ensures RecordedAt(settings, s', k)
    {
      assert s.st.httpOrder[k] in s.st.httpOrder;
      assert RecordedAt(settings, s, k);
    }
  }

  lemma StepFaithful(settings: Settings, start: State, s: System, ev: Event)
    requires Lists(s.st) && Accounted(start, s) && Faithful(settings, start, s) && Enabled(s, ev)
    ensures Faithful(settings, start, Step(settings, s, ev))
  {
    match ev
    case AskHttp(_) => AskHttpFaithful(settings, start, s, ev);
    case AskGrpc(_) => AskGrpcFaithful(settings, start, s, ev);
    case GotHttp(_, _, _) => GotHttpFaithful(settings, start, s, ev);
    case GotGrpc(_, _, _) => GotGrpcFaithful(settings, start, s, ev);
    case _ => UntouchedFaithful(settings, start, s, Step(settings, s, ev));
  }

  lemma AskHttpFaithful(settings: Settings, start: State, s: System, ev: Event)
    requires Accounted(start, s) && Faithful(settings, start, s) && ev.AskHttp?
    ensures Faithful(settings, start, Step(settings, s, ev))
  {
    PrepareHttpFrame(settings, s.st, ev.httpRequest);
    if PrepareHttp(settings, s.st, ev.httpRequest).0.Record? {
      ReservedFaithful(settings, start, s, Step(settings, s, ev), HttpWaiting(ev.httpRequest));
    } else {
      UntouchedFaithful(settings, start, s, Step(settings, s, ev));
    }
  }

  lemma AskGrpcFaithful(settings: Settings, start: State, s: System, ev: Event)
    requires Accounted(start, s) && Faithful(settings, start, s) && ev.AskGrpc?
    ensures Faithful(settings, start, Step(settings, s, ev))
  {
    PrepareGrpcFrame(settings, s.st, ev.grpcRequest);
    if PrepareGrpc(settings, s.st, ev.grpcRequest).0.Record? {
      ReservedFaithful(settings, start, s, Step(settings, s, ev), GrpcWaiting(ev.grpcRequest));
    } else {
      UntouchedFaithful(settings, start, s, Step(settings, s, ev));
    }
  }

  lemma GotGrpcFaithful(settings: Settings, start: State, s: System, ev: Event)
    requires Lists(s.st) && Faithful(settings, start, s) && Enabled(s, ev) && ev.GotGrpc?
    ensures Faithful(settings, start, Step(settings, s, ev))
  {
    InsertElements(s.st.grpcOrder, PartitionPoint(s.st.grpcOrder, ev.order), ev.order);
    UntouchedFaithful(settings, start, s, Step(settings, s, ev));
  }

  lemma InsertedFaithful(settings: Settings, start: State, s: System, s': System, order: nat, position: nat)
    requires Lists(s.st) && Accounted(start, s) && Faithful(settings, start, s)
    requires order in s.calls && s.calls[order].HttpWaiting? && position <= |s.st.httpOrder|
    requires FewerWaiting(s, s') && s'.asked == s.asked && s'.st.nextOrder == s.st.nextOrder
    requires s'.st.grpcOrder == s.st.grpcOrder && s'.st.httpOrder == InsertAt(s.st.httpOrder, position, order)
    requires order in s'.stored && s'.stored == s.stored[order := s'.stored[order]]
    requires |s'.st.cassette.http| == |s'.st.httpOrder| && position < |s'.st.cassette.http|
    requires s'.st.cassette.http == InsertAt(s.st.cassette.http, position, s'.st.cassette.http[position])
    requires RecordedAs(settings, s', order, s'.st.cassette.http[position])
    ensures Faithful(settings, start, s')
  {
    WaitingIsNew(start, s, order);
    forall k: nat | k < |s'.st.httpOrder| && s'.st.httpOrder[k] >= start.nextOrder ensures RecordedAt(settings, s', k)
    {
      if k != position {
        var before := if k < position then k else k - 1;
        assert s.st.httpOrder[before] in s.st.httpOrder;
        assert RecordedAt(settings, s, before);
      }
    }
  }

  lemma GotHttpFaithful(settings: Settings, start: State, s: System, ev: Event)
    requires Lists(s.st) && Accounted(start, s) && Faithful(settings, start, s) && Enabled(s, ev) && ev.GotHttp?
    ensures Faithful(settings, start, Step(settings, s, ev))
  {
    hide PartitionPoint;
    hide Accounted;
    var s', order := Step(settings, s, ev), ev.order;
    var interaction := HttpInteraction(s.calls[order].request, ev.response, ev.at);
    WaitingIsNew(start, s, order);
    InsertHttpLists(settings, s.st, order, interaction);
    if InsertHttp(settings, s.st, order, interaction).0.Inserted? {
      InsertedFaithful(settings, start, s, s', order, PartitionPoint(s.st.httpOrder, order));
    } else {
      UntouchedFaithful(settings, start, s, s');
    }
  }

  lemma UntouchedGrpc(settings: Settings, start: State, s: System, s': System)
    requires GrpcFaithful(settings, start, s) && FewerWaiting(s, s')
    requires s'.grpcAsked == s.grpcAsked && s'.grpcStored == s.grpcStored && s'.st.nextOrder == s.st.nextOrder
    requires s'.st.grpcOrder == s.st.grpcOrder && forall o: nat :: o in s.grpcAsked ==> o !in s'.st.httpOrder
    requires s'.st.cassette.grpc == s.st.cassette.grpc
    ensures GrpcFaithful(settings, start, s')
  {
    forall k: nat | k < |s'.st.grpcOrder| && s'.st.grpcOrder[k] >= start.nextOrder ensures GrpcRecordedAt(settings, s', k)
    {
      assert GrpcRecordedAt(settings, s, k);
    }
  }

  lemma ReservedGrpc(settings: Settings, start: State, s: System, s': System, call: Call)
    requires Accounted(start, s) && GrpcFaithful(settings, start, s) && call.Waiting()
    requires s'.st.nextOrder == s.st.nextOrder + 1 && s'.calls == s.calls[s.st.nextOrder := call]
    requires s'.grpcAsked == if call.GrpcWaiting? then s.grpcAsked[s.st.nextOrder := call.grpc] else s.grpcAsked
    requires s'.grpcStored == s.grpcStored && s'.st.cassette.grpc == s.st.cassette.grpc
    requires s'.st.httpOrder == s.st.httpOrder && s'.st.grpcOrder == s.st.grpcOrder
    ensures GrpcFaithful(settings, start, s')
  {
    forall k: nat | k < |s'.st.grpcOrder| && s'.st.grpcOrder[k] >= start.nextOrder ensures GrpcRecordedAt(settings, s', k)
    {
      assert s.st.grpcOrder[k] in s.st.grpcOrder;
      assert GrpcRecordedAt(settings, s, k);
    }
  }

  lemma StepGrpcFaithful(settings: Settings, start: State, s: System, ev: Event)
    requires Lists(s.st) && Accounted(start, s) && GrpcFaithful(settings, start, s) && Enabled(s, ev)
    ensures GrpcFaithful(settings, start, Step(settings, s, ev))
  {
    match ev
    case AskHttp(_) => AskHttpKeepsGrpc(settings, start, s, ev);
    case AskGrpc(_) => AskGrpcKeepsGrpc(settings, start, s, ev);
    case GotHttp(_, _, _) => GotHttpKeepsGrpc(settings, start, s, ev);
    case GotGrpc(_, _, _) => GotGrpcKeepsGrpc(settings, start, s, ev);
    case _ => UntouchedGrpc(settings, start, s, Step(settings, s, ev));
  }

  lemma AskHttpKeepsGrpc(settings: Settings, start: State, s: System, ev: Event)
    requires Accounted(start, s) && GrpcFaithful(settings, start, s) && ev.AskHttp?
    ensures GrpcFaithful(settings, start, Step(settings, s, ev))
  {
    PrepareHttpFrame(settings, s.st, ev.httpRequest);
    if PrepareHttp(settings, s.st, ev.httpRequest).0.Record? {
      ReservedGrpc(settings, start, s, Step(settings, s, ev), HttpWaiting(ev.httpRequest));
    } else {
      UntouchedGrpc(settings, start, s, Step(settings, s, ev));
    }
  }

  lemma AskGrpcKeepsGrpc(settings: Settings, start: State, s: System, ev: Event)
    requires Accounted(start, s) && GrpcFaithful(settings, start, s) && ev.AskGrpc?
    ensures GrpcFaithful(settings, start, Step(settings, s, ev))
  {
    PrepareGrpcFrame(settings, s.st, ev.grpcRequest);
    if PrepareGrpc(settings, s.st, ev.grpcRequest).0.Record? {
      ReservedGrpc(settings, start, s, Step(settings, s, ev), GrpcWaiting(ev.grpcRequest));
    } else {
      UntouchedGrpc(settings, start, s, Step(settings, s, ev));
    }
  }

  lemma GotHttpKeepsGrpc(settings: Settings, start: State, s: System, ev: Event)
    requires Lists(s.st) && GrpcFaithful(settings, start, s) && Enabled(s, ev) && ev.GotHttp?
    ensures GrpcFaithful(settings, start, Step(settings, s, ev))
  {
    GotHttpFrame(settings, s, ev);
    InsertHttpFrame(settings, s.st, ev.order, HttpInteraction(s.calls[ev.order].request, ev.response, ev.at));
    hide Step;
    hide InsertHttp;
    InsertElements(s.st.httpOrder, PartitionPoint(s.st.httpOrder, ev.order), ev.order);
    UntouchedGrpc(settings, start, s, Step(settings, s, ev));
  }

  lemma InsertedGrpc(settings: Settings, start: State, s: System, s': System, order: nat, position: nat)
    requires Lists(s.st) && Accounted(start, s) && GrpcFaithful(settings, start, s)
    requires order in s.calls && s.calls[order].GrpcWaiting? && position <= |s.st.grpcOrder|
    requires FewerWaiting(s, s') && s'.grpcAsked == s.grpcAsked && s'.st.nextOrder == s.st.nextOrder
    requires s'.st.httpOrder == s.st.httpOrder && s'.st.grpcOrder == InsertAt(s.st.grpcOrder, position, order)
    requires order in s'.grpcStored && s'.grpcStored == s.grpcStored[order := s'.grpcStored[order]]
    requires |s'.st.cassette.grpc| == |s'.st.grpcOrder| && position < |s'.st.cassette.grpc|
    requires s'.st.cassette.grpc == InsertAt(s.st.cassette.grpc, position, s'.st.cassette.grpc[position])
    requires GrpcRecordedAs(settings, s', order, s'.st.cassette.grpc[position])
    ensures GrpcFaithful(settings, start, s')
  {
    WaitingIsNew(start, s, order);
    forall k: nat | k < |s'.st.grpcOrder| && s'.st.grpcOrder[k] >= start.nextOrder ensures GrpcRecordedAt(settings, s', k)
    {
      if k != position {
        var before := if k < position then k else k - 1;
        assert s.st.grpcOrder[before] in s.st.grpcOrder;
        assert GrpcRecordedAt(settings, s, before);
      }
    }
  }

  lemma GotGrpcKeepsGrpc(settings: Settings, start: State, s: System, ev: Event)
    requires Lists(s.st) && Accounted(start, s) && GrpcFaithful(settings, start, s) && Enabled(s, ev) && ev.GotGrpc?
    ensures GrpcFaithful(settings, start, Step(settings, s, ev))
  {
    var s', order := Step(settings, s, ev), ev.order;
    var interaction := GrpcInteraction(s.calls[order].grpc, ev.grpcResponse, ev.at);
    WaitingIsNew(start, s, order);
    InsertGrpcLists(settings, s.st, order, interaction);
    if InsertGrpc(settings, s.st, order, interaction).0.Inserted? {
      InsertedGrpc(settings, start, s, s', order, PartitionPoint(s.st.grpcOrder, order));
    } else {
      UntouchedGrpc(settings, start, s, s');
    }
  }

  // At most once

  lemma StepSpent(settings: Settings, start: State, s: System, ev: Event)
    requires Lists(s.st) && Accounted(start, s) && Spent(settings, start, s) && Enabled(s, ev)
    ensures Spent(settings, start, Step(settings, s, ev))
  {
    match ev
    case AskHttp(_) => AskHttpSpent(settings, start, s, ev);
    case AskGrpc(_) => AskGrpcSpent(settings, start, s, ev);
    case GotHttp(_, _, _) => GotHttpSpent(settings, start, s, ev);
    case GotGrpc(_, _, _) => GotGrpcSpent(settings, start, s, ev);
    case _ =>
  }

  lemma PlayedIn(orders: seq<nat>, played: seq<bool>, answered: seq<nat>, loaded: seq<nat>, first: nat, i: nat)
    requires SpentIn(orders, played, answered, loaded, first) && Increasing(orders) && |played| == |orders|
    requires i < |orders| && !played[i] && (orders[i] < first ==> orders[i] in loaded)
    ensures SpentIn(orders, played[i := true], answered + [orders[i]], loaded, first)
  {
    assert orders[i] < first && orders[i] !in answered;
    forall k | 0 <= k < |orders| && (orders[k] >= first || orders[k] in answered + [orders[i]]) ensures played[i := true][k] {
      if k != i {
        assert orders[k] != orders[i];
      }
    }
  }

  lemma InsertedIn(orders: seq<nat>, played: seq<bool>, answered: seq<nat>, loaded: seq<nat>, first: nat, position: nat, order: nat)
    requires SpentIn(orders, played, answered, loaded, first) && |played| == |orders| && position <= |orders|
    ensures SpentIn(InsertAt(orders, position, order), InsertAt(played, position, true), answered, loaded, first)
  {}

  lemma AskHttpSpent(settings: Settings, start: State, s: System, ev: Event)
    requires Lists(s.st) && Accounted(start, s) && Spent(settings, start, s) && ev.AskHttp?
    ensures Spent(settings, start, Step(settings, s, ev))
  {
    hide Accounted;
    var request := settings.security.httpRequest(ev.httpRequest);
    ChoiceInRange(s.st.cassette, request, settings.matching);
    PrepareHttpFrame(settings, s.st, ev.httpRequest);
    if Answering(settings, s.st, ev.httpRequest) == [] {
      assert s.answered + [] == s.answered;
    } else if settings.canRecord {
      var i := HttpChoice(s.st.cassette, request, settings.matching).value;
      FreshChoice(s.st.cassette, request, settings.matching);
      LoadedBelow(start, s);
      assert s.st.httpOrder[i] in s.st.httpOrder;
      PlayedIn(s.st.httpOrder, s.st.cassette.played, s.answered, start.httpOrder, start.nextOrder, i);
    }
  }

  lemma AskGrpcSpent(settings: Settings, start: State, s: System, ev: Event)
    requires Lists(s.st) && Accounted(start, s) && Spent(settings, start, s) && ev.AskGrpc?
    ensures Spent(settings, start, Step(settings, s, ev))
  {
    hide Accounted;
    var request := settings.security.grpcRequest(ev.grpcRequest);
    GrpcChoiceInRange(s.st.cassette, request);
    PrepareGrpcFrame(settings, s.st, ev.grpcRequest);
    if AnsweringGrpc(settings, s.st, ev.grpcRequest) == [] {
      assert s.grpcAnswered + [] == s.grpcAnswered;
    } else if settings.canRecord {
      var i := GrpcChoice(s.st.cassette, request).value;
      FreshGrpcChoice(s.st.cassette, request);
      LoadedBelow(start, s);
      assert s.st.grpcOrder[i] in s.st.grpcOrder;
      PlayedIn(s.st.grpcOrder, s.st.cassette.grpcPlayed, s.grpcAnswered, start.grpcOrder, start.nextOrder, i);
    }
  }

  lemma LoadedBelow(start: State, s: System)
    requires Accounted(start, s)
    ensures forall o | o in s.st.httpOrder :: o < start.nextOrder ==> o in start.httpOrder
    ensures forall o | o in s.st.grpcOrder :: o < start.nextOrder ==> o in start.grpcOrder
  {}

  /** While recording, only an unplayed interaction is chosen. */
  lemma FreshChoice(c: Contents, request: HttpRequest, config: MatchConfig)
    ensures var choice := HttpChoice(c, request, config);
            choice.Some? && c.recording && choice.value < |c.played| ==> !c.played[choice.value]
  {}

  lemma FreshGrpcChoice(c: Contents, request: GrpcRequest)
    ensures var choice := GrpcChoice(c, request);
            choice.Some? && c.recording && choice.value < |c.grpcPlayed| ==> !c.grpcPlayed[choice.value]
  {}

  lemma GotHttpSpent(settings: Settings, start: State, s: System, ev: Event)
    requires Lists(s.st) && Accounted(start, s) && Spent(settings, start, s) && Enabled(s, ev) && ev.GotHttp?
    ensures Spent(settings, start, Step(settings, s, ev))
  {
    hide Accounted;
    hide SpentIn;
    hide InsertAt;
    var interaction := HttpInteraction(s.calls[ev.order].request, ev.response, ev.at);
    WaitingIsNew(start, s, ev.order);
    InsertHttpLists(settings, s.st, ev.order, interaction);
    if settings.canRecord {
      InsertedIn(s.st.httpOrder, s.st.cassette.played, s.answered, start.httpOrder, start.nextOrder,
                 PartitionPoint(s.st.httpOrder, ev.order), ev.order);
    }
  }

  lemma GotGrpcSpent(settings: Settings, start: State, s: System, ev: Event)
    requires Lists(s.st) && Accounted(start, s) && Spent(settings, start, s) && Enabled(s, ev) && ev.GotGrpc?
    ensures Spent(settings, start, Step(settings, s, ev))
  {
    hide Accounted;
    var interaction := GrpcInteraction(s.calls[ev.order].grpc, ev.grpcResponse, ev.at);
    WaitingIsNew(start, s, ev.order);
    InsertGrpcLists(settings, s.st, ev.order, interaction);
    if settings.canRecord {
      InsertedIn(s.st.grpcOrder, s.st.cassette.grpcPlayed, s.grpcAnswered, start.grpcOrder, start.nextOrder,
                 PartitionPoint(s.st.grpcOrder, ev.order), ev.order);
    }
  }

  // The file

  lemma StepDurable(settings: Settings, start: State, s: System, ev: Event)
    requires Lists(s.st) && Accounted(start, s) && Durable(settings, start, s) && Enabled(s, ev)
    ensures Durable(settings, start, Step(settings, s, ev))
  {
    match ev
    case AskHttp(request) =>
      PrepareHttpFrame(settings, s.st, request);
      SameFileDurable(settings, start, s, Step(settings, s, ev));
    case AskGrpc(request) =>
      PrepareGrpcFrame(settings, s.st, request);
      SameFileDurable(settings, start, s, Step(settings, s, ev));
    case GotHttp(_, _, _) => GotHttpDurable(settings, start, s, ev);
    case GotGrpc(_, _, _) => GotGrpcDurable(settings, start, s, ev);
    case SaveCall(order, writes) =>
      if !writes { assert order in Step(settings, s, ev).calls && !Step(settings, s, ev).calls[order].Waiting(); }
    case DropCall(_) => SameFileDurable(settings, start, s, Step(settings, s, ev));
    case _ =>
  }

  lemma SameFileDurable(settings: Settings, start: State, s: System, s': System)
    requires Durable(settings, start, s)
    requires s'.st.cassette.http == s.st.cassette.http && s'.st.cassette.grpc == s.st.cassette.grpc
    requires s'.st.cassette.ws == s.st.cassette.ws && s'.st.httpOrder == s.st.httpOrder
    requires s'.st.disk == s.st.disk && s'.st.errors == s.st.errors && s'.failed == s.failed
    requires forall o: nat :: o in s.calls && !s.calls[o].Waiting() ==> o in s'.calls && s'.calls[o] == s.calls[o]
    ensures Durable(settings, start, s')
  {
    StillUnsaved(s, s');
  }

  lemma GotHttpDurable(settings: Settings, start: State, s: System, ev: Event)
    requires Lists(s.st) && Accounted(start, s) && Durable(settings, start, s) && Enabled(s, ev) && ev.GotHttp?
    ensures Durable(settings, start, Step(settings, s, ev))
  {
    var s' := Step(settings, s, ev);
    var interaction := HttpInteraction(s.calls[ev.order].request, ev.response, ev.at);
    GotHttpFrame(settings, s, ev);
    InsertHttpFrame(settings, s.st, ev.order, HttpInteraction(s.calls[ev.order].request, ev.response, ev.at));
    hide Step;
    WaitingIsNew(start, s, ev.order);
    InsertHttpLists(settings, s.st, ev.order, interaction);
    hide InsertHttp;
    match InsertHttp(settings, s.st, ev.order, interaction).0
    case Inserted => SavingDurable(settings, start, s, s', ev.order);
    case Refused => SameFileDurable(settings, start, s, s');
    case _ =>
  }

  lemma GotGrpcDurable(settings: Settings, start: State, s: System, ev: Event)
    requires Lists(s.st) && Accounted(start, s) && Durable(settings, start, s) && Enabled(s, ev) && ev.GotGrpc?
    ensures Durable(settings, start, Step(settings, s, ev))
  {
    var s' := Step(settings, s, ev);
    var interaction := GrpcInteraction(s.calls[ev.order].grpc, ev.grpcResponse, ev.at);
    WaitingIsNew(start, s, ev.order);
    InsertGrpcLists(settings, s.st, ev.order, interaction);
    match InsertGrpc(settings, s.st, ev.order, interaction).0
    case Inserted => SavingDurable(settings, start, s, s', ev.order);
    case _ => SameFileDurable(settings, start, s, s');
  }

  lemma SavingDurable(settings: Settings, start: State, s: System, s': System, order: nat)
    requires Durable(settings, start, s) && s'.failed == s.failed && s'.st.errors == s.st.errors
    requires order in s'.calls && !s'.calls[order].Waiting()
    ensures Durable(settings, start, s')
  {
    assert Unsaved(s');
  }

  lemma StillUnsaved(s: System, s': System)
    requires forall o: nat :: o in s.calls && !s.calls[o].Waiting() ==> o in s'.calls && s'.calls[o] == s.calls[o]
    ensures Unsaved(s) ==> Unsaved(s')
  {}

  // --- Every run ---

  lemma StartInvariant(settings: Settings, mode: RecordMode, file: Option<Disk>)
    requires settings.mode == mode && settings.canRecord == mode.CanRecord(file.Some?)
    ensures Invariant(settings, Opened(mode, file), Start(mode, file))
  {}

  lemma StepInvariant(settings: Settings, start: State, s: System, ev: Event)
    requires Invariant(settings, start, s) && Enabled(s, ev)
    ensures Invariant(settings, start, Step(settings, s, ev))
  {
    StepLists(settings, start, s, ev);
    StepAccounted(settings, start, s, ev);
    StepFaithful(settings, start, s, ev);
    StepGrpcFaithful(settings, start, s, ev);
    StepSpent(settings, start, s, ev);
    StepDurable(settings, start, s, ev);
  }

  lemma {:induction false} RunInvariant(settings: Settings, start: State, s: System, events: seq<Event>)
    requires Invariant(settings, start, s) && RunAll(settings, s, events).Some?
    ensures Invariant(settings, start, RunAll(settings, s, events).value)
    decreases |events|
  {
    if events != [] {
      StepInvariant(settings, start, s, events[0]);
      RunInvariant(settings, start, Step(settings, s, events[0]), events[1..]);
    }
  }

  ghost predicate Opens(settings: Settings, mode: RecordMode, file: Option<Disk>) {
    settings.mode == mode && settings.canRecord == mode.CanRecord(file.Some?)
  }

  ghost predicate Reaches(settings: Settings, mode: RecordMode, file: Option<Disk>, events: seq<Event>, s: System) {
    Opens(settings, mode, file) && RunAll(settings, Start(mode, file), events) == Some(s)
  }

  lemma ReachedInvariant(settings: Settings, mode: RecordMode, file: Option<Disk>, events: seq<Event>, s: System)
    requires Reaches(settings, mode, file, events, s)
    ensures Invariant(settings, Opened(mode, file), s)
  {
    StartInvariant(settings, mode, file);
    RunInvariant(settings, Opened(mode, file), Start(mode, file), events);
  }

  // --- Main results ---

  /** Reservation accounting. In every reachable state each order handed out is pending, recorded or failed and only
      one of these, insertions always find their position, and `finish` succeeds exactly when nothing is pending and
      no error was remembered. */
  lemma ReservationsAccounted(settings: Settings, mode: RecordMode, file: Option<Disk>, events: seq<Event>, s: System)
    requires Reaches(settings, mode, file, events, s)
    ensures Lists(s.st)
    ensures forall o: nat :: Opened(mode, file).nextOrder <= o < s.st.nextOrder ==>
              OneOf(o in s.st.pending, o in s.st.httpOrder, o in s.st.grpcOrder, o in s.failed)
    ensures FinishEnd(s.st).Finished? <==> s.st.pending == map[] && s.st.errors == []
  {
    ReachedInvariant(settings, mode, file, events, s);
    FinishSucceedsIff(s.st);
  }

  /** No lost update. Once no call stands between its insertion and its save, and something was recorded, the file is
      the current cassette in write order unless an error was remembered. */
  lemma NoLostUpdate(settings: Settings, mode: RecordMode, file: Option<Disk>, events: seq<Event>, s: System)
    requires Reaches(settings, mode, file, events, s)
    requires !Unsaved(s) && Grew(Opened(mode, file), s.st)
    ensures s.st.errors != [] || s.st.disk == Some(FileNow(settings, s.st))
  {
    ReachedInvariant(settings, mode, file, events, s);
  }

  /** At most once. In a session that can record, every loaded recording answers at most one request and no recording
      made in the session ever answers one. */
  lemma AtMostOnce(settings: Settings, mode: RecordMode, file: Option<Disk>, events: seq<Event>, s: System)
    requires Reaches(settings, mode, file, events, s) && settings.canRecord
    ensures Distinct(s.answered) && Distinct(s.grpcAnswered)
    ensures forall a | a in s.answered :: a < |Opened(mode, file).cassette.http|
    ensures forall a | a in s.grpcAnswered :: a < |Opened(mode, file).cassette.grpc|
  {
    ReachedInvariant(settings, mode, file, events, s);
  }

  // --- Record, then replay ---

  /** Replay-only use of a recorder: every request in turn. */
  function PrepareAll(settings: Settings, st: State, requests: seq<HttpRequest>): (r: seq<Action<HttpResponse>>)
    ensures |r| == |requests|
    decreases |requests|
  {
    if requests == [] then []
    else
      var (action, st') := PrepareHttp(settings, st, requests[0]);
      [action] + PrepareAll(settings, st', requests[1..])
  }

  function Scrubbed(settings: Settings, requests: seq<HttpRequest>): (r: seq<HttpRequest>)
    ensures |r| == |requests| && forall i :: 0 <= i < |r| ==> r[i] == settings.security.httpRequest(requests[i])
  {
    seq(|requests|, i requires 0 <= i < |requests| => settings.security.httpRequest(requests[i]))
  }

  ghost predicate ReplaysOnly(settings: Settings, st: State) {
    && !st.finalized && settings.mode.Replays() && !settings.canRecord && !st.cassette.recording
    && |st.cassette.played| == |st.cassette.http|
  }

  function AsAction(answer: Option<HttpResponse>): Action<HttpResponse> {
    match answer case None => NoMatch case Some(response) => Replayed(response)
  }

  lemma PrepareStep(settings: Settings, st: State, request: HttpRequest)
    requires ReplaysOnly(settings, st)
    ensures var (action, st') := PrepareHttp(settings, st, request);
            var choice := HttpChoice(st.cassette, settings.security.httpRequest(request), settings.matching);
            && ReplaysOnly(settings, st') && st'.cassette.http == st.cassette.http
            && PlayedSet(st'.cassette.played) == Mark(PlayedSet(st.cassette.played), choice)
            && action == AsAction(Answers(st.cassette.http, [choice])[0])
  {
    ChoiceInRange(st.cassette, settings.security.httpRequest(request), settings.matching);
  }

  ghost function ReplayAnswers(settings: Settings, c: Contents, probes: seq<HttpRequest>): (r: seq<Option<HttpResponse>>)
    ensures |r| == |probes|
  {
    Answers(c.http, Run(Iota(|c.http|), c.http, PlayedSet(c.played), probes, settings.matching, false))
  }

  lemma ReplayAnswersStep(settings: Settings, c: Contents, c': Contents, probes: seq<HttpRequest>)
    requires probes != [] && !c.recording && c'.http == c.http
    requires PlayedSet(c'.played) == Mark(PlayedSet(c.played), HttpChoice(c, probes[0], settings.matching))
    ensures ReplayAnswers(settings, c, probes) ==
            Answers(c.http, [HttpChoice(c, probes[0], settings.matching)]) + ReplayAnswers(settings, c', probes[1..])
  {
    var choice := HttpChoice(c, probes[0], settings.matching);
    var rest := Run(Iota(|c.http|), c.http, Mark(PlayedSet(c.played), choice), probes[1..], settings.matching, false);
    assert Run(Iota(|c.http|), c.http, PlayedSet(c.played), probes, settings.matching, false) == [choice] + rest;
    AnswersAppend(c.http, [choice], rest);
  }

  lemma AnswersAppend(http: seq<HttpInteraction>, a: seq<Option<nat>>, b: seq<Option<nat>>)
    ensures Answers(http, a + b) == Answers(http, a) + Answers(http, b)
  {}

  /** A replay-only recorder answers as the replay machine does. */
  lemma {:induction false} PrepareAllIsRun(settings: Settings, st: State, requests: seq<HttpRequest>)
    requires ReplaysOnly(settings, st)
    ensures forall k :: 0 <= k < |requests| ==>
              PrepareAll(settings, st, requests)[k] ==
              AsAction(ReplayAnswers(settings, st.cassette, Scrubbed(settings, requests))[k])
    decreases |requests|
  {
    if requests != [] {
      var probes := Scrubbed(settings, requests);
      var (action, st') := PrepareHttp(settings, st, requests[0]);
      PrepareStep(settings, st, requests[0]);
      ReplayAnswersStep(settings, st.cassette, st'.cassette, probes);
      assert probes[1..] == Scrubbed(settings, requests[1..]);
      PrepareAllIsRun(settings, st', requests[1..]);
      var rest := PrepareAll(settings, st', requests[1..]);
      assert PrepareAll(settings, st, requests) == [action] + rest;
      forall k | 0 <= k < |requests|
        ensures ([action] + rest)[k] == AsAction(ReplayAnswers(settings, st.cassette, probes)[k])
      {
        if k > 0 {
          assert rest[k - 1] == AsAction(ReplayAnswers(settings, st'.cassette, probes[1..])[k - 1]);
        }
      }
    }
  }

  /** The recordings a replay-only recorder gives to requests asked in turn, by position in its file. */
  function PickAll(settings: Settings, st: State, requests: seq<HttpRequest>): (r: seq<Option<nat>>)
    ensures |r| == |requests|
    decreases |requests|
  {
    if requests == [] then []
    else
      [HttpChoice(st.cassette, settings.security.httpRequest(requests[0]), settings.matching)] +
      PickAll(settings, PrepareHttp(settings, st, requests[0]).1, requests[1..])
  }

  lemma {:induction false} PickAllIsRun(settings: Settings, st: State, requests: seq<HttpRequest>)
    requires ReplaysOnly(settings, st)
    ensures PickAll(settings, st, requests) ==
            Run(Iota(|st.cassette.http|), st.cassette.http, PlayedSet(st.cassette.played), Scrubbed(settings, requests),
                settings.matching, false)
    decreases |requests|
  {
    if requests != [] {
      PrepareStep(settings, st, requests[0]);
      assert Scrubbed(settings, requests)[1..] == Scrubbed(settings, requests[1..]);
      PickAllIsRun(settings, PrepareHttp(settings, st, requests[0]).1, requests[1..]);
    }
  }

  /** A session that recorded something and finished cleanly. */
  ghost predicate CleanSession(settings: Settings, mode: RecordMode, file: Option<Disk>, s: System) {
    Grew(Opened(mode, file), s.st) && !Unsaved(s) && FinishEnd(s.st).Finished?
  }

  lemma CleanState(settings: Settings, mode: RecordMode, file: Option<Disk>, events: seq<Event>, s: System)
    requires Reaches(settings, mode, file, events, s) && CleanSession(settings, mode, file, s)
    ensures Invariant(settings, Opened(mode, file), s)
    ensures s.st.pending == map[] && s.failed == {} && s.st.disk == Some(FileNow(settings, s.st))
  {
    ReachedInvariant(settings, mode, file, events, s);
    FinishSucceedsIff(s.st);
  }

  /** Asks for the recording at `k`: by the session's own request if the session made it, by any request that is
      scrubbed to the recorded one if it was loaded. */
  ghost predicate AsksFor(settings: Settings, s: System, k: nat, ask: HttpRequest) {
    k < |s.st.httpOrder| && k < |s.st.cassette.http| &&
    if s.st.httpOrder[k] in s.asked then ask == s.asked[s.st.httpOrder[k]]
    else settings.security.httpRequest(ask) == s.st.cassette.http[k].request
  }

  /** One request for each recording, in the order they were reserved. */
  ghost predicate AsksForAll(settings: Settings, s: System, asks: seq<HttpRequest>) {
    |asks| == |s.st.cassette.http| && forall k: nat :: k < |asks| ==> AsksFor(settings, s, k, asks[k])
  }

  /** Each pick, read through the order its file was written in, is the recording the request was made for. */
  ghost predicate EachItsOwn(order: seq<nat>, picks: seq<Option<nat>>) {
    forall k :: 0 <= k < |picks| ==> Unwrap(order, picks[k]) == Some(k)
  }

  lemma AskedWasRecorded(settings: Settings, start: State, s: System, k: nat)
    requires Faithful(settings, start, s) && k < |s.st.httpOrder| && s.st.httpOrder[k] in s.asked
    ensures RecordedAt(settings, s, k)
  {}

  lemma AsksAreRecorded(settings: Settings, start: State, s: System, asks: seq<HttpRequest>)
    requires Faithful(settings, start, s) && AsksForAll(settings, s, asks)
    ensures Scrubbed(settings, asks) == RequestsOf(s.st.cassette.http)
  {
    forall k: nat | k < |asks| ensures Scrubbed(settings, asks)[k] == RequestsOf(s.st.cassette.http)[k] {
      assert AsksFor(settings, s, k, asks[k]);
      if s.st.httpOrder[k] in s.asked {
        AskedWasRecorded(settings, start, s, k);
      }
    }
  }

  /** Exactly the orders handed out for HTTP requests in a clean session are recorded by it. */
  lemma AskedIsRecorded(settings: Settings, start: State, s: System, o: nat)
    requires Accounted(start, s) && Faithful(settings, start, s)
    requires s.st.pending == map[] && s.failed == {}
    ensures o in s.asked <==> o >= start.nextOrder && o in s.st.httpOrder
  {
    if o in s.st.httpOrder && o >= start.nextOrder {
      var k :| 0 <= k < |s.st.httpOrder| && s.st.httpOrder[k] == o;
      assert RecordedAt(settings, s, k);
    }
  }

  /** The picks from a written file, read through its order, are those of replaying in that order. */
  lemma FreshPicks(replay: Settings, disk: Disk, http: seq<HttpInteraction>, tie: seq<nat>, asks: seq<HttpRequest>)
    requires !replay.canRecord && replay.mode.NoRecording?
    requires disk.http == Written(http, Some(replay.matching), tie) && Scrubbed(replay, asks) == RequestsOf(http)
    ensures var order := WriteOrder(http, Some(replay.matching), tie);
            EachItsOwn(order, PickAll(replay, Opened(NoRecording, Some(disk)), asks)) <==>
            CountsFrom(Run(order, http, {}, RequestsOf(http), replay.matching, false), 0)
  {
    var order := WriteOrder(http, Some(replay.matching), tie);
    var start := Opened(NoRecording, Some(disk));
    WriteOrderArranges(http, Some(replay.matching), tie);
    PickAllIsRun(replay, start, asks);
    assert PlayedSet(start.cassette.played) == {} == Positions(order, {});
    WrittenRun(order, http, {}, RequestsOf(http), replay.matching, false);
  }

  /** Whole-session round trip, exactly. However the responses of a clean session interleaved, a fresh replay-only
      recorder over the saved file, asked for every recording in reservation order, picks for each request its own
      recording, if and only if no later recording that fits an earlier request has the smaller key. */
  lemma SessionRoundTripIff(
      settings: Settings, mode: RecordMode, file: Option<Disk>, events: seq<Event>, s: System, replay: Settings,
      asks: seq<HttpRequest>)
    requires Reaches(settings, mode, file, events, s) && CleanSession(settings, mode, file, s)
    requires AsksForAll(settings, s, asks) && settings.matching.Valid()
    requires replay == settings.(mode := NoRecording, canRecord := false)
    ensures s.st.disk.Some?
    ensures EachItsOwn(WriteOrder(s.st.cassette.http, Some(settings.matching), s.st.httpOrder),
                       PickAll(replay, Opened(NoRecording, s.st.disk), asks)) <==>
            KeysInTurn(s.st.cassette.http, settings.matching)
  {
    CleanState(settings, mode, file, events, s);
    var http, tie := s.st.cassette.http, s.st.httpOrder;
    AsksAreRecorded(settings, Opened(mode, file), s, asks);
    assert Scrubbed(replay, asks) == Scrubbed(settings, asks);
    FreshPicks(replay, s.st.disk.value, http, tie, asks);
    RoundTripIff(http, settings.matching, tie, false);
  }

  /** Then each request gets the response recorded for it. */
  lemma SessionRoundTrip(
      settings: Settings, mode: RecordMode, file: Option<Disk>, events: seq<Event>, s: System, replay: Settings,
      asks: seq<HttpRequest>)
    requires Reaches(settings, mode, file, events, s) && CleanSession(settings, mode, file, s)
    requires AsksForAll(settings, s, asks) && settings.matching.Valid()
    requires KeysInTurn(s.st.cassette.http, settings.matching)
    requires replay == settings.(mode := NoRecording, canRecord := false)
    ensures s.st.disk.Some? && |s.st.httpOrder| == |s.st.cassette.http| && Increasing(s.st.httpOrder)
    ensures forall o: nat :: o in s.asked <==> o >= Opened(mode, file).nextOrder && o in s.st.httpOrder
    ensures forall k: nat :: k < |asks| ==>
              PrepareAll(replay, Opened(NoRecording, s.st.disk), asks)[k] == Replayed(s.st.cassette.http[k].response)
    ensures forall k: nat :: k < |asks| && s.st.httpOrder[k] in s.asked ==>
              s.st.httpOrder[k] in s.stored && s.st.cassette.http[k].response == s.stored[s.st.httpOrder[k]].response
  {
    CleanState(settings, mode, file, events, s);
    AskedAreRecorded(settings, Opened(mode, file), s);
    AsksAreRecorded(settings, Opened(mode, file), s, asks);
    assert Scrubbed(replay, asks) == Scrubbed(settings, asks);
    FreshReplay(replay, s.st.disk.value, s.st.cassette.http, s.st.httpOrder, asks);
  }

  lemma AskedAreRecorded(settings: Settings, start: State, s: System)
    requires Invariant(settings, start, s) && s.st.pending == map[] && s.failed == {}
    ensures forall o: nat :: o in s.asked <==> o >= start.nextOrder && o in s.st.httpOrder
    ensures forall k: nat :: k < |s.st.httpOrder| && s.st.httpOrder[k] in s.asked ==> RecordedAt(settings, s, k)
  {
    forall o: nat ensures o in s.asked <==> o >= start.nextOrder && o in s.st.httpOrder {
      AskedIsRecorded(settings, start, s, o);
    }
    forall k: nat | k < |s.st.httpOrder| && s.st.httpOrder[k] in s.asked ensures RecordedAt(settings, s, k) {
      AskedWasRecorded(settings, start, s, k);
    }
  }

  lemma FreshReplay(
      replay: Settings, disk: Disk, http: seq<HttpInteraction>, tie: seq<nat>, asks: seq<HttpRequest>)
    requires !replay.canRecord && replay.mode.NoRecording? && replay.matching.Valid()
    requires KeysInTurn(http, replay.matching) && Increasing(tie) && |tie| == |http|
    requires disk.http == Written(http, Some(replay.matching), tie) && Scrubbed(replay, asks) == RequestsOf(http)
    ensures forall k: nat :: k < |asks| && k < |http| ==>
              PrepareAll(replay, Opened(NoRecording, Some(disk)), asks)[k] == Replayed(http[k].response)
  {
    var start := Opened(NoRecording, Some(disk));
    RoundTrip(http, replay.matching, tie);
    assert PlayedSet(start.cassette.played) == {};
    PrepareAllIsRun(replay, start, asks);
  }

  // --- The same for gRPC ---

  function PrepareAllGrpc(settings: Settings, st: State, requests: seq<GrpcRequest>): (r: seq<Action<GrpcInteraction>>)
    ensures |r| == |requests|
    decreases |requests|
  {
    if requests == [] then []
    else
      var (action, st') := PrepareGrpc(settings, st, requests[0]);
      [action] + PrepareAllGrpc(settings, st', requests[1..])
  }

  ghost predicate AsksForGrpc(settings: Settings, s: System, k: nat, ask: GrpcRequest) {
    k < |s.st.grpcOrder| && k < |s.st.cassette.grpc| &&
    if s.st.grpcOrder[k] in s.grpcAsked then ask == s.grpcAsked[s.st.grpcOrder[k]]
    else settings.security.grpcRequest(ask) == s.st.cassette.grpc[k].request
  }

  ghost predicate AsksForAllGrpc(settings: Settings, s: System, asks: seq<GrpcRequest>) {
    |asks| == |s.st.cassette.grpc| && forall k: nat :: k < |asks| ==> AsksForGrpc(settings, s, k, asks[k])
  }

  /** A fresh replay-only recorder over `grpc` that has answered its first `done` requests. */
  ghost predicate AnsweredTo(settings: Settings, st: State, grpc: seq<GrpcInteraction>, done: nat) {
    && !st.finalized && settings.mode.Replays()
    && st.cassette.grpc == grpc && |st.cassette.grpcPlayed| == |grpc| && done <= |grpc|
    && PlayedSet(st.cassette.grpcPlayed) == Below(done)
  }

  lemma GrpcInTurn(settings: Settings, st: State, grpc: seq<GrpcInteraction>, done: nat, ask: GrpcRequest)
    requires AnsweredTo(settings, st, grpc, done) && done < |grpc|
    requires settings.security.grpcRequest(ask) == grpc[done].request
    ensures PrepareGrpc(settings, st, ask).0 == Replayed(grpc[done])
    ensures AnsweredTo(settings, PrepareGrpc(settings, st, ask).1, grpc, done + 1)
  {
    var request := grpc[done].request;
    BodyMatchesItself(request.body);
    FirstOutsideAt(Iota(|grpc|), GrpcMatchAt(grpc, request), Below(done), done);
  }

  lemma {:induction false} GrpcAnswers(
      settings: Settings, st: State, grpc: seq<GrpcInteraction>, done: nat, asks: seq<GrpcRequest>)
    requires AnsweredTo(settings, st, grpc, done) && done + |asks| <= |grpc|
    requires forall k :: 0 <= k < |asks| ==> settings.security.grpcRequest(asks[k]) == grpc[done + k].request
    ensures forall k :: 0 <= k < |asks| ==> PrepareAllGrpc(settings, st, asks)[k] == Replayed(grpc[done + k])
    decreases |asks|
  {
    if asks != [] {
      GrpcInTurn(settings, st, grpc, done, asks[0]);
      GrpcAnswers(settings, PrepareGrpc(settings, st, asks[0]).1, grpc, done + 1, asks[1..]);
      forall k | 0 < k < |asks| ensures PrepareAllGrpc(settings, st, asks)[k] == Replayed(grpc[done + k]) {
        assert PrepareAllGrpc(settings, st, asks)[1..][k - 1] == Replayed(grpc[done + 1 + (k - 1)]);
      }
    }
  }

  /** gRPC interactions are written as reserved, so their round trip needs no condition: a fresh replay-only recorder over
      the file of a clean session, asked for every gRPC recording in turn, gives each request its own interaction. */
  lemma GrpcRoundTrip(
      settings: Settings, mode: RecordMode, file: Option<Disk>, events: seq<Event>, s: System, replay: Settings,
      asks: seq<GrpcRequest>)
    requires Reaches(settings, mode, file, events, s) && CleanSession(settings, mode, file, s)
    requires AsksForAllGrpc(settings, s, asks) && replay == settings.(mode := NoRecording, canRecord := false)
    ensures s.st.disk.Some? && |s.st.grpcOrder| == |s.st.cassette.grpc| && Increasing(s.st.grpcOrder)
    ensures forall o: nat :: o in s.grpcAsked <==> o >= Opened(mode, file).nextOrder && o in s.st.grpcOrder
    ensures forall k: nat :: k < |asks| ==>
              PrepareAllGrpc(replay, Opened(NoRecording, s.st.disk), asks)[k] == Replayed(s.st.cassette.grpc[k])
    ensures forall k: nat :: k < |asks| && s.st.grpcOrder[k] in s.grpcAsked ==> GrpcRecordedAt(settings, s, k)
  {
    CleanState(settings, mode, file, events, s);
    GrpcAskedAreRecorded(settings, Opened(mode, file), s);
    GrpcAsksAreRecorded(settings, Opened(mode, file), s, asks);
    hide *;
    GrpcReplay(replay, s.st.disk.value, s.st.cassette.grpc, asks);
  }

  lemma GrpcReplay(replay: Settings, disk: Disk, grpc: seq<GrpcInteraction>, asks: seq<GrpcRequest>)
    requires replay.mode.NoRecording? && disk.grpc == grpc && |asks| == |grpc|
    requires forall k: nat :: k < |asks| ==> replay.security.grpcRequest(asks[k]) == grpc[k].request
    ensures forall k: nat :: k < |asks| ==>
              PrepareAllGrpc(replay, Opened(NoRecording, Some(disk)), asks)[k] == Replayed(grpc[k])
  {
    GrpcAnswers(replay, Opened(NoRecording, Some(disk)), grpc, 0, asks);
  }

  lemma GrpcAsksAreRecorded(settings: Settings, start: State, s: System, asks: seq<GrpcRequest>)
    requires GrpcFaithful(settings, start, s) && AsksForAllGrpc(settings, s, asks)
    ensures forall k: nat :: k < |asks| ==> settings.security.grpcRequest(asks[k]) == s.st.cassette.grpc[k].request
  {
    forall k: nat | k < |asks| ensures settings.security.grpcRequest(asks[k]) == s.st.cassette.grpc[k].request {
      assert AsksForGrpc(settings, s, k, asks[k]);
      if s.st.grpcOrder[k] in s.grpcAsked {
        assert GrpcRecordedAt(settings, s, k);
      }
    }
  }

  lemma GrpcAskedAreRecorded(settings: Settings, start: State, s: System)
    requires Accounted(start, s) && GrpcFaithful(settings, start, s) && s.st.pending == map[] && s.failed == {}
    ensures forall o: nat :: o in s.grpcAsked <==> o >= start.nextOrder && o in s.st.grpcOrder
    ensures forall k: nat :: k < |s.st.grpcOrder| && s.st.grpcOrder[k] in s.grpcAsked ==> GrpcRecordedAt(settings, s, k)
  {
    forall o: nat ensures o in s.grpcAsked <==> o >= start.nextOrder && o in s.st.grpcOrder {
      if o in s.st.grpcOrder && o >= start.nextOrder {
        var k :| 0 <= k < |s.st.grpcOrder| && s.st.grpcOrder[k] == o;
        assert GrpcRecordedAt(settings, s, k);
      }
    }
  }

  /** Two clean sessions that recorded the same interactions under the same orders leave the same HTTP section on disk,
      in whatever order their responses arrived. */
  lemma SessionsWriteTheSame(
      settings: Settings, mode: RecordMode, file: Option<Disk>, events: seq<Event>, s: System,
      events': seq<Event>, s': System)
    requires Reaches(settings, mode, file, events, s) && CleanSession(settings, mode, file, s)
    requires Reaches(settings, mode, file, events', s') && CleanSession(settings, mode, file, s')
    requires |s.st.httpOrder| == |s.st.cassette.http| && |s'.st.httpOrder| == |s'.st.cassette.http|
    requires forall slot :: slot in Slots(s.st.httpOrder, s.st.cassette.http) <==>
                            slot in Slots(s'.st.httpOrder, s'.st.cassette.http)
    ensures s.st.disk.Some? && s'.st.disk.Some? && s.st.disk.value.http == s'.st.disk.value.http
  {
    CleanState(settings, mode, file, events, s);
    CleanState(settings, mode, file, events', s');
    CompletionOrderIndependent(
      s.st.httpOrder, s.st.cassette.http, s'.st.httpOrder, s'.st.cassette.http, settings.matching);
  }
}
