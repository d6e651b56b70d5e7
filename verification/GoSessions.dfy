/** Runs of a Go transport: any interleaving of the critical sections of HTTP, gRPC and WebSocket calls. */
module GoSessions {
  import opened GoState
  import opened MethodUriIndex
  import opened Options
  import opened Protocol
  import opened Replay
  import opened Sorting

  datatype Outcome = Outstanding | Clean | Errored

  /** How far a call that reserved an order has come: its recording, and the end of its reservation. */
  datatype Call = Call(kind: Kind, recorded: Outcome, finished: Outcome)

  /** `answers` lists, per protocol, the orders of the recordings that answered; `recorded` keeps what each call handed in
      that was recorded. */
  datatype Session = Session(t: Transport, calls: map<nat, Call>, answers: Answers, recorded: map<nat, Recording>)
  datatype Answers = Answers(http: seq<nat>, grpc: seq<nat>, ws: seq<nat>)

  datatype Event =
    | AskHttp(probe: HttpRequest)
    | AskGrpc(method_: string)
    | AskWebSocket(uri: string)
    | ReserveOrder(kind: Kind, what: string)
    | RecordCall(order: nat, recording: Recording, writes: bool)
    | FinishCall(order: nat, error: Option<TransportError>)
    | CloseTransport(writes: bool)

  /** An HTTP body read to its end may still be recorded after a concurrent `Close` reported it incomplete. */
  predicate Enabled(s: Session, ev: Event) {
    match ev
    case RecordCall(order, r, _) =>
      && order in s.calls && s.calls[order].kind == r.Kind() && s.calls[order].recorded.Outstanding?
      && (s.calls[order].finished.Outstanding? || (r.OfHttp? && s.calls[order].finished.Errored?))
    case FinishCall(order, error) =>
      && order in s.calls && s.calls[order].finished.Outstanding?
      && (error.None? ==> !s.calls[order].recorded.Errored?)
    case _ => true
  }

  function OutcomeOf(error: Option<TransportError>): Outcome {
    if error.Some? then Errored else Clean
  }

  function OrderOf<T>(lane: Lane<T>, choice: Option<nat>): seq<nat> {
    if choice.Some? && choice.value < |lane.orders| then [lane.orders[choice.value]] else []
  }

  function Ask<T>(lane: Lane<T>, matches: nat -> bool, canRecord: bool, closed: bool): Option<nat> {
    if closed then None else Chosen(lane, matches, canRecord)
  }

  function AfterRecord(call: Call, error: Option<TransportError>): Call {
    call.(recorded := OutcomeOf(error), finished := if call.kind.Http? then call.finished else OutcomeOf(error))
  }

  function Recorded(config: Config, t: Transport, r: Recording, order: nat, writes: bool): (Option<TransportError>, Transport) {
    if r.OfHttp? then Record(config, t, r, order, writes) else RecordAndFinish(config, t, r, order, writes)
  }

  function Step(config: Config, s: Session, ev: Event): Session
    requires Enabled(s, ev)
  {
    match ev
    case AskHttp(probe) =>
      var choice := Ask(s.t.http, HttpAt(config, s.t.http.items, probe), config.canRecord, s.t.closed);
      s.(t := s.t.(http := Took(s.t.http, choice)),
         answers := s.answers.(http := s.answers.http + OrderOf(s.t.http, choice)))
    case AskGrpc(method_) =>
      var choice := Ask(s.t.grpc, GrpcAt(s.t.grpc.items, method_), config.canRecord, s.t.closed);
      s.(t := s.t.(grpc := Took(s.t.grpc, choice)),
         answers := s.answers.(grpc := s.answers.grpc + OrderOf(s.t.grpc, choice)))
    case AskWebSocket(uri) =>
      var choice := Ask(s.t.ws, WebSocketAt(config, s.t.ws.items, uri), config.canRecord, s.t.closed);
      s.(t := s.t.(ws := Took(s.t.ws, choice)),
         answers := s.answers.(ws := s.answers.ws + OrderOf(s.t.ws, choice)))
    case ReserveOrder(kind, what) =>
      var (order, t) := Reserve(s.t, kind, what);
      s.(t := t, calls := if order.Some? then s.calls[order.value := Call(kind, Outstanding, Outstanding)] else s.calls)
    case RecordCall(order, r, writes) =>
      var (error, t) := Recorded(config, s.t, r, order, writes);
      s.(t := t, calls := s.calls[order := AfterRecord(s.calls[order], error)],
         recorded := if error.None? then s.recorded[order := r] else s.recorded)
    case FinishCall(order, error) =>
      s.(t := Finish(s.t, s.calls[order].kind, order, error),
         calls := s.calls[order := s.calls[order].(finished := OutcomeOf(error))])
    case CloseTransport(writes) => s.(t := Close(s.t, writes).1)
  }

  function RunAll(config: Config, s: Session, events: seq<Event>): Option<Session>
    decreases |events|
  {
    if events == [] then Some(s)
    else if Enabled(s, events[0]) then RunAll(config, Step(config, s, events[0]), events[1..])
    else None
  }

  function Start(file: Option<File>, discards: bool, index: Index): Session {
    Session(Loaded(file, discards, index), map[], Answers([], [], []), map[])
  }

  // --- Invariants ---

  /** A call's order is pending until the call finishes, and among the recordings exactly if it was recorded. */
  ghost predicate CallFits(t: Transport, order: nat, call: Call) {
    && (forall k: Kind :: order in t.Pending(k) <==> k == call.kind && call.finished.Outstanding?)
    && (forall k: Kind :: order in t.Orders(k) <==> k == call.kind && call.recorded.Clean?)
    && (call.recorded.Errored? ==> !call.finished.Clean?)
    && (call.finished.Errored? ==> t.recordErr != [])
  }

  /** Orders handed out in the session have a call each; what was loaded stays and is not pending. */
  ghost predicate Accounted(start: Transport, t: Transport, calls: map<nat, Call>) {
    && start.nextOrder <= t.nextOrder
    && (forall o: nat :: o in calls <==> start.nextOrder <= o < t.nextOrder)
    && (forall o: nat :: o in calls ==> CallFits(t, o, calls[o]))
    && (forall o: nat, k: Kind :: o < start.nextOrder ==> o !in t.Pending(k) && (o in t.Orders(k) <==> o in start.Orders(k)))
  }

  /** No recording was added since `start`. */
  ghost predicate Unchanged(start: Transport, t: Transport) {
    t.http.items == start.http.items && t.http.orders == start.http.orders &&
    t.grpc.items == start.grpc.items && t.grpc.orders == start.grpc.orders &&
    t.ws.items == start.ws.items && t.ws.orders == start.ws.orders
  }

  /** The file is each list in reservation order, or nothing was recorded and it is still the one loaded. */
  ghost predicate Durable(start: Transport, t: Transport) {
    t.disk == Some(t.Output()) || (t.disk == start.disk && Unchanged(start, t))
  }

  /** What was recorded in the session, or has answered, counts as played. */
  ghost predicate Spent<T>(lane: Lane<T>, answers: seq<nat>, first: nat) {
    && Distinct(answers) && (forall o :: o in answers ==> o < first)
    && forall i :: 0 <= i < |lane.orders| && i < |lane.played| && (lane.orders[i] >= first || lane.orders[i] in answers) ==>
         lane.played[i]
  }

  ghost predicate AllSpent(first: nat, t: Transport, answers: Answers) {
    Spent(t.http, answers.http, first) && Spent(t.grpc, answers.grpc, first) && Spent(t.ws, answers.ws, first)
  }

  ghost predicate Invariant(config: Config, start: Transport, s: Session) {
    && Sound(config, s.t) && Accounted(start, s.t, s.calls) && Durable(start, s.t)
    && (config.canRecord ==> AllSpent(start.nextOrder, s.t, s.answers))
  }

  lemma StartInvariant(config: Config, file: Option<File>, discards: bool, index: Index)
    requires IndexSound(config, Loaded(file, discards, index))
    ensures Invariant(config, Loaded(file, discards, index), Start(file, discards, index))
  {
    LoadedSound(config, file, discards, index);
  }

  // --- Asking changes only played flags ---

  lemma TookSound<T>(lane: Lane<T>, choice: Option<nat>, next: nat)
    requires lane.Aligned(next)
    ensures Took(lane, choice).Aligned(next)
  {}

  lemma ChosenIsUnplayed<T>(lane: Lane<T>, matches: nat -> bool)
    ensures var choice := Chosen(lane, matches, true);
            choice.Some? && choice.value < |lane.played| ==> !lane.played[choice.value]
  {
    var candidates := Filter(Iota(|lane.items|), matches);
    assert FirstOutside(candidates, PlayedSet(lane.played)) == Chosen(lane, matches, true);
  }

  lemma AskSpent<T>(lane: Lane<T>, matches: nat -> bool, answers: seq<nat>, first: nat, next: nat, closed: bool)
    requires lane.Aligned(next) && Spent(lane, answers, first)
    ensures var choice := Ask(lane, matches, true, closed);
            Spent(Took(lane, choice), answers + OrderOf(lane, choice), first)
  {
    var choice := Ask(lane, matches, true, closed);
    ChosenIsUnplayed(lane, matches);
    if choice.Some? {
      var i, more := choice.value, answers + OrderOf(lane, choice);
      assert !lane.played[i];
      assert lane.orders[i] < first && lane.orders[i] !in answers;
      assert more == answers + [lane.orders[i]];
      forall j | 0 <= j < |lane.orders| && (lane.orders[j] >= first || lane.orders[j] in more)
        ensures Took(lane, choice).played[j]
      {
        if j != i {
          assert lane.orders[j] != lane.orders[i];
        }
      }
    } else {
      assert answers + OrderOf(lane, choice) == answers;
    }
  }

  /** Two states that differ in played flags only. */
  ghost predicate SameButPlayed(t: Transport, t': Transport) {
    && t'.Orders(Http) == t.Orders(Http) && t'.Orders(Grpc) == t.Orders(Grpc) && t'.Orders(WebSocket) == t.Orders(WebSocket)
    && t'.pending == t.pending && t'.grpcPending == t.grpcPending && t'.wsPending == t.wsPending
    && t'.nextOrder == t.nextOrder && t'.recordErr == t.recordErr
  }

  lemma SameAccounted(start: Transport, t: Transport, t': Transport, calls: map<nat, Call>)
    requires Accounted(start, t, calls) && SameButPlayed(t, t')
    ensures Accounted(start, t', calls)
  {
    assert forall k: Kind :: t'.Pending(k) == t.Pending(k) && t'.Orders(k) == t.Orders(k);
    forall o: nat | o in calls ensures CallFits(t', o, calls[o]) {
      assert CallFits(t, o, calls[o]);
    }
  }

  lemma AskHttpInvariant(config: Config, start: Transport, s: Session, probe: HttpRequest)
    requires Invariant(config, start, s)
    ensures Invariant(config, start, Step(config, s, AskHttp(probe)))
  {
    var matches := HttpAt(config, s.t.http.items, probe);
    TookSound(s.t.http, Ask(s.t.http, matches, config.canRecord, s.t.closed), s.t.nextOrder);
    if config.canRecord {
      AskSpent(s.t.http, matches, s.answers.http, start.nextOrder, s.t.nextOrder, s.t.closed);
    }
    SameAccounted(start, s.t, Step(config, s, AskHttp(probe)).t, s.calls);
  }

  lemma AskGrpcInvariant(config: Config, start: Transport, s: Session, method_: string)
    requires Invariant(config, start, s)
    ensures Invariant(config, start, Step(config, s, AskGrpc(method_)))
  {
    var matches := GrpcAt(s.t.grpc.items, method_);
    TookSound(s.t.grpc, Ask(s.t.grpc, matches, config.canRecord, s.t.closed), s.t.nextOrder);
    if config.canRecord {
      AskSpent(s.t.grpc, matches, s.answers.grpc, start.nextOrder, s.t.nextOrder, s.t.closed);
    }
    SameAccounted(start, s.t, Step(config, s, AskGrpc(method_)).t, s.calls);
  }

  lemma AskWebSocketInvariant(config: Config, start: Transport, s: Session, uri: string)
    requires Invariant(config, start, s)
    ensures Invariant(config, start, Step(config, s, AskWebSocket(uri)))
  {
    var matches := WebSocketAt(config, s.t.ws.items, uri);
    TookSound(s.t.ws, Ask(s.t.ws, matches, config.canRecord, s.t.closed), s.t.nextOrder);
    if config.canRecord {
      AskSpent(s.t.ws, matches, s.answers.ws, start.nextOrder, s.t.nextOrder, s.t.closed);
    }
    SameAccounted(start, s.t, Step(config, s, AskWebSocket(uri)).t, s.calls);
  }

  // --- The other steps concern one order each ---

  /** Nothing but what concerns `order` differs between two states. */
  ghost predicate SameBut(t: Transport, t': Transport, order: nat) {
    && (forall o: nat, k: Kind :: o != order ==>
          (o in t'.Pending(k) <==> o in t.Pending(k)) && (o in t'.Orders(k) <==> o in t.Orders(k)))
    && (t.recordErr != [] ==> t'.recordErr != [])
  }

  lemma AccountOne(start: Transport, t: Transport, calls: map<nat, Call>, t': Transport, order: nat, call: Call)
    requires Accounted(start, t, calls) && SameBut(t, t', order) && CallFits(t', order, call)
    requires start.nextOrder <= order <= t.nextOrder && t'.nextOrder == if order == t.nextOrder then order + 1 else t.nextOrder
    ensures Accounted(start, t', calls[order := call])
  {
    forall o: nat | o in calls && o != order ensures CallFits(t', o, calls[o]) {
      assert CallFits(t, o, calls[o]);
    }
  }

  lemma ReserveFrame(t: Transport, kind: Kind, what: string)
    requires !t.closed
    ensures var (order, t') := Reserve(t, kind, what);
            && order == Some(t.nextOrder) && t'.nextOrder == t.nextOrder + 1 && SameBut(t, t', t.nextOrder)
            && (forall k: Kind :: t'.Orders(k) == t.Orders(k))
            && (forall k: Kind :: t.nextOrder in t'.Pending(k) <==> k == kind || t.nextOrder in t.Pending(k))
  {}

  lemma WithPendingFrame(t: Transport, kind: Kind, waiting: map<nat, string>)
    ensures var t' := t.WithPending(kind, waiting);
            && t'.nextOrder == t.nextOrder && t'.recordErr == t.recordErr
            && forall k: Kind :: t'.Orders(k) == t.Orders(k) && t'.Pending(k) == if k == kind then waiting else t.Pending(k)
  {}

  lemma FinishFrame(t: Transport, kind: Kind, order: nat, error: Option<TransportError>)
    ensures var t' := Finish(t, kind, order, error);
            && t'.nextOrder == t.nextOrder && SameBut(t, t', order) && (error.Some? ==> t'.recordErr != [])
            && (forall k: Kind :: t'.Orders(k) == t.Orders(k))
            && (forall k: Kind :: order in t'.Pending(k) <==> k != kind && order in t.Pending(k))
  {
    var u := t.(recordErr := t.recordErr + if error.Some? then [error.value] else []);
    WithPendingFrame(u, kind, t.Pending(kind) - {order});
    assert forall k: Kind :: u.Orders(k) == t.Orders(k) && u.Pending(k) == t.Pending(k);
  }

  lemma AppendFrame(config: Config, t: Transport, r: Recording, order: nat)
    ensures var t' := Append(config, t, r, order);
            && t'.nextOrder == t.nextOrder && t'.recordErr == t.recordErr
            && forall k: Kind :: t'.Pending(k) == t.Pending(k) && t'.Orders(k) == t.Orders(k) + if k == r.Kind() then [order] else []
  {}

  lemma RecordFrame(config: Config, t: Transport, r: Recording, order: nat, writes: bool)
    ensures var (error, t') := Record(config, t, r, order, writes);
            && t'.nextOrder == t.nextOrder && SameBut(t, t', order)
            && (forall k: Kind :: t'.Pending(k) == t.Pending(k))
            && (forall k: Kind :: order in t'.Orders(k) <==> (k == r.Kind() && error.None?) || order in t.Orders(k))
  {
    AppendFrame(config, t, r, order);
    var u := Append(config, t, r, order);
    var v := u.(disk := Some(u.Output()), saveEmpty := false);
    assert forall k: Kind :: v.Pending(k) == u.Pending(k) && v.Orders(k) == u.Orders(k);
  }

  lemma SameButTrans(t: Transport, u: Transport, v: Transport, order: nat)
    requires SameBut(t, u, order) && SameBut(u, v, order)
    ensures SameBut(t, v, order)
  {}

  lemma ReserveInvariant(config: Config, start: Transport, s: Session, kind: Kind, what: string)
    requires Invariant(config, start, s)
    ensures Invariant(config, start, Step(config, s, ReserveOrder(kind, what)))
  {
    hide Spent;
    ReserveSound(config, s.t, kind, what);
    if !s.t.closed {
      ReserveFrame(s.t, kind, what);
      assert forall k: Kind :: AllBelow(s.t.Pending(k), s.t.nextOrder) && forall o | o in s.t.Orders(k) :: o < s.t.nextOrder;
      AccountOne(start, s.t, s.calls, Reserve(s.t, kind, what).1, s.t.nextOrder, Call(kind, Outstanding, Outstanding));
    }
  }

  lemma FinishAccounted(start: Transport, t: Transport, calls: map<nat, Call>, order: nat, error: Option<TransportError>)
    requires Accounted(start, t, calls) && order in calls && calls[order].finished.Outstanding?
    requires error.None? ==> !calls[order].recorded.Errored?
    ensures var call := calls[order];
            Accounted(start, Finish(t, call.kind, order, error), calls[order := call.(finished := OutcomeOf(error))])
  {
    var call := calls[order];
    assert CallFits(t, order, call);
    FinishFrame(t, call.kind, order, error);
    AccountOne(start, t, calls, Finish(t, call.kind, order, error), order, call.(finished := OutcomeOf(error)));
  }

  lemma FinishInvariant(config: Config, start: Transport, s: Session, order: nat, error: Option<TransportError>)
    requires Invariant(config, start, s) && Enabled(s, FinishCall(order, error))
    ensures Invariant(config, start, Step(config, s, FinishCall(order, error)))
  {
    hide Sound;
    hide Accounted;
    hide Durable;
    hide AllSpent;
    FinishSound(config, s.t, s.calls[order].kind, order, error);
    FinishAccounted(start, s.t, s.calls, order, error);
    FinishLanes(start, s.t, s.calls[order].kind, order, error, s.answers);
  }

  lemma FinishLanes(
      start: Transport, t: Transport, kind: Kind, order: nat, error: Option<TransportError>, answers: Answers)
    ensures Durable(start, t) ==> Durable(start, Finish(t, kind, order, error))
    ensures AllSpent(start.nextOrder, t, answers) ==> AllSpent(start.nextOrder, Finish(t, kind, order, error), answers)
  {
    hide Spent;
  }

  lemma AppendSpent<T>(lane: Lane<T>, item: T, order: nat, answers: seq<nat>, first: nat)
    requires |lane.played| == |lane.orders| && Spent(lane, answers, first)
    ensures Spent(lane.Append(item, order), answers, first)
  {}

  lemma RecordSpent(config: Config, t: Transport, r: Recording, order: nat, writes: bool, answers: Answers, first: nat)
    requires Sound(config, t) && AllSpent(first, t, answers)
    ensures AllSpent(first, Record(config, t, r, order, writes).1, answers)
  {
    match r
    case OfHttp(item) => AppendSpent(t.http, config.scrubHttp(item), order, answers.http, first);
    case OfGrpc(item) => AppendSpent(t.grpc, config.scrubGrpc(item), order, answers.grpc, first);
    case OfWebSocket(item) => AppendSpent(t.ws, config.scrubWs(item), order, answers.ws, first);
  }

  lemma RecordAccounted(config: Config, start: Transport, s: Session, order: nat, r: Recording, writes: bool)
    requires Accounted(start, s.t, s.calls) && Enabled(s, RecordCall(order, r, writes))
    ensures var (error, t) := Recorded(config, s.t, r, order, writes);
            Accounted(start, t, s.calls[order := AfterRecord(s.calls[order], error)])
  {
    var call := s.calls[order];
    var (error, u) := Record(config, s.t, r, order, writes);
    assert CallFits(s.t, order, call);
    RecordFrame(config, s.t, r, order, writes);
    if r.OfHttp? {
      AccountOne(start, s.t, s.calls, u, order, AfterRecord(call, error));
    } else {
      var v := Finish(u, r.Kind(), order, error);
      FinishFrame(u, r.Kind(), order, error);
      SameButTrans(s.t, u, v, order);
      AccountOne(start, s.t, s.calls, v, order, AfterRecord(call, error));
    }
  }

  lemma RecordDurable(config: Config, start: Transport, t: Transport, r: Recording, order: nat, writes: bool)
    requires Durable(start, t)
    ensures Durable(start, Record(config, t, r, order, writes).1)
  {}

  lemma RecordInvariant(config: Config, start: Transport, s: Session, order: nat, r: Recording, writes: bool)
    requires Invariant(config, start, s) && Enabled(s, RecordCall(order, r, writes))
    ensures Invariant(config, start, Step(config, s, RecordCall(order, r, writes)))
  {
    assert CallFits(s.t, order, s.calls[order]);
    var (error, u) := Record(config, s.t, r, order, writes);
    RecordSound(config, s.t, r, order, writes);
    if config.canRecord {
      RecordSpent(config, s.t, r, order, writes, s.answers, start.nextOrder);
    }
    hide Record;
    hide Sound;
    hide Accounted;
    hide Durable;
    hide AllSpent;
    FinishSound(config, u, r.Kind(), order, error);
    RecordDurable(config, start, s.t, r, order, writes);
    RecordAccounted(config, start, s, order, r, writes);
    FinishLanes(start, u, r.Kind(), order, error, s.answers);
  }

  lemma CloseKeeps(config: Config, start: Transport, t: Transport, writes: bool, answers: Answers)
    requires Sound(config, t) && Durable(start, t)
    ensures Sound(config, Close(t, writes).1) && Durable(start, Close(t, writes).1)
    ensures AllSpent(start.nextOrder, t, answers) ==> AllSpent(start.nextOrder, Close(t, writes).1, answers)
  {
    hide Spent;
    if t.saveEmpty {
      assert t.http.Written() == [] && t.grpc.Written() == [] && t.ws.Written() == [];
    }
  }

  lemma CloseInvariant(config: Config, start: Transport, s: Session, writes: bool)
    requires Invariant(config, start, s)
    ensures Invariant(config, start, Step(config, s, CloseTransport(writes)))
  {
    SameAccounted(start, s.t, Close(s.t, writes).1, s.calls);
    hide Sound;
    hide Accounted;
    hide Durable;
    hide AllSpent;
    CloseKeeps(config, start, s.t, writes, s.answers);
  }

  lemma StepInvariant(config: Config, start: Transport, s: Session, ev: Event)
    requires Invariant(config, start, s) && Enabled(s, ev)
    ensures Invariant(config, start, Step(config, s, ev))
  {
    match ev
    case AskHttp(probe) => AskHttpInvariant(config, start, s, probe);
    case AskGrpc(method_) => AskGrpcInvariant(config, start, s, method_);
    case AskWebSocket(uri) => AskWebSocketInvariant(config, start, s, uri);
    case ReserveOrder(kind, what) => ReserveInvariant(config, start, s, kind, what);
    case RecordCall(order, r, writes) => RecordInvariant(config, start, s, order, r, writes);
    case FinishCall(order, error) => FinishInvariant(config, start, s, order, error);
    case CloseTransport(writes) => CloseInvariant(config, start, s, writes);
  }

  lemma {:induction false} RunInvariant(config: Config, start: Transport, s: Session, events: seq<Event>)
    requires Invariant(config, start, s) && RunAll(config, s, events).Some?
    ensures Invariant(config, start, RunAll(config, s, events).value)
    decreases |events|
  {
    if events != [] {
      StepInvariant(config, start, s, events[0]);
      RunInvariant(config, start, Step(config, s, events[0]), events[1..]);
    }
  }

  // --- Main results ---

  /** After any run the lists are aligned, the index is the one a fresh build would make, every order is accounted for,
      and the file holds each list in reservation order once anything was recorded. */
  lemma TransportInvariant(config: Config, file: Option<File>, discards: bool, index: Index, events: seq<Event>)
    requires IndexSound(config, Loaded(file, discards, index))
    requires RunAll(config, Start(file, discards, index), events).Some?
    ensures var start, s := Loaded(file, discards, index), RunAll(config, Start(file, discards, index), events).value;
            && Sound(config, s.t) && Accounted(start, s.t, s.calls)
            && (!Unchanged(start, s.t) ==> s.t.disk == Some(s.t.Output()))
  {
    StartInvariant(config, file, discards, index);
    RunInvariant(config, Loaded(file, discards, index), Start(file, discards, index), events);
  }

  /** While recording, each loaded recording answers at most once and a recording of this session never does. */
  lemma AtMostOnce(config: Config, file: Option<File>, discards: bool, index: Index, events: seq<Event>)
    requires IndexSound(config, Loaded(file, discards, index)) && config.canRecord
    requires RunAll(config, Start(file, discards, index), events).Some?
    ensures var start, s := Loaded(file, discards, index), RunAll(config, Start(file, discards, index), events).value;
            && Distinct(s.answers.http) && Distinct(s.answers.grpc) && Distinct(s.answers.ws)
            && (forall o :: o in s.answers.http || o in s.answers.grpc || o in s.answers.ws ==> o < start.nextOrder)
  {
    StartInvariant(config, file, discards, index);
    RunInvariant(config, Loaded(file, discards, index), Start(file, discards, index), events);
  }

  ghost predicate AllFinishedClean(calls: map<nat, Call>) {
    forall o: nat :: o in calls ==> calls[o].finished.Clean?
  }

  lemma NothingPending(start: Transport, t: Transport, calls: map<nat, Call>, k: Kind)
    requires Accounted(start, t, calls) && AllFinishedClean(calls) && AllBelow(t.Pending(k), t.nextOrder)
    ensures t.Pending(k) == map[]
  {
    forall o: nat ensures o !in t.Pending(k) {
      if o in calls {
        assert CallFits(t, o, calls[o]);
      }
    }
    assert t.Pending(k).Keys == {};
  }

  lemma Concat5<T>(a: seq<T>, b: seq<T>, c: seq<T>, d: seq<T>, e: seq<T>)
    ensures a + b + c + d + e == [] <==> a == [] && b == [] && c == [] && d == [] && e == []
  {}

  lemma CloseEmpty(t: Transport, writes: bool)
    requires AllBelow(t.pending, t.nextOrder) && AllBelow(t.grpcPending, t.nextOrder) && AllBelow(t.wsPending, t.nextOrder)
    requires !t.closed
    ensures Close(t, writes).0 == [] <==>
              t.recordErr == [] && (t.saveEmpty ==> writes) && t.pending == map[] && t.grpcPending == map[] && t.wsPending == map[]
  {
    var empty: seq<TransportError> := if t.saveEmpty && !writes then [WriteFailed] else [];
    Concat5(t.recordErr, IncompleteErrors(Http, t.pending, t.nextOrder), IncompleteErrors(Grpc, t.grpcPending, t.nextOrder),
            IncompleteErrors(WebSocket, t.wsPending, t.nextOrder), empty);
  }

  /** `Close` reports nothing exactly when no error was noted, every call has finished, and an empty save that was due
      succeeds. */
  lemma CloseReports(config: Config, start: Transport, s: Session, writes: bool)
    requires Invariant(config, start, s) && !s.t.closed
    ensures Close(s.t, writes).0 == [] <==>
              s.t.recordErr == [] && (s.t.saveEmpty ==> writes) && AllFinishedClean(s.calls)
  {
    var t := s.t;
    CloseEmpty(t, writes);
    if AllFinishedClean(s.calls) {
      NothingPending(start, t, s.calls, Http);
      NothingPending(start, t, s.calls, Grpc);
      NothingPending(start, t, s.calls, WebSocket);
    }
    if Close(t, writes).0 == [] {
      forall o: nat | o in s.calls ensures s.calls[o].finished.Clean? {
        assert CallFits(t, o, s.calls[o]);
        assert o !in t.Pending(s.calls[o].kind);
      }
    }
  }

  /** Each order handed out belongs to a call that was recorded, or never tried to be. */
  ghost predicate NothingLost(start: Transport, t: Transport, calls: map<nat, Call>) {
    forall o: nat :: start.nextOrder <= o < t.nextOrder ==>
      o in calls && (o in t.Orders(calls[o].kind) <==> !calls[o].recorded.Outstanding?)
  }

  lemma CleanLosesNothing(start: Transport, t: Transport, calls: map<nat, Call>)
    requires Accounted(start, t, calls) && AllFinishedClean(calls)
    ensures NothingLost(start, t, calls)
  {
    forall o: nat | start.nextOrder <= o < t.nextOrder
      ensures o in calls && (o in t.Orders(calls[o].kind) <==> !calls[o].recorded.Outstanding?)
    {
      assert CallFits(t, o, calls[o]);
    }
  }

  lemma CleanCloseStep(config: Config, start: Transport, s: Session, writes: bool)
    requires Invariant(config, start, s) && !s.t.closed && Close(s.t, writes).0 == []
    ensures var t := Step(config, s, CloseTransport(writes)).t;
            t == Close(s.t, writes).1 && NothingLost(start, t, s.calls) && Durable(start, t)
  {
    CloseReports(config, start, s, writes);
    CloseInvariant(config, start, s, writes);
    CleanLosesNothing(start, Step(config, s, CloseTransport(writes)).t, s.calls);
  }

  /** When `Close` reports nothing, no recording was lost and the file is current. */
  lemma CleanClose(config: Config, file: Option<File>, discards: bool, index: Index, events: seq<Event>, writes: bool)
    requires IndexSound(config, Loaded(file, discards, index))
    requires RunAll(config, Start(file, discards, index), events).Some?
    requires var s := RunAll(config, Start(file, discards, index), events).value;
             !s.t.closed && Close(s.t, writes).0 == []
    ensures var s := RunAll(config, Start(file, discards, index), events).value;
            var t := Close(s.t, writes).1;
            NothingLost(Loaded(file, discards, index), t, s.calls) && Durable(Loaded(file, discards, index), t)
  {
    StartInvariant(config, file, discards, index);
    RunInvariant(config, Loaded(file, discards, index), Start(file, discards, index), events);
    CleanCloseStep(config, Loaded(file, discards, index), RunAll(config, Start(file, discards, index), events).value, writes);
  }
}
