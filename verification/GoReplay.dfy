/** What a transport replays from a file another transport has saved. */
module GoReplay {
  import opened GoSessions
  import opened GoState
  import opened MethodUriIndex
  import opened Options
  import opened Replay
  import opened Sorting

  /** How many requests of each protocol were made. */
  datatype Turn = Turn(http: nat, grpc: nat, ws: nat)

  function Next(turn: Turn, ev: Event): Turn {
    match ev
    case AskHttp(_) => turn.(http := turn.http + 1)
    case AskGrpc(_) => turn.(grpc := turn.grpc + 1)
    case AskWebSocket(_) => turn.(ws := turn.ws + 1)
    case _ => turn
  }

  /** The event asks for the recording of its protocol whose turn it is, by a request that matches it. */
  predicate AsksFor(config: Config, file: File, turn: Turn, ev: Event) {
    match ev
    case AskHttp(probe) => HttpAt(config, file.http, probe)(turn.http)
    case AskGrpc(method_) => GrpcAt(file.grpc, method_)(turn.grpc)
    case AskWebSocket(uri) => WebSocketAt(config, file.ws, uri)(turn.ws)
    case _ => false
  }

  /** Each protocol's recordings are asked for one after the other, the protocols interleaved at will. */
  predicate AsksInTurn(config: Config, file: File, turn: Turn, events: seq<Event>)
    decreases |events|
  {
    events == [] ||
    (AsksFor(config, file, turn, events[0]) && AsksInTurn(config, file, Next(turn, events[0]), events[1..]))
  }

  function Final(turn: Turn, events: seq<Event>): Turn
    decreases |events|
  {
    if events == [] then turn else Final(Next(turn, events[0]), events[1..])
  }

  /** A lane as loaded, of which the first `done` recordings were played. */
  ghost predicate PlayedTo<T>(lane: Lane<T>, items: seq<T>, done: nat) {
    && lane.items == items && lane.orders == Iota(|items|) && |lane.played| == |items| && done <= |items|
    && PlayedSet(lane.played) == Below(done)
  }

  lemma AskInTurn<T>(lane: Lane<T>, items: seq<T>, done: nat, matches: nat -> bool, canRecord: bool)
    requires PlayedTo(lane, items, done) && done < |items| && matches(done)
    ensures lane.items == items && Ask(lane, matches, canRecord, false) == Some(done)
    ensures PlayedTo(Took(lane, Some(done)), items, done + 1) && OrderOf(lane, Some(done)) == [done]
  {
    FirstOutsideAt(Iota(|items|), matches, Below(done), done);
  }

  /** Where a fresh transport stands after the requests counted by `turn`. */
  ghost predicate Reached(file: File, turn: Turn, s: Session) {
    && !s.t.closed
    && PlayedTo(s.t.http, file.http, turn.http) && s.answers.http == Iota(turn.http)
    && PlayedTo(s.t.grpc, file.grpc, turn.grpc) && s.answers.grpc == Iota(turn.grpc)
    && PlayedTo(s.t.ws, file.ws, turn.ws) && s.answers.ws == Iota(turn.ws)
  }

  lemma NoneReached(file: File, index: Index)
    ensures Reached(file, Turn(0, 0, 0), Start(Some(file), false, index))
  {}

  lemma IotaNext(n: nat)
    ensures Iota(n + 1) == Iota(n) + [n]
  {}

  lemma StepReached(config: Config, file: File, turn: Turn, s: Session, ev: Event)
    requires Reached(file, turn, s) && AsksFor(config, file, turn, ev)
    ensures Enabled(s, ev) && Reached(file, Next(turn, ev), Step(config, s, ev))
  {
    hide PlayedTo;
    match ev
    case AskHttp(probe) =>
      AskInTurn(s.t.http, file.http, turn.http, HttpAt(config, file.http, probe), config.canRecord);
      IotaNext(turn.http);
    case AskGrpc(method_) =>
      AskInTurn(s.t.grpc, file.grpc, turn.grpc, GrpcAt(file.grpc, method_), config.canRecord);
      IotaNext(turn.grpc);
    case AskWebSocket(uri) =>
      AskInTurn(s.t.ws, file.ws, turn.ws, WebSocketAt(config, file.ws, uri), config.canRecord);
      IotaNext(turn.ws);
  }

  lemma {:induction false} RunReached(config: Config, file: File, turn: Turn, s: Session, events: seq<Event>)
    requires Reached(file, turn, s) && AsksInTurn(config, file, turn, events)
    ensures RunAll(config, s, events).Some?
    ensures Reached(file, Final(turn, events), RunAll(config, s, events).value)
    decreases |events|
  {
    if events != [] {
      StepReached(config, file, turn, s, events[0]);
      RunReached(config, file, Next(turn, events[0]), Step(config, s, events[0]), events[1..]);
    }
  }

  /** A transport that loads a file and is asked for each protocol's recordings in turn answers each request with its own
      recording, for as long as the requests go on, whatever else matches them. */
  lemma ReplaysInTurn(config: Config, file: File, index: Index, events: seq<Event>)
    requires AsksInTurn(config, file, Turn(0, 0, 0), events)
    ensures RunAll(config, Start(Some(file), false, index), events).Some?
    ensures var asked, answers := Final(Turn(0, 0, 0), events),
                                  RunAll(config, Start(Some(file), false, index), events).value.answers;
            answers == Answers(Iota(asked.http), Iota(asked.grpc), Iota(asked.ws))
  {
    NoneReached(file, index);
    RunReached(config, file, Turn(0, 0, 0), Start(Some(file), false, index), events);
  }

  /** A recorded request, as it is compared, asks for its own recording wherever the other matchers accept a request
      against itself. */
  lemma OwnRequestAsks(config: Config, file: File, turn: Turn)
    requires turn.http < |file.http|
    requires var own := config.Matching(file.http[turn.http].request);
             config.otherFields(own, own)
    ensures AsksFor(config, file, turn, AskHttp(config.Matching(file.http[turn.http].request)))
  {}

  /** Record, close cleanly, replay: the file holds what was recorded in reservation order, and a fresh transport over it,
      asked in that order, gives every request its own recording, in each protocol. */
  lemma CleanCloseReplays(
      config: Config, file: Option<File>, discards: bool, index: Index, events: seq<Event>, writes: bool,
      replay: Config, replayIndex: Index, asks: seq<Event>)
    requires IndexSound(config, Loaded(file, discards, index))
    requires RunAll(config, Start(file, discards, index), events).Some?
    requires var s := RunAll(config, Start(file, discards, index), events).value;
             !s.t.closed && Close(s.t, writes).0 == [] && !Unchanged(Loaded(file, discards, index), s.t)
    requires var saved := Close(RunAll(config, Start(file, discards, index), events).value.t, writes).1.disk;
             saved.Some? ==> AsksInTurn(replay, saved.value, Turn(0, 0, 0), asks)
    ensures var t := Close(RunAll(config, Start(file, discards, index), events).value.t, writes).1;
            && t.disk == Some(t.Output())
            && NothingLost(Loaded(file, discards, index), t, RunAll(config, Start(file, discards, index), events).value.calls)
            && var end := RunAll(replay, Start(t.disk, false, replayIndex), asks);
               var asked := Final(Turn(0, 0, 0), asks);
               end.Some? && end.value.answers == Answers(Iota(asked.http), Iota(asked.grpc), Iota(asked.ws))
  {
    CleanClose(config, file, discards, index, events, writes);
    var s := RunAll(config, Start(file, discards, index), events).value;
    var t := Close(s.t, writes).1;
    assert !Unchanged(Loaded(file, discards, index), t);
    ReplaysInTurn(replay, t.disk.value, replayIndex, asks);
  }
}
