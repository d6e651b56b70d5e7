/** What a Go transport's file holds after a run: every recording, as its call handed it in, scrubbed. */
module GoFiles {
  import opened GoReplay
  import opened GoSessions
  import opened GoState
  import opened MethodUriIndex
  import opened Options
  import opened ReservationOrder
  import opened Sorting

  /** The recording stands, scrubbed, under its order among the recordings of its protocol. */
  ghost predicate Stored(config: Config, t: Transport, order: nat, r: Recording) {
    match r
    case OfHttp(item) => Pairs(t.http.items, t.http.orders, config.scrubHttp(item), order)
    case OfGrpc(item) => Pairs(t.grpc.items, t.grpc.orders, config.scrubGrpc(item), order)
    case OfWebSocket(item) => Pairs(t.ws.items, t.ws.orders, config.scrubWs(item), order)
  }

  /** A list begins as it was loaded. */
  ghost predicate Grown<T>(loaded: Lane<T>, lane: Lane<T>) {
    loaded.items <= lane.items && loaded.orders <= lane.orders
  }

  ghost predicate Kept(config: Config, start: Transport, s: Session) {
    && (forall o :: o in s.recorded ==> Stored(config, s.t, o, s.recorded[o]))
    && (forall o: nat :: o in s.calls && s.calls[o].recorded.Clean? ==>
          o in s.recorded && s.recorded[o].Kind() == s.calls[o].kind)
    && Grown(start.http, s.t.http) && Grown(start.grpc, s.t.grpc) && Grown(start.ws, s.t.ws)
  }

  ghost predicate SameLists(t: Transport, t': Transport) {
    && t'.http.items == t.http.items && t'.http.orders == t.http.orders
    && t'.grpc.items == t.grpc.items && t'.grpc.orders == t.grpc.orders
    && t'.ws.items == t.ws.items && t'.ws.orders == t.ws.orders
  }

  lemma SameListsKept(config: Config, start: Transport, s: Session, s': Session)
    requires Kept(config, start, s) && SameLists(s.t, s'.t) && s'.recorded == s.recorded
    requires forall o: nat :: o in s'.calls && s'.calls[o].recorded.Clean? ==>
               o in s.calls && s.calls[o].recorded.Clean? && s.calls[o].kind == s'.calls[o].kind
    ensures Kept(config, start, s')
  {
    forall o | o in s'.recorded ensures Stored(config, s'.t, o, s'.recorded[o]) {
      assert Stored(config, s.t, o, s.recorded[o]);
    }
  }

  lemma AppendPairs<T>(lane: Lane<T>, item: T, order: nat)
    requires lane.SameLength()
    ensures var more := lane.Append(item, order);
            && Grown(lane, more) && Pairs(more.items, more.orders, item, order)
            && forall x, o :: Pairs(lane.items, lane.orders, x, o) ==> Pairs(more.items, more.orders, x, o)
  {
    var more := lane.Append(item, order);
    assert more.orders[|lane.orders|] == order && more.items[|lane.items|] == item;
    forall x, o | Pairs(lane.items, lane.orders, x, o) ensures Pairs(more.items, more.orders, x, o) {
      var i: nat :| i < |lane.orders| && i < |lane.items| && lane.orders[i] == o && lane.items[i] == x;
      assert more.orders[i] == o && more.items[i] == x;
    }
  }

  lemma GrownTrans<T>(a: Lane<T>, b: Lane<T>, c: Lane<T>)
    requires Grown(a, b) && Grown(b, c)
    ensures Grown(a, c)
  {}

  lemma GrownSame<T>(a: Lane<T>)
    ensures Grown(a, a)
  {}

  /** A recording stores its interaction and keeps what was stored. */
  lemma AppendStores(config: Config, t: Transport, r: Recording, order: nat)
    requires t.SameLengths()
    ensures var u := Append(config, t, r, order);
            && Stored(config, u, order, r)
            && (forall o, x :: Stored(config, t, o, x) ==> Stored(config, u, o, x))
            && Grown(t.http, u.http) && Grown(t.grpc, u.grpc) && Grown(t.ws, u.ws)
  {
    GrownSame(t.http);
    GrownSame(t.grpc);
    GrownSame(t.ws);
    match r
    case OfHttp(item) => AppendPairs(t.http, config.scrubHttp(item), order);
    case OfGrpc(item) => AppendPairs(t.grpc, config.scrubGrpc(item), order);
    case OfWebSocket(item) => AppendPairs(t.ws, config.scrubWs(item), order);
  }

  lemma FinishSameLists(t: Transport, kind: Kind, order: nat, error: Option<TransportError>)
    ensures SameLists(t, Finish(t, kind, order, error))
  {}

  lemma RecordKept(config: Config, start: Transport, s: Session, order: nat, r: Recording, writes: bool)
    requires Kept(config, start, s) && s.t.SameLengths() && Enabled(s, RecordCall(order, r, writes))
    ensures Kept(config, start, Step(config, s, RecordCall(order, r, writes)))
  {
    var s' := Step(config, s, RecordCall(order, r, writes));
    var (error, u) := Record(config, s.t, r, order, writes);
    FinishSameLists(u, r.Kind(), order, error);
    if error.Some? {
      SameListsKept(config, start, s, s');
    } else {
      AppendStores(config, s.t, r, order);
      var v := Append(config, s.t, r, order);
      assert SameLists(v, s'.t);
      forall o | o in s'.recorded ensures Stored(config, s'.t, o, s'.recorded[o]) {
        assert o != order ==> Stored(config, s.t, o, s.recorded[o]);
        assert Stored(config, v, o, s'.recorded[o]);
      }
      GrownTrans(start.http, s.t.http, v.http);
      GrownTrans(start.grpc, s.t.grpc, v.grpc);
      GrownTrans(start.ws, s.t.ws, v.ws);
    }
  }

  lemma StepKept(config: Config, start: Transport, s: Session, ev: Event)
    requires Kept(config, start, s) && s.t.SameLengths() && Enabled(s, ev)
    ensures Kept(config, start, Step(config, s, ev))
  {
    match ev
    case RecordCall(order, r, writes) => RecordKept(config, start, s, order, r, writes);
    case _ =>
      OthersRecordNothing(config, s, ev);
      hide Kept;
      hide Step;
      SameListsKept(config, start, s, Step(config, s, ev));
  }

  lemma OthersRecordNothing(config: Config, s: Session, ev: Event)
    requires Enabled(s, ev) && !ev.RecordCall?
    ensures var s' := Step(config, s, ev);
            && SameLists(s.t, s'.t) && s'.recorded == s.recorded
            && forall o: nat :: o in s'.calls && s'.calls[o].recorded.Clean? ==>
                 o in s.calls && s.calls[o].recorded.Clean? && s.calls[o].kind == s'.calls[o].kind
  {
    hide Ask;
    hide Reserve;
    hide Finish;
    hide Close;
    match ev
    case ReserveOrder(kind, what) => ReserveSameLists(s.t, kind, what);
    case FinishCall(order, error) => FinishSameLists(s.t, s.calls[order].kind, order, error);
    case CloseTransport(writes) => CloseSameLists(s.t, writes);
    case _ =>
  }

  lemma ReserveSameLists(t: Transport, kind: Kind, what: string)
    ensures SameLists(t, Reserve(t, kind, what).1)
  {}

  lemma CloseSameLists(t: Transport, writes: bool)
    ensures SameLists(t, Close(t, writes).1)
  {}

  lemma {:induction false} RunKept(config: Config, start: Transport, s: Session, events: seq<Event>)
    requires Kept(config, start, s) && Invariant(config, start, s) && RunAll(config, s, events).Some?
    ensures Kept(config, start, RunAll(config, s, events).value)
    decreases |events|
  {
    if events != [] {
      StepKept(config, start, s, events[0]);
      StepInvariant(config, start, s, events[0]);
      RunKept(config, start, Step(config, s, events[0]), events[1..]);
    }
  }

  /** In every run the lists begin as loaded, and each cleanly recorded call's recording stands, scrubbed, under its order. */
  lemma RecordingsKept(config: Config, file: Option<File>, discards: bool, index: Index, events: seq<Event>)
    requires IndexSound(config, Loaded(file, discards, index))
    requires RunAll(config, Start(file, discards, index), events).Some?
    ensures var s := RunAll(config, Start(file, discards, index), events).value;
            && (forall o: nat :: o in s.calls && s.calls[o].recorded.Clean? ==>
                  o in s.recorded && s.recorded[o].Kind() == s.calls[o].kind && Stored(config, s.t, o, s.recorded[o]))
            && Kept(config, Loaded(file, discards, index), s)
  {
    var start := Loaded(file, discards, index);
    StartInvariant(config, file, discards, index);
    GrownSame(start.http);
    GrownSame(start.grpc);
    GrownSame(start.ws);
    RunKept(config, start, Start(file, discards, index), events);
  }

  // --- Closing ---

  ghost predicate NoneTried(calls: map<nat, Call>) {
    forall o: nat :: o in calls ==> calls[o].recorded.Outstanding?
  }

  /** An empty save stays due until a call tries to record, and until then the file is as it was found. */
  ghost predicate Waiting(start: Transport, s: Session) {
    !s.t.closed ==> (s.t.saveEmpty <==> start.saveEmpty && NoneTried(s.calls)) && (NoneTried(s.calls) ==> s.t.disk == start.disk)
  }

  lemma RecordCallTries(config: Config, s: Session, order: nat, r: Recording, writes: bool)
    requires Enabled(s, RecordCall(order, r, writes)) && !s.t.closed
    ensures var s' := Step(config, s, RecordCall(order, r, writes));
            !s'.t.saveEmpty && !NoneTried(s'.calls)
  {
    hide Append;
    var s' := Step(config, s, RecordCall(order, r, writes));
    assert order in s'.calls && !s'.calls[order].recorded.Outstanding?;
  }

  ghost predicate SameFile(t: Transport, t': Transport) {
    t'.closed == t.closed && t'.closeErr == t.closeErr && t'.saveEmpty == t.saveEmpty && t'.disk == t.disk
  }

  lemma ReserveSameFile(t: Transport, kind: Kind, what: string)
    ensures SameFile(t, Reserve(t, kind, what).1)
  {}

  lemma FinishSameFile(t: Transport, kind: Kind, order: nat, error: Option<TransportError>)
    ensures SameFile(t, Finish(t, kind, order, error)) && Finish(t, kind, order, error).nextOrder == t.nextOrder
  {}

  lemma ReserveTries(calls: map<nat, Call>, order: nat, kind: Kind)
    requires order !in calls
    ensures NoneTried(calls[order := Call(kind, Outstanding, Outstanding)]) <==> NoneTried(calls)
  {
    var more := calls[order := Call(kind, Outstanding, Outstanding)];
    assert forall o: nat :: o in calls ==> o in more && more[o] == calls[o];
  }

  lemma FinishTries(calls: map<nat, Call>, order: nat, outcome: Outcome)
    requires order in calls
    ensures NoneTried(calls[order := calls[order].(finished := outcome)]) <==> NoneTried(calls)
  {
    var more := calls[order := calls[order].(finished := outcome)];
    assert forall o: nat :: o in calls ==> o in more && more[o].recorded == calls[o].recorded;
  }

  lemma StepWaiting(config: Config, start: Transport, s: Session, ev: Event)
    requires Waiting(start, s) && Enabled(s, ev) && s.t.nextOrder !in s.calls
    ensures Waiting(start, Step(config, s, ev))
  {
    hide Ask;
    hide Recorded;
    hide CloseErrors;
    hide Took;
    hide OrderOf;
    hide Reserve;
    hide Finish;
    hide NoneTried;
    match ev
    case RecordCall(order, r, writes) =>
      if s.t.closed {
        RecordClosed(config, s.t, r, order, writes);
        FinishSameFile(s.t, r.Kind(), order, Some(TransportClosed));
      } else {
        RecordCallTries(config, s, order, r, writes);
      }
    case ReserveOrder(kind, what) =>
      ReserveSameFile(s.t, kind, what);
      ReserveOrderIs(s.t, kind, what);
      ReserveTries(s.calls, s.t.nextOrder, kind);
    case FinishCall(order, error) =>
      FinishSameFile(s.t, s.calls[order].kind, order, error);
      FinishTries(s.calls, order, OutcomeOf(error));
    case _ =>
  }

  lemma {:induction false} RunWaiting(config: Config, start: Transport, s: Session, events: seq<Event>)
    requires Waiting(start, s) && Invariant(config, start, s) && RunAll(config, s, events).Some?
    ensures Waiting(start, RunAll(config, s, events).value)
    decreases |events|
  {
    if events != [] {
      assert s.t.nextOrder !in s.calls;
      StepWaiting(config, start, s, events[0]);
      StepInvariant(config, start, s, events[0]);
      RunWaiting(config, start, Step(config, s, events[0]), events[1..]);
    }
  }

  /** A file to be discarded is emptied on closing if no call tried to record; otherwise closing leaves the file alone, and
      while no call has tried it is the one that was found. */
  lemma EmptySaveDue(config: Config, file: Option<File>, discards: bool, index: Index, events: seq<Event>, writes: bool)
    requires IndexSound(config, Loaded(file, discards, index))
    requires RunAll(config, Start(file, discards, index), events).Some?
    ensures var s := RunAll(config, Start(file, discards, index), events).value;
            !s.t.closed ==>
              && Close(s.t, writes).1.disk == (
                   if file.Some? && discards && NoneTried(s.calls) && writes then Some(File([], [], [])) else s.t.disk)
              && (NoneTried(s.calls) ==> s.t.disk == file)
  {
    StartInvariant(config, file, discards, index);
    RunInvariant(config, Loaded(file, discards, index), Start(file, discards, index), events);
    RunWaiting(config, Loaded(file, discards, index), Start(file, discards, index), events);
  }

  lemma RecordClosed(config: Config, t: Transport, r: Recording, order: nat, writes: bool)
    requires t.closed
    ensures Recorded(config, t, r, order, writes) ==
            (Some(TransportClosed), if r.OfHttp? then t else Finish(t, r.Kind(), order, Some(TransportClosed)))
  {
    hide Append;
    hide Finish;
  }

  lemma ReserveOrderIs(t: Transport, kind: Kind, what: string)
    ensures Reserve(t, kind, what).0 == if t.closed then None else Some(t.nextOrder)
    ensures t.closed ==> Reserve(t, kind, what).1 == t
  {}

  /** Once closed a transport answers, reserves and records nothing more, and its first answer stays. */
  lemma ClosedStays(config: Config, s: Session, ev: Event)
    requires s.t.closed && Enabled(s, ev)
    ensures var s' := Step(config, s, ev);
            && SameLists(s.t, s'.t) && SameFile(s.t, s'.t) && s'.t.nextOrder == s.t.nextOrder
            && s'.answers == s.answers && s'.recorded == s.recorded
    ensures forall writes :: Close(s.t, writes) == (s.t.closeErr, s.t)
  {
    hide Recorded;
    hide CloseErrors;
    hide Chosen;
    hide Reserve;
    hide Finish;
    match ev
    case RecordCall(order, r, writes) =>
      RecordClosed(config, s.t, r, order, writes);
      FinishSameFile(s.t, r.Kind(), order, Some(TransportClosed));
      FinishSameLists(s.t, r.Kind(), order, Some(TransportClosed));
    case ReserveOrder(kind, what) => ReserveOrderIs(s.t, kind, what);
    case FinishCall(order, error) =>
      FinishSameFile(s.t, s.calls[order].kind, order, error);
      FinishSameLists(s.t, s.calls[order].kind, order, error);
    case _ =>
  }

  /** Closing closes, and closing again changes nothing and gives the first answer. */
  lemma CloseRepeats(t: Transport, writes: bool, again: bool)
    ensures Close(t, writes).1.closed && Close(Close(t, writes).1, again) == Close(t, writes)
  {
    hide CloseErrors;
  }

  // --- The file after a clean close ---

  /** The orders in which a protocol's recordings stand in the file. */
  ghost predicate Ranks(file: int, orders: seq<nat>, sorted: seq<nat>) {
    Increasing(sorted) && |sorted| == file && forall o :: o in sorted <==> o in orders
  }

  lemma {:induction false} LoadedFirst(sorted: seq<nat>, n: nat, k: nat)
    requires Increasing(sorted) && (forall o: nat | o < n :: o in sorted) && k < n
    ensures k < |sorted| && sorted[k] == k
    decreases k
  {
    if k > 0 {
      LoadedFirst(sorted, n, k - 1);
      assert k in sorted;
      var p :| 0 <= p < |sorted| && sorted[p] == k;
      assert p > k - 1;
      AtLeast(sorted, p);
    } else {
      var zero: nat := 0;
      assert zero in sorted;
      var p :| 0 <= p < |sorted| && sorted[p] == zero;
      AtLeast(sorted, p);
    }
  }

  lemma {:induction false} AtLeast(sorted: seq<nat>, p: nat)
    requires Increasing(sorted) && p < |sorted|
    ensures sorted[p] >= p
  {
    if p > 0 {
      AtLeast(sorted, p - 1);
    }
  }

  /** The written list: recordings by rank of their orders, what was loaded first. */
  lemma WrittenByRank<T>(loaded: Lane<T>, lane: Lane<T>)
    requires lane.SameLength() && Distinct(lane.orders) && loaded == LoadedLane(loaded.items) && Grown(loaded, lane)
    ensures Ranks(|lane.Written()|, lane.orders, Ordered(lane.orders, lane.orders))
    ensures forall k: nat :: k < |lane.items| ==>
              Pairs(lane.items, lane.orders, lane.Written()[k], Ordered(lane.orders, lane.orders)[k])
    ensures loaded.items <= lane.Written()
  {
    var sorted := Ordered(lane.orders, lane.orders);
    OrderedIncreases(lane.orders);
    forall k: nat | k < |lane.items| ensures Pairs(lane.items, lane.orders, lane.Written()[k], sorted[k]) {
      OrderedPairs(lane.items, lane.orders, k);
    }
    forall k: nat | k < |loaded.items| ensures k in sorted {
      assert loaded.orders[k] == k == lane.orders[k];
    }
    forall k: nat | k < |loaded.items| ensures lane.Written()[k] == loaded.items[k] {
      LoadedFirst(sorted, |loaded.items|, k);
      assert lane.orders[k] == loaded.orders[k] == k && lane.items[k] == loaded.items[k];
      assert Pairs(lane.items, lane.orders, lane.items[k], k);
      OnePairEach(lane.items, lane.orders, lane.Written()[k], lane.items[k], k);
    }
  }

  /** In the file `items`, whose entries were reserved under the orders `sorted`, the entry of `order` is `item`. */
  ghost predicate StandsAt<T>(items: seq<T>, sorted: seq<nat>, item: T, order: nat, k: nat) {
    k < |items| && k < |sorted| && sorted[k] == order && items[k] == item
  }

  lemma RankOf<T>(lane: Lane<T>, item: T, order: nat) returns (k: nat)
    requires lane.SameLength() && Distinct(lane.orders) && Pairs(lane.items, lane.orders, item, order)
    ensures StandsAt(lane.Written(), Ordered(lane.orders, lane.orders), item, order, k)
  {
    var sorted := Ordered(lane.orders, lane.orders);
    OrderedIncreases(lane.orders);
    assert order in lane.orders && order in sorted;
    k :| 0 <= k < |sorted| && sorted[k] == order;
    OrderedPairs(lane.items, lane.orders, k);
    OnePairEach(lane.items, lane.orders, lane.Written()[k], item, order);
  }

  /** Where a recording stands in a file whose entries were reserved under the given orders. */
  ghost predicate StandsIn(
      config: Config, f: File, http: seq<nat>, grpc: seq<nat>, ws: seq<nat>, order: nat, r: Recording, k: nat)
  {
    match r
    case OfHttp(item) => StandsAt(f.http, http, config.scrubHttp(item), order, k)
    case OfGrpc(item) => StandsAt(f.grpc, grpc, config.scrubGrpc(item), order, k)
    case OfWebSocket(item) => StandsAt(f.ws, ws, config.scrubWs(item), order, k)
  }

  /** A session that recorded something and closed without an error. */
  ghost predicate ClosedClean(config: Config, start: Transport, s: Session, writes: bool) {
    !s.t.closed && Close(s.t, writes).0 == [] && !Unchanged(start, s.t)
  }

  lemma FileIsOutput(config: Config, start: Transport, s: Session, writes: bool)
    requires Invariant(config, start, s) && ClosedClean(config, start, s, writes)
    ensures Close(s.t, writes).1.disk == Some(s.t.Output())
  {
    CleanCloseStep(config, start, s, writes);
    assert !Unchanged(start, Close(s.t, writes).1);
  }

  /** After a clean close the file holds what was loaded, first and as it was, and then every recording the session's
      calls handed in, scrubbed, in the order the calls were reserved. */
  lemma FileHoldsCalls(
      config: Config, file: Option<File>, discards: bool, index: Index, events: seq<Event>, writes: bool)
      returns (http: seq<nat>, grpc: seq<nat>, ws: seq<nat>)
    requires IndexSound(config, Loaded(file, discards, index))
    requires RunAll(config, Start(file, discards, index), events).Some?
    requires ClosedClean(config, Loaded(file, discards, index), RunAll(config, Start(file, discards, index), events).value, writes)
    ensures var s := RunAll(config, Start(file, discards, index), events).value;
            var saved := Close(s.t, writes).1.disk;
            var kept := if file.Some? && !discards then file.value else File([], [], []);
            && saved.Some?
            && Ranks(|saved.value.http|, s.t.http.orders, http) && Ranks(|saved.value.grpc|, s.t.grpc.orders, grpc)
            && Ranks(|saved.value.ws|, s.t.ws.orders, ws)
            && kept.http <= saved.value.http && kept.grpc <= saved.value.grpc && kept.ws <= saved.value.ws
            && forall o: nat :: o in s.calls && s.calls[o].recorded.Clean? ==>
                 o in s.recorded && exists k: nat :: StandsIn(config, saved.value, http, grpc, ws, o, s.recorded[o], k)
  {
    var start, s := Loaded(file, discards, index), RunAll(config, Start(file, discards, index), events).value;
    StartInvariant(config, file, discards, index);
    RunInvariant(config, start, Start(file, discards, index), events);
    RecordingsKept(config, file, discards, index, events);
    FileIsOutput(config, start, s, writes);
    WrittenByRank(start.http, s.t.http);
    WrittenByRank(start.grpc, s.t.grpc);
    WrittenByRank(start.ws, s.t.ws);
    http, grpc, ws := Ordered(s.t.http.orders, s.t.http.orders), Ordered(s.t.grpc.orders, s.t.grpc.orders), Ordered(s.t.ws.orders, s.t.ws.orders);
    forall o: nat | o in s.calls && s.calls[o].recorded.Clean?
      ensures o in s.recorded && exists k: nat :: StandsIn(config, s.t.Output(), http, grpc, ws, o, s.recorded[o], k)
    {
      var k := StoredRank(config, s.t, o, s.recorded[o]);
    }
  }

  lemma StoredRank(config: Config, t: Transport, order: nat, r: Recording) returns (k: nat)
    requires Sound(config, t) && Stored(config, t, order, r)
    ensures StandsIn(config, t.Output(), Ordered(t.http.orders, t.http.orders), Ordered(t.grpc.orders, t.grpc.orders),
                     Ordered(t.ws.orders, t.ws.orders), order, r, k)
  {
    match r
    case OfHttp(item) => k := RankOf(t.http, config.scrubHttp(item), order);
    case OfGrpc(item) => k := RankOf(t.grpc, config.scrubGrpc(item), order);
    case OfWebSocket(item) => k := RankOf(t.ws, config.scrubWs(item), order);
  }

  /** How many requests of the recording's protocol were made, and which recordings answered them. */
  function AskedOf(r: Recording, turn: Turn): nat {
    match r case OfHttp(_) => turn.http case OfGrpc(_) => turn.grpc case OfWebSocket(_) => turn.ws
  }

  function AnsweredOf(r: Recording, answers: Answers): seq<nat> {
    match r case OfHttp(_) => answers.http case OfGrpc(_) => answers.grpc case OfWebSocket(_) => answers.ws
  }

  /** Every call's request, asked of a fresh transport over the file when its turn comes, is answered by the entry that
      holds the call's own recording, scrubbed. */
  lemma CallsReplay(
      config: Config, file: Option<File>, discards: bool, index: Index, events: seq<Event>, writes: bool,
      replay: Config, replayIndex: Index, asks: seq<GoSessions.Event>)
      returns (http: seq<nat>, grpc: seq<nat>, ws: seq<nat>)
    requires IndexSound(config, Loaded(file, discards, index))
    requires RunAll(config, Start(file, discards, index), events).Some?
    requires ClosedClean(config, Loaded(file, discards, index), RunAll(config, Start(file, discards, index), events).value, writes)
    requires var saved := Close(RunAll(config, Start(file, discards, index), events).value.t, writes).1.disk;
             saved.Some? ==> AsksInTurn(replay, saved.value, Turn(0, 0, 0), asks)
    ensures var s := RunAll(config, Start(file, discards, index), events).value;
            var saved := Close(s.t, writes).1.disk;
            && saved.Some? && RunAll(replay, Start(saved, false, replayIndex), asks).Some?
            && var asked, answers := Final(Turn(0, 0, 0), asks), RunAll(replay, Start(saved, false, replayIndex), asks).value.answers;
               forall o: nat :: o in s.calls && s.calls[o].recorded.Clean? ==>
                 o in s.recorded && exists k: nat ::
                   && StandsIn(config, saved.value, http, grpc, ws, o, s.recorded[o], k)
                   && (k < AskedOf(s.recorded[o], asked) ==>
                         k < |AnsweredOf(s.recorded[o], answers)| && AnsweredOf(s.recorded[o], answers)[k] == k)
  {
    http, grpc, ws := FileHoldsCalls(config, file, discards, index, events, writes);
    var s := RunAll(config, Start(file, discards, index), events).value;
    var saved := Close(s.t, writes).1.disk;
    ReplaysInTurn(replay, saved.value, replayIndex, asks);
    var asked, answers := Final(Turn(0, 0, 0), asks), RunAll(replay, Start(saved, false, replayIndex), asks).value.answers;
    forall o: nat | o in s.calls && s.calls[o].recorded.Clean?
      ensures o in s.recorded && exists k: nat ::
                && StandsIn(config, saved.value, http, grpc, ws, o, s.recorded[o], k)
                && (k < AskedOf(s.recorded[o], asked) ==>
                      k < |AnsweredOf(s.recorded[o], answers)| && AnsweredOf(s.recorded[o], answers)[k] == k)
    {
      var k: nat :| StandsIn(config, saved.value, http, grpc, ws, o, s.recorded[o], k);
      assert k < AskedOf(s.recorded[o], asked) ==>
             k < |AnsweredOf(s.recorded[o], answers)| && AnsweredOf(s.recorded[o], answers)[k] == k;
    }
  }
}
