/** The transport's methods, one per critical section. */
module GoModel {
  import opened CassetteModel
  import opened GoState
  import opened Matching
  import opened MethodUriIndex
  import opened Options
  import opened Protocol
  import opened Replay
  import opened ReservationOrder
  import opened Sorting

  lemma SortedPending(orders: seq<nat>, pending: map<nat, string>, next: nat)
    requires Distinct(orders) && AllBelow(pending, next) && forall o :: o in orders <==> o in pending
    ensures StableSort(orders, (a, b) => a <= b) == Filter(Iota(next), o => o in pending)
  {
    var le := (a: nat, b: nat) => a <= b;
    SortSorts(orders, le);
    SortElements(orders, le);
    SortDistinct(orders, le);
    var listed := o => o in pending;
    FilterSorted(Iota(next), le, listed);
    FilterDistinct(Iota(next), listed);
    assert forall o | o in pending :: Iota(next)[o] == o;
    SortedUnique(StableSort(orders, le), Filter(Iota(next), listed), le);
  }

  /** Collects the pending orders as the map yields them, sorts them, and reports each. */
  method ReportIncomplete(kind: Kind, pending: map<nat, string>, ghost next: nat) returns (errors: seq<TransportError>)
    requires AllBelow(pending, next)
    ensures errors == IncompleteErrors(kind, pending, next)
  {
    var orders: seq<nat> := [];
    var rest := pending.Keys;
    while rest != {}
      invariant Distinct(orders) && rest <= pending.Keys
      invariant forall o :: o in orders <==> o in pending.Keys - rest
      decreases rest
    {
      var order :| order in rest;
      assert order !in orders;
      orders := orders + [order];
      rest := rest - {order};
    }
    SortedPending(orders, pending, next);
    orders := StableSort(orders, (a, b) => a <= b);
    errors := [];
    for i := 0 to |orders|
      invariant errors == Map(Unfinished(kind, pending), orders[..i])
    {
      errors := errors + [Incomplete(kind, if orders[i] in pending then pending[orders[i]] else "")];
    }
    assert orders[..|orders|] == orders;
  }

  /** The recordings that can answer: same method in any letter case and same normalized URI where these are matched on,
      and whatever the other matchers ask. */
  ghost function AnsweringHttp(config: Config, items: seq<HttpInteraction>, request: HttpRequest): nat -> bool {
    (i: nat) =>
      && i < |items|
      && (config.matchMethod ==> EqIgnoreAsciiCase(request.method_, items[i].request.method_))
      && (config.matchUri ==> request.uri == config.normalizeUri(items[i].request.uri))
      && config.otherFields(
           request,
           if config.matchUri then items[i].request.(uri := config.normalizeUri(items[i].request.uri)) else items[i].request)
  }

  /** The same gRPC method. */
  ghost function AnsweringGrpc(items: seq<GrpcInteraction>, method_: string): nat -> bool {
    (i: nat) => i < |items| && items[i].request.method_ == method_
  }

  /** The same URI once both are normalized. */
  ghost function AnsweringWebSocket(config: Config, items: seq<WsInteraction>, uri: string): nat -> bool {
    (i: nat) => i < |items| && config.webSocketUri(items[i].uri) == config.webSocketUri(uri)
  }

  lemma HttpChosen(config: Config, lane: Lane<HttpInteraction>, request: HttpRequest)
    ensures Earliest(|lane.items|, AnsweringHttp(config, lane.items, request), lane.played, !config.canRecord,
                     Chosen(lane, HttpAt(config, lane.items, request), config.canRecord))
  {
    ChosenIs(lane, HttpAt(config, lane.items, request), AnsweringHttp(config, lane.items, request), config.canRecord);
  }

  lemma GrpcChosen(lane: Lane<GrpcInteraction>, method_: string, canRecord: bool)
    ensures Earliest(|lane.items|, AnsweringGrpc(lane.items, method_), lane.played, !canRecord,
                     Chosen(lane, GrpcAt(lane.items, method_), canRecord))
  {
    ChosenIs(lane, GrpcAt(lane.items, method_), AnsweringGrpc(lane.items, method_), canRecord);
  }

  lemma WebSocketChosen(config: Config, lane: Lane<WsInteraction>, uri: string)
    ensures Earliest(|lane.items|, AnsweringWebSocket(config, lane.items, uri), lane.played, !config.canRecord,
                     Chosen(lane, WebSocketAt(config, lane.items, uri), config.canRecord))
  {
    ChosenIs(lane, WebSocketAt(config, lane.items, uri), AnsweringWebSocket(config, lane.items, uri), config.canRecord);
  }

  class GoTransport {
    const config: Config
    var interactions: seq<HttpInteraction>
    var grpcInteractions: seq<GrpcInteraction>
    var wsInteractions: seq<WsInteraction>
    var played: seq<bool>
    var grpcPlayed: seq<bool>
    var wsPlayed: seq<bool>
    var orders: seq<nat>
    var grpcOrders: seq<nat>
    var wsOrders: seq<nat>
    var index: Index
    var nextOrder: nat
    var pending: map<nat, string>
    var grpcPending: map<nat, string>
    var wsPending: map<nat, string>
    var recordErr: seq<TransportError>
    var saveEmpty: bool
    var closed: bool
    var closeErr: seq<TransportError>
    var disk: Option<File>

    ghost function View(): Transport
      reads this
    {
      Transport(
        Lane(interactions, played, orders), Lane(grpcInteractions, grpcPlayed, grpcOrders),
        Lane(wsInteractions, wsPlayed, wsOrders), index, nextOrder, pending, grpcPending, wsPending,
        recordErr, saveEmpty, closed, closeErr, disk)
    }

    ghost predicate Valid()
      reads this
    {
      Sound(config, View())
    }

    /** `load`: recordings keep their position in the file as order, and the index is built once. */
    constructor Load(config: Config, file: Option<File>, discards: bool)
      ensures this.config == config && Valid() && View() == Loaded(file, discards, index)
    {
      var kept := if file.Some? && !discards then file.value else EMPTY_FILE;
      var built: Index := map[];
      if config.UsesIndex() {
        built := Build(config.Keys(kept.http));
      }
      LoadedSound(config, file, discards, built);
      this.config := config;
      interactions, grpcInteractions, wsInteractions := kept.http, kept.grpc, kept.ws;
      played, grpcPlayed, wsPlayed :=
        seq(|kept.http|, _ => false), seq(|kept.grpc|, _ => false), seq(|kept.ws|, _ => false);
      orders, grpcOrders, wsOrders := Iota(|kept.http|), Iota(|kept.grpc|), Iota(|kept.ws|);
      index := built;
      nextOrder := |kept.http| + |kept.grpc| + |kept.ws|;
      pending, grpcPending, wsPending := map[], map[], map[];
      recordErr, closeErr := [], [];
      saveEmpty, closed := file.Some? && discards, false;
      disk := file;
    }

    method TakeMatch(request: HttpRequest)
      returns (taken: Option<HttpInteraction>, refused: bool, ghost chosen: Option<nat>)
      requires Valid()
      modifies this`played
      ensures Valid() && refused == closed
      ensures if closed then chosen == None
              else Earliest(|interactions|, AnsweringHttp(config, interactions, request), old(played), !config.canRecord, chosen)
      ensures taken == if chosen.Some? && chosen.value < |interactions| then Some(interactions[chosen.value]) else None
      ensures played == SetPlayed(old(played), chosen)
      ensures var lane := old(View()).http;
              var choice := if closed then None else Chosen(lane, HttpAt(config, interactions, request), config.canRecord);
              View() == old(View()).(http := Took(lane, choice)) && taken == Item(interactions, choice)
    {
      hide Filter;
      hide Choose;
      if closed {
        return None, true, None;
      }
      var candidates := Iota(|interactions|);
      if config.UsesIndex() {
        candidates := Lookup(index, IndexKey(request, config.upper));
        IndexedChoice(config, View(), request);
      }
      var choice := Pick(candidates, played, !config.canRecord, HttpAt(config, interactions, request));
      ghost var scanned := Chosen(View().http, HttpAt(config, interactions, request), config.canRecord);
      assert choice == scanned;
      HttpChosen(config, View().http, request);
      hide Earliest;
      hide AnsweringHttp;
      if choice.None? {
        return None, false, None;
      }
      played := SetPlayed(played, choice);
      return Some(interactions[choice.value]), false, choice;
    }

    method TakeGrpcMatch(method_: string)
      returns (taken: Option<GrpcInteraction>, refused: bool, ghost chosen: Option<nat>)
      requires Valid()
      modifies this`grpcPlayed
      ensures Valid() && refused == closed
      ensures if closed then chosen == None
              else Earliest(|grpcInteractions|, AnsweringGrpc(grpcInteractions, method_), old(grpcPlayed), !config.canRecord, chosen)
      ensures taken == if chosen.Some? && chosen.value < |grpcInteractions| then Some(grpcInteractions[chosen.value]) else None
      ensures grpcPlayed == SetPlayed(old(grpcPlayed), chosen)
      ensures var lane := old(View()).grpc;
              var choice := if closed then None else Chosen(lane, GrpcAt(grpcInteractions, method_), config.canRecord);
              View() == old(View()).(grpc := Took(lane, choice)) && taken == Item(grpcInteractions, choice)
    {
      if closed {
        return None, true, None;
      }
      var choice := Pick(Iota(|grpcInteractions|), grpcPlayed, !config.canRecord, GrpcAt(grpcInteractions, method_));
      ghost var scanned := Chosen(View().grpc, GrpcAt(grpcInteractions, method_), config.canRecord);
      assert choice == scanned;
      GrpcChosen(View().grpc, method_, config.canRecord);
      if choice.None? {
        return None, false, None;
      }
      grpcPlayed := SetPlayed(grpcPlayed, choice);
      return Some(grpcInteractions[choice.value]), false, choice;
    }

    method TakeWebSocketMatch(uri: string)
      returns (taken: Option<WsInteraction>, refused: bool, ghost chosen: Option<nat>)
      requires Valid()
      modifies this`wsPlayed
      ensures Valid() && refused == closed
      ensures if closed then chosen == None
              else Earliest(|wsInteractions|, AnsweringWebSocket(config, wsInteractions, uri), old(wsPlayed), !config.canRecord, chosen)
      ensures taken == if chosen.Some? && chosen.value < |wsInteractions| then Some(wsInteractions[chosen.value]) else None
      ensures wsPlayed == SetPlayed(old(wsPlayed), chosen)
      ensures var lane := old(View()).ws;
              var choice := if closed then None else Chosen(lane, WebSocketAt(config, wsInteractions, uri), config.canRecord);
              View() == old(View()).(ws := Took(lane, choice)) && taken == Item(wsInteractions, choice)
    {
      if closed {
        return None, true, None;
      }
      var choice := Pick(Iota(|wsInteractions|), wsPlayed, !config.canRecord, WebSocketAt(config, wsInteractions, uri));
      ghost var scanned := Chosen(View().ws, WebSocketAt(config, wsInteractions, uri), config.canRecord);
      assert choice == scanned;
      WebSocketChosen(config, View().ws, uri);
      if choice.None? {
        return None, false, None;
      }
      wsPlayed := SetPlayed(wsPlayed, choice);
      return Some(wsInteractions[choice.value]), false, choice;
    }

    method ReserveRecording(what: string) returns (order: Option<nat>)
      requires Valid()
      modifies this`pending, this`nextOrder
      ensures Valid() && (order, View()) == Reserve(old(View()), Http, what)
    {
      if closed {
        return None;
      }
      order := Some(nextOrder);
      pending := pending[nextOrder := what];
      nextOrder := nextOrder + 1;
    }

    method ReserveGrpcRecording(what: string) returns (order: Option<nat>)
      requires Valid()
      modifies this`grpcPending, this`nextOrder
      ensures Valid() && (order, View()) == Reserve(old(View()), Grpc, what)
    {
      if closed {
        return None;
      }
      order := Some(nextOrder);
      grpcPending := grpcPending[nextOrder := what];
      nextOrder := nextOrder + 1;
    }

    method ReserveWebSocketRecording(what: string) returns (order: Option<nat>)
      requires Valid()
      modifies this`wsPending, this`nextOrder
      ensures Valid() && (order, View()) == Reserve(old(View()), WebSocket, what)
    {
      if closed {
        return None;
      }
      order := Some(nextOrder);
      wsPending := wsPending[nextOrder := what];
      nextOrder := nextOrder + 1;
    }

    method FinishRecording(order: nat, error: Option<TransportError>)
      requires Valid()
      modifies this`pending, this`recordErr
      ensures Valid() && View() == Finish(old(View()), Http, order, error)
    {
      pending := pending - {order};
      if error.Some? {
        recordErr := recordErr + [error.value];
      }
    }

    method FinishGrpcRecording(order: nat, error: Option<TransportError>)
      requires Valid()
      modifies this`grpcPending, this`recordErr
      ensures Valid() && View() == Finish(old(View()), Grpc, order, error)
    {
      grpcPending := grpcPending - {order};
      if error.Some? {
        recordErr := recordErr + [error.value];
      }
    }

    method FinishWebSocketRecording(order: nat, error: Option<TransportError>)
      requires Valid()
      modifies this`wsPending, this`recordErr
      ensures Valid() && View() == Finish(old(View()), WebSocket, order, error)
    {
      wsPending := wsPending - {order};
      if error.Some? {
        recordErr := recordErr + [error.value];
      }
    }

    /** `orderedRecordings` of each list, then `Save`: an atomic write that may fail. */
    method SaveOutput(
        http: Lane<HttpInteraction>, grpc: Lane<GrpcInteraction>, ws: Lane<WsInteraction>, writes: bool)
      requires http.SameLength() && grpc.SameLength() && ws.SameLength()
      modifies this`disk, this`saveEmpty
      ensures !saveEmpty
      ensures disk == if writes then Some(File(http.Written(), grpc.Written(), ws.Written())) else old(disk)
    {
      var outputHttp := OrderedRecordings(http.items, http.orders);
      var outputGrpc := OrderedRecordings(grpc.items, grpc.orders);
      var outputWs := OrderedRecordings(ws.items, ws.orders);
      saveEmpty := false;
      if writes {
        disk := Some(File(outputHttp, outputGrpc, outputWs));
      }
    }

    method Record(interaction: HttpInteraction, order: nat, writes: bool) returns (error: Option<TransportError>)
      requires View().SameLengths()
      modifies this`interactions, this`played, this`orders, this`index, this`disk, this`saveEmpty
      ensures var (failure, t) := GoState.Record(config, old(View()), OfHttp(interaction), order, writes);
              && error == failure && interactions == t.http.items && played == t.http.played && orders == t.http.orders
              && index == t.index && disk == t.disk && saveEmpty == t.saveEmpty
    {
      var stored := config.scrubHttp(interaction);
      if closed {
        return Some(TransportClosed);
      }
      var candidates := interactions + [stored];
      var candidateOrders := orders + [order];
      SaveOutput(
        Lane(candidates, played, candidateOrders), Lane(grpcInteractions, grpcPlayed, grpcOrders),
        Lane(wsInteractions, wsPlayed, wsOrders), writes);
      if !writes {
        return Some(WriteFailed);
      }
      var position := |interactions|;
      interactions := candidates;
      played := played + [true];
      orders := candidateOrders;
      if config.UsesIndex() {
        index := Extend(index, config.KeyOf(stored), position);
      }
      return None;
    }

    method RecordGrpc(interaction: GrpcInteraction, order: nat, writes: bool) returns (error: Option<TransportError>)
      requires View().SameLengths()
      modifies this`grpcInteractions, this`grpcPlayed, this`grpcOrders, this`disk, this`saveEmpty, this`grpcPending, this`recordErr
      ensures var (failure, t) := RecordAndFinish(config, old(View()), OfGrpc(interaction), order, writes);
              && error == failure && grpcInteractions == t.grpc.items && grpcPlayed == t.grpc.played && grpcOrders == t.grpc.orders
              && disk == t.disk && saveEmpty == t.saveEmpty && grpcPending == t.grpcPending && recordErr == t.recordErr
    {
      var stored := config.scrubGrpc(interaction);
      grpcPending := grpcPending - {order};
      if closed {
        recordErr := recordErr + [TransportClosed];
        return Some(TransportClosed);
      }
      var candidates := grpcInteractions + [stored];
      var candidateOrders := grpcOrders + [order];
      SaveOutput(
        Lane(interactions, played, orders), Lane(candidates, grpcPlayed, candidateOrders),
        Lane(wsInteractions, wsPlayed, wsOrders), writes);
      if !writes {
        recordErr := recordErr + [WriteFailed];
        return Some(WriteFailed);
      }
      grpcInteractions := candidates;
      grpcPlayed := grpcPlayed + [true];
      grpcOrders := candidateOrders;
      return None;
    }

    method RecordWebSocket(interaction: WsInteraction, order: nat, writes: bool) returns (error: Option<TransportError>)
      requires View().SameLengths()
      modifies this`wsInteractions, this`wsPlayed, this`wsOrders, this`disk, this`saveEmpty, this`wsPending, this`recordErr
      ensures var (failure, t) := RecordAndFinish(config, old(View()), OfWebSocket(interaction), order, writes);
              && error == failure && wsInteractions == t.ws.items && wsPlayed == t.ws.played && wsOrders == t.ws.orders
              && disk == t.disk && saveEmpty == t.saveEmpty && wsPending == t.wsPending && recordErr == t.recordErr
    {
      var stored := config.scrubWs(interaction);
      wsPending := wsPending - {order};
      if closed {
        recordErr := recordErr + [TransportClosed];
        return Some(TransportClosed);
      }
      var candidates := wsInteractions + [stored];
      var candidateOrders := wsOrders + [order];
      SaveOutput(
        Lane(interactions, played, orders), Lane(grpcInteractions, grpcPlayed, grpcOrders),
        Lane(candidates, wsPlayed, candidateOrders), writes);
      if !writes {
        recordErr := recordErr + [WriteFailed];
        return Some(WriteFailed);
      }
      wsInteractions := candidates;
      wsPlayed := wsPlayed + [true];
      wsOrders := candidateOrders;
      return None;
    }

    method Close(writes: bool) returns (errors: seq<TransportError>)
      requires Valid()
      modifies this`closed, this`closeErr, this`saveEmpty, this`disk
      ensures var (reported, t) := GoState.Close(old(View()), writes);
              errors == reported && closed == t.closed && closeErr == t.closeErr && saveEmpty == t.saveEmpty && disk == t.disk
    {
      if closed {
        return closeErr;
      }
      closed := true;
      errors := recordErr;
      var unfinished := ReportIncomplete(Http, pending, nextOrder);
      errors := errors + unfinished;
      unfinished := ReportIncomplete(Grpc, grpcPending, nextOrder);
      errors := errors + unfinished;
      unfinished := ReportIncomplete(WebSocket, wsPending, nextOrder);
      errors := errors + unfinished;
      if saveEmpty {
        if writes {
          disk := Some(File(interactions, grpcInteractions, wsInteractions));
        } else {
          errors := errors + [WriteFailed];
        }
        saveEmpty := false;
      }
      closeErr := errors;
    }
  }
}
