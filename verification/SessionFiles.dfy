/** What a recorder's file holds after a session, told from what was loaded and what was recorded. */
module SessionFiles {
  import opened CassetteModel
  import opened Options
  import opened Ordering
  import opened Protocol
  import opened RecorderState
  import opened Replay
  import opened Sessions

  /** Lists begin as loaded, the WebSocket list stays as loaded, and an empty save is due only while nothing was recorded. */
  ghost predicate ListsKept(start: State, st: State) {
    && st.cassette.ws == start.cassette.ws
    && start.cassette.http <= st.cassette.http && start.httpOrder <= st.httpOrder
    && start.cassette.grpc <= st.cassette.grpc && start.grpcOrder <= st.grpcOrder
    && (st.saveEmpty <==> start.saveEmpty && !Grew(start, st))
  }

  /** A call that is to save has recorded; a finisher that is to save an empty file has seen nothing recorded, and nothing
      more is. Until something is recorded the file is the one opened, or the empty one that was due. */
  ghost predicate FileKept(start: State, s: System) {
    && (forall o: nat :: o in s.calls && !s.calls[o].Waiting() ==> Grew(start, s.st))
    && (forall f :: f in s.finishers && s.finishers[f].SavesEmpty? ==> s.st.finalized && start.saveEmpty && !Grew(start, s.st))
    && (!Grew(start, s.st) ==>
          s.st.disk == start.disk ||
          (start.saveEmpty && s.st.disk == Some(Disk([], start.cassette.grpc, start.cassette.ws))))
  }

  ghost predicate StartsEmpty(start: State) {
    && (forall o | o in start.httpOrder :: o < start.nextOrder) && (forall o | o in start.grpcOrder :: o < start.nextOrder)
    && (start.saveEmpty ==> start.cassette.http == [])
  }

  ghost predicate Kept(start: State, s: System) {
    ListsKept(start, s.st) && FileKept(start, s)
  }

  ghost predicate SameLists(st: State, st': State) {
    && st'.cassette.http == st.cassette.http && st'.cassette.grpc == st.cassette.grpc && st'.cassette.ws == st.cassette.ws
    && st'.httpOrder == st.httpOrder && st'.grpcOrder == st.grpcOrder && st'.saveEmpty == st.saveEmpty
  }

  lemma SameListsKept(start: State, st: State, st': State)
    requires ListsKept(start, st) && SameLists(st, st')
    ensures ListsKept(start, st') && (Grew(start, st') <==> Grew(start, st))
  {}

  lemma InsertBehind<T>(loaded: seq<T>, s: seq<T>, position: nat, x: T)
    requires loaded <= s && |loaded| <= position <= |s|
    ensures loaded <= InsertAt(s, position, x) && |InsertAt(s, position, x)| > |loaded|
  {}

  lemma NewGoesBehind(loaded: seq<nat>, orders: seq<nat>, order: nat)
    requires loaded <= orders && forall o | o in loaded :: o < order
    ensures |loaded| <= PartitionPoint(orders, order)
  {
    assert forall i :: 0 <= i < |loaded| ==> orders[i] == loaded[i] && loaded[i] in loaded;
  }

  lemma InsertHttpKept(settings: Settings, start: State, st: State, order: nat, interaction: HttpInteraction)
    requires ListsKept(start, st) && Lists(st) && |start.httpOrder| == |start.cassette.http|
    requires forall o | o in start.httpOrder :: o < order
    ensures var (r, st') := InsertHttp(settings, st, order, interaction);
            && ListsKept(start, st') && (r.Inserted? ==> Grew(start, st'))
            && (Grew(start, st) ==> Grew(start, st')) && (!r.Inserted? && !r.Misplaced? ==> SameLists(st, st'))
  {
    NewGoesBehind(start.httpOrder, st.httpOrder, order);
    var position := PartitionPoint(st.httpOrder, order);
    InsertBehind(start.httpOrder, st.httpOrder, position, order);
    var retagged := settings.security.retag(settings.security.httpResponse(interaction.response));
    if retagged.Some? {
      InsertBehind(start.cassette.http, st.cassette.http, position,
                   HttpInteraction(settings.security.httpRequest(interaction.request), retagged.value, interaction.recordedAt));
    }
  }

  lemma InsertGrpcKept(settings: Settings, start: State, st: State, order: nat, interaction: GrpcInteraction)
    requires ListsKept(start, st) && Lists(st) && |start.grpcOrder| == |start.cassette.grpc|
    requires forall o | o in start.grpcOrder :: o < order
    ensures var (r, st') := InsertGrpc(settings, st, order, interaction);
            && ListsKept(start, st') && (r.Inserted? ==> Grew(start, st'))
            && (Grew(start, st) ==> Grew(start, st')) && (!r.Inserted? && !r.Misplaced? ==> SameLists(st, st'))
  {
    NewGoesBehind(start.grpcOrder, st.grpcOrder, order);
    var position := PartitionPoint(st.grpcOrder, order);
    InsertBehind(start.grpcOrder, st.grpcOrder, position, order);
    InsertBehind(start.cassette.grpc, st.cassette.grpc, position,
                 GrpcInteraction(settings.security.grpcRequest(interaction.request),
                                 settings.security.grpcResponse(interaction.response), interaction.recordedAt));
  }

  // --- Every step ---

  /** Nothing recorded, nothing written, no call turned to saving. */
  lemma QuietStep(start: State, s: System, s': System)
    requires Kept(start, s) && SameLists(s.st, s'.st) && s'.st.disk == s.st.disk && (s.st.finalized ==> s'.st.finalized)
    requires forall o: nat :: o in s'.calls && !s'.calls[o].Waiting() ==> o in s.calls && !s.calls[o].Waiting()
    requires forall f :: f in s'.finishers && s'.finishers[f].SavesEmpty? ==> f in s.finishers && s.finishers[f].SavesEmpty?
    ensures Kept(start, s')
  {
    SameListsKept(start, s.st, s'.st);
  }

  lemma AskKept(settings: Settings, start: State, s: System, ev: Event)
    requires Kept(start, s) && (ev.AskHttp? || ev.AskGrpc?)
    ensures Kept(start, Step(settings, s, ev))
  {
    if ev.AskHttp? {
      PrepareHttpFrame(settings, s.st, ev.httpRequest);
    } else {
      PrepareGrpcFrame(settings, s.st, ev.grpcRequest);
    }
    hide Kept;
    QuietStep(start, s, Step(settings, s, ev));
  }

  lemma GotHttpKept(settings: Settings, start: State, s: System, ev: Event)
    requires Kept(start, s) && StartsEmpty(start) && Lists(s.st) && Accounted(start, s) && Enabled(s, ev) && ev.GotHttp?
    requires |start.httpOrder| == |start.cassette.http|
    ensures Kept(start, Step(settings, s, ev))
  {
    var interaction := HttpInteraction(s.calls[ev.order].request, ev.response, ev.at);
    WaitingIsNew(start, s, ev.order);
    InsertHttpKept(settings, start, s.st, ev.order, interaction);
    InsertHttpLists(settings, s.st, ev.order, interaction);
    GotHttpFrame(settings, s, ev);
    InsertHttpFrame(settings, s.st, ev.order, interaction);
    FinalizedRefuses(settings, s.st, ev.order, interaction);
    hide Step;
    hide InsertHttp;
    hide Accounted;
    hide ListsKept;
    GotFinishers(settings, s, ev);
  }

  lemma FinalizedRefuses(settings: Settings, st: State, order: nat, interaction: HttpInteraction)
    ensures var (r, st') := InsertHttp(settings, st, order, interaction);
            st'.finalized == st.finalized && (st.finalized ==> r.Refused?)
  {}

  lemma GotFinishers(settings: Settings, s: System, ev: Event)
    requires Enabled(s, ev) && (ev.GotHttp? || ev.GotGrpc?)
    ensures Step(settings, s, ev).finishers == s.finishers
  {
    hide InsertHttp;
    hide InsertGrpc;
  }

  lemma InsertGrpcFrame(settings: Settings, st: State, order: nat, interaction: GrpcInteraction)
    ensures var (r, st') := InsertGrpc(settings, st, order, interaction);
            st'.finalized == st.finalized && (st.finalized ==> r.Refused?) && st'.disk == st.disk && !r.BadBody?
  {}

  lemma GotGrpcFrame(settings: Settings, s: System, ev: Event)
    requires Enabled(s, ev) && ev.GotGrpc?
    ensures var interaction := GrpcInteraction(s.calls[ev.order].grpc, ev.grpcResponse, ev.at);
            var (r, st) := InsertGrpc(settings, s.st, ev.order, interaction);
            var s' := Step(settings, s, ev);
            s'.st == st && s'.calls == (if r.Inserted? then s.calls[ev.order := MustSave] else s.calls - {ev.order})
  {
    hide InsertGrpc;
  }

  lemma GotGrpcKept(settings: Settings, start: State, s: System, ev: Event)
    requires Kept(start, s) && StartsEmpty(start) && Lists(s.st) && Accounted(start, s) && Enabled(s, ev) && ev.GotGrpc?
    requires |start.grpcOrder| == |start.cassette.grpc|
    ensures Kept(start, Step(settings, s, ev))
  {
    var interaction := GrpcInteraction(s.calls[ev.order].grpc, ev.grpcResponse, ev.at);
    WaitingIsNew(start, s, ev.order);
    InsertGrpcKept(settings, start, s.st, ev.order, interaction);
    InsertGrpcLists(settings, s.st, ev.order, interaction);
    GotGrpcFrame(settings, s, ev);
    InsertGrpcFrame(settings, s.st, ev.order, interaction);
    hide Step;
    hide InsertGrpc;
    hide Accounted;
    hide ListsKept;
    GotFinishers(settings, s, ev);
  }

  lemma SaveKept(settings: Settings, start: State, s: System, ev: Event)
    requires Kept(start, s) && StartsEmpty(start) && Enabled(s, ev) && (ev.SaveCall? || ev.SaveFinish?)
    ensures Kept(start, Step(settings, s, ev))
  {
    if ev.SaveFinish? {
      assert s.st.cassette.http == [] && s.st.cassette.grpc == start.cassette.grpc;
    }
    SameListsKept(start, s.st, Step(settings, s, ev).st);
  }

  lemma StepKept(settings: Settings, start: State, s: System, ev: Event)
    requires Kept(start, s) && StartsEmpty(start) && Lists(start) && Lists(s.st) && Accounted(start, s) && Enabled(s, ev)
    ensures Kept(start, Step(settings, s, ev))
  {
    match ev
    case AskHttp(_) => AskKept(settings, start, s, ev);
    case AskGrpc(_) => AskKept(settings, start, s, ev);
    case GotHttp(_, _, _) => GotHttpKept(settings, start, s, ev);
    case GotGrpc(_, _, _) => GotGrpcKept(settings, start, s, ev);
    case SaveCall(_, _) => SaveKept(settings, start, s, ev);
    case SaveFinish(_, _) => SaveKept(settings, start, s, ev);
    case BeginFinish(_) => SameListsKept(start, s.st, Step(settings, s, ev).st);
    case _ => QuietStep(start, s, Step(settings, s, ev));
  }

  lemma {:induction false} RunKept(settings: Settings, start: State, s: System, events: seq<Event>)
    requires Kept(start, s) && StartsEmpty(start) && Lists(start) && Invariant(settings, start, s)
    requires RunAll(settings, s, events).Some?
    ensures Kept(start, RunAll(settings, s, events).value)
    decreases |events|
  {
    if events != [] {
      StepKept(settings, start, s, events[0]);
      StepInvariant(settings, start, s, events[0]);
      RunKept(settings, start, Step(settings, s, events[0]), events[1..]);
    }
  }

  lemma OpenedStartsEmpty(mode: RecordMode, file: Option<Disk>)
    ensures StartsEmpty(Opened(mode, file)) && Lists(Opened(mode, file))
    ensures Kept(Opened(mode, file), Start(mode, file))
  {}

  lemma ReachedKept(settings: Settings, mode: RecordMode, file: Option<Disk>, events: seq<Event>, s: System)
    requires Reaches(settings, mode, file, events, s)
    ensures Kept(Opened(mode, file), s) && Invariant(settings, Opened(mode, file), s)
  {
    OpenedStartsEmpty(mode, file);
    StartInvariant(settings, mode, file);
    ReachedInvariant(settings, mode, file, events, s);
    RunKept(settings, Opened(mode, file), Start(mode, file), events);
  }

  // --- Main results ---

  /** What a session keeps of the file it opens: nothing in the modes that replace it. */
  function LoadedPart(mode: RecordMode, file: Option<Disk>): Disk {
    match mode
    case All => Disk([], [], [])
    case Rewrite => Disk([], [], [])
    case _ => if file.Some? then file.value else Disk([], [], [])
  }

  /** The WebSocket recordings loaded are the cassette's in every run, and HTTP and gRPC recordings loaded stay first. */
  lemma LoadedStays(settings: Settings, mode: RecordMode, file: Option<Disk>, events: seq<Event>, s: System)
    requires Reaches(settings, mode, file, events, s)
    ensures var loaded := LoadedPart(mode, file);
            s.st.cassette.ws == loaded.ws && loaded.http <= s.st.cassette.http && loaded.grpc <= s.st.cassette.grpc
  {
    ReachedKept(settings, mode, file, events, s);
  }

  /** Once nothing is left to save and no error was remembered, a session that recorded something leaves in the file the
      loaded WebSocket recordings, the gRPC recordings as reserved, and every HTTP recording once. */
  lemma FileHolds(settings: Settings, mode: RecordMode, file: Option<Disk>, events: seq<Event>, s: System)
    requires Reaches(settings, mode, file, events, s)
    requires !Unsaved(s) && Grew(Opened(mode, file), s.st) && s.st.errors == []
    ensures s.st.disk.Some?
    ensures s.st.disk.value.ws == LoadedPart(mode, file).ws && s.st.disk.value.grpc == s.st.cassette.grpc
    ensures exists order :: Arranges(order, |s.st.cassette.http|) && s.st.disk.value.http == Arranged(s.st.cassette.http, order)
  {
    LoadedStays(settings, mode, file, events, s);
    NoLostUpdate(settings, mode, file, events, s);
    WriteOrderArranges(s.st.cassette.http, Some(settings.matching), s.st.httpOrder);
  }

  /** A session that recorded nothing leaves the file as it was, except that `All` may have emptied it and `Rewrite` has
      removed it. */
  lemma NothingRecorded(settings: Settings, mode: RecordMode, file: Option<Disk>, events: seq<Event>, s: System)
    requires Reaches(settings, mode, file, events, s) && !Grew(Opened(mode, file), s.st)
    ensures match mode
            case Rewrite => s.st.disk == None
            case All => s.st.disk == file || (file.Some? && s.st.disk == Some(Disk([], [], [])))
            case _ => s.st.disk == file
  {
    ReachedKept(settings, mode, file, events, s);
  }

  lemma EmptyFile(settings: Settings, st: State)
    requires st.cassette.http == [] && st.cassette.grpc == [] && st.cassette.ws == []
    ensures Save(settings, st, true).disk == Some(Disk([], [], []))
  {}

  lemma SaveEmptyIff(settings: Settings, mode: RecordMode, file: Option<Disk>, events: seq<Event>, s: System)
    requires Reaches(settings, mode, file, events, s)
    ensures s.st.saveEmpty <==> mode.All? && file.Some? && !Grew(Opened(mode, file), s.st)
    ensures s.st.saveEmpty ==> s.st.cassette.http == [] && s.st.cassette.grpc == [] && s.st.cassette.ws == []
  {
    ReachedKept(settings, mode, file, events, s);
  }

  /** `All` over an existing file owes it an empty save until something is recorded, and the first `finish` makes it. */
  lemma EmptySaveDue(settings: Settings, mode: RecordMode, file: Option<Disk>, events: seq<Event>, s: System, caller: nat)
    requires Reaches(settings, mode, file, events, s) && caller !in s.finishers
    ensures var asked := Step(settings, s, BeginFinish(caller));
            if !s.st.finalized && mode.All? && file.Some? && !Grew(Opened(mode, file), s.st)
            then asked.finishers[caller] == SavesEmpty &&
                 Step(settings, asked, SaveFinish(caller, true)).st.disk == Some(Disk([], [], []))
            else asked.finishers[caller] == Reports
  {
    SaveEmptyIff(settings, mode, file, events, s);
    hide Reaches;
    hide Opened;
    hide Grew;
    hide Save;
    var asked := Step(settings, s, BeginFinish(caller));
    if asked.finishers[caller].SavesEmpty? {
      EmptyFile(settings, asked.st);
    }
  }

  lemma AskHttpKeepsDisk(settings: Settings, st: State, request: HttpRequest)
    ensures PrepareHttp(settings, st, request).1.disk == st.disk
  {
    hide HttpChoice;
  }

  lemma AskGrpcKeepsDisk(settings: Settings, st: State, request: GrpcRequest)
    ensures PrepareGrpc(settings, st, request).1.disk == st.disk
  {
    hide GrpcChoice;
  }

  lemma GotHttpKeepsDisk(settings: Settings, st: State, order: nat, interaction: HttpInteraction)
    ensures InsertHttp(settings, st, order, interaction).1.disk == st.disk
  {}

  lemma GotGrpcKeepsDisk(settings: Settings, st: State, order: nat, interaction: GrpcInteraction)
    ensures InsertGrpc(settings, st, order, interaction).1.disk == st.disk
  {}

  /** Only a save that succeeds touches the file. */
  lemma OnlySavesWrite(settings: Settings, s: System, ev: Event)
    requires Enabled(s, ev)
    ensures Step(settings, s, ev).st.disk == s.st.disk || ((ev.SaveCall? || ev.SaveFinish?) && ev.writes)
  {
    hide FileNow;
    hide PrepareHttp;
    hide PrepareGrpc;
    hide InsertHttp;
    hide InsertGrpc;
    hide Answering;
    hide AnsweringGrpc;
    match ev
    case AskHttp(request) => AskHttpKeepsDisk(settings, s.st, request);
    case AskGrpc(request) => AskGrpcKeepsDisk(settings, s.st, request);
    case GotHttp(order, response, at) =>
      GotHttpKeepsDisk(settings, s.st, order, HttpInteraction(s.calls[order].request, response, at));
    case GotGrpc(order, response, at) =>
      GotGrpcKeepsDisk(settings, s.st, order, GrpcInteraction(s.calls[order].grpc, response, at));
    case _ =>
  }

  /** The error a step remembers, if it does. */
  function NewErrors(settings: Settings, s: System, ev: Event): seq<string>
    requires Enabled(s, ev)
  {
    match ev
    case RememberCall(order) => [s.calls[order].error]
    case RememberFinish(_) => ["write error"]
    case FailCall(_, error) => [error]
    case GotHttp(_, response, _) =>
      if !s.st.finalized && settings.security.retag(settings.security.httpResponse(response)).None? then ["encode JSON body"]
      else []
    case _ => []
  }

  lemma GotHttpErrors(settings: Settings, st: State, order: nat, interaction: HttpInteraction)
    ensures InsertHttp(settings, st, order, interaction).1.errors ==
            if !st.finalized && settings.security.retag(settings.security.httpResponse(interaction.response)).None?
            then st.errors + ["encode JSON body"] else st.errors
  {}

  lemma GotGrpcErrors(settings: Settings, st: State, order: nat, interaction: GrpcInteraction)
    ensures InsertGrpc(settings, st, order, interaction).1.errors == st.errors
  {}

  lemma AskHttpErrors(settings: Settings, st: State, request: HttpRequest)
    ensures PrepareHttp(settings, st, request).1.errors == st.errors
  {
    hide HttpChoice;
  }

  lemma AskGrpcErrors(settings: Settings, st: State, request: GrpcRequest)
    ensures PrepareGrpc(settings, st, request).1.errors == st.errors
  {
    hide GrpcChoice;
  }

  /** Errors are remembered in the order they occur: a failed save's, a failed call's, or that of a body that could not be
      encoded, and no other. */
  lemma ErrorsInOrder(settings: Settings, s: System, ev: Event)
    requires Enabled(s, ev)
    ensures Step(settings, s, ev).st.errors == s.st.errors + NewErrors(settings, s, ev)
  {
    hide FileNow;
    hide PrepareHttp;
    hide PrepareGrpc;
    hide InsertHttp;
    hide InsertGrpc;
    hide Answering;
    hide AnsweringGrpc;
    match ev
    case GotHttp(order, response, at) =>
      GotHttpErrors(settings, s.st, order, HttpInteraction(s.calls[order].request, response, at));
    case GotGrpc(order, response, at) => GotGrpcErrors(settings, s.st, order, GrpcInteraction(s.calls[order].grpc, response, at));
    case AskHttp(request) => AskHttpErrors(settings, s.st, request);
    case AskGrpc(request) => AskGrpcErrors(settings, s.st, request);
    case _ =>
  }

  /** A save that succeeds ends the call, or lets `finish` report; one that fails leaves its error to be remembered. */
  lemma SavedOrRemembered(settings: Settings, s: System, ev: Event)
    requires Enabled(s, ev)
    ensures ev.SaveCall? ==>
              var s' := Step(settings, s, ev);
              s'.calls == if ev.writes then s.calls - {ev.order} else s.calls[ev.order := MustRemember("write error")]
    ensures ev.SaveFinish? ==>
              var s' := Step(settings, s, ev);
              s'.finishers == s.finishers[ev.caller := if ev.writes then Reports else RemembersError]
  {
    hide FileNow;
    hide PrepareHttp;
    hide PrepareGrpc;
    hide InsertHttp;
    hide InsertGrpc;
  }

  /** A run can go on with any step that is enabled where it ends. */
  lemma {:induction false} RunGoesOn(settings: Settings, s: System, events: seq<Event>, ev: Event)
    requires RunAll(settings, s, events).Some?
    ensures var end := RunAll(settings, s, events).value;
            RunAll(settings, s, events + [ev]) == if Enabled(end, ev) then Some(Step(settings, end, ev)) else None
    decreases |events|
  {
    hide Step;
    hide Enabled;
    var more := events + [ev];
    assert more[0] == if events == [] then ev else events[0];
    if events == [] {
      assert more[1..] == [];
    } else {
      assert more[1..] == events[1..] + [ev];
      RunGoesOn(settings, Step(settings, s, events[0]), events[1..], ev);
    }
  }

  lemma WrittenOne(x: HttpInteraction, settings: Settings, tie: seq<nat>)
    ensures Written([x], Some(settings.matching), tie) == [x]
  {
    var order := WriteOrder([x], Some(settings.matching), tie);
    WriteOrderArranges([x], Some(settings.matching), tie);
    assert |order| == 1 && order[0] in order;
  }

  /** A session that has recorded nothing and holds nothing. */
  ghost predicate Fresh(st: State) {
    && !st.finalized && st.nextOrder == 0 && st.httpOrder == [] && st.cassette.grpc == [] && st.cassette.ws == []
    && st.cassette.http == [] && st.cassette.played == []
  }

  lemma FirstAsk(settings: Settings, s: System, request: HttpRequest)
    requires Fresh(s.st) && settings.canRecord && s.calls == map[]
    ensures var s' := Step(settings, s, AskHttp(request));
            Fresh(s'.st.(nextOrder := 0)) && s'.calls == map[0 := HttpWaiting(request)]
  {
    ChoiceInRange(s.st.cassette, settings.security.httpRequest(request), settings.matching);
    hide HttpChoice;
  }

  lemma InsertFirst(settings: Settings, st: State, i: HttpInteraction)
    requires Fresh(st.(nextOrder := 0)) && settings.security.retag(settings.security.httpResponse(i.response)).Some?
    ensures var (r, st') := InsertHttp(settings, st, 0, i);
            var stored := HttpInteraction(settings.security.httpRequest(i.request),
                                          settings.security.retag(settings.security.httpResponse(i.response)).value, i.recordedAt);
            r == Inserted && st'.cassette.http == [stored] && st'.cassette.grpc == [] && st'.cassette.ws == []
  {}

  lemma FirstGot(settings: Settings, s: System, request: HttpRequest, response: HttpResponse, at: string)
    requires Fresh(s.st.(nextOrder := 0)) && s.calls == map[0 := HttpWaiting(request)]
    requires settings.security.retag(settings.security.httpResponse(response)).Some?
    ensures var s' := Step(settings, s, GotHttp(0, response, at));
            var stored := HttpInteraction(settings.security.httpRequest(request),
                                          settings.security.retag(settings.security.httpResponse(response)).value, at);
            && s'.st.cassette.http == [stored] && s'.st.cassette.grpc == [] && s'.st.cassette.ws == []
            && s'.calls == map[0 := MustSave]
  {
    InsertFirst(settings, s.st, HttpInteraction(request, response, at));
    hide InsertHttp;
  }

  /** The first call of a session without a file: asked, answered live, recorded and saved. */
  lemma FirstCall(settings: Settings, mode: RecordMode, request: HttpRequest, response: HttpResponse, at: string)
    requires Opens(settings, mode, None) && !mode.NoRecording? && !mode.Verify?
    requires settings.security.retag(settings.security.httpResponse(response)).Some?
    ensures var run := RunAll(settings, Start(mode, None), [AskHttp(request), GotHttp(0, response, at), SaveCall(0, true)]);
            var stored := HttpInteraction(settings.security.httpRequest(request),
                                          settings.security.retag(settings.security.httpResponse(response)).value, at);
            run.Some? && run.value.st.disk == Some(Disk([stored], [], [])) && run.value.calls == map[]
  {
    var a, ask, got, save := Start(mode, None), AskHttp(request), GotHttp(0, response, at), SaveCall(0, true);
    FirstAsk(settings, a, request);
    var b := Step(settings, a, ask);
    FirstGot(settings, b, request, response, at);
    var c := Step(settings, b, got);
    WrittenOne(c.st.cassette.http[0], settings, c.st.httpOrder);
    SavedOrRemembered(settings, c, save);
    RunOfThree(settings, a, ask, got, save);
    hide RunAll;
    hide PrepareHttp;
    hide InsertHttp;
    hide Written;
    assert map[0 := MustSave] - {0} == map[];
  }

  lemma RunOfThree(settings: Settings, s: System, a: Event, b: Event, c: Event)
    requires Enabled(s, a) && Enabled(Step(settings, s, a), b) && Enabled(Step(settings, Step(settings, s, a), b), c)
    ensures RunAll(settings, s, [a, b, c]) == Some(Step(settings, Step(settings, Step(settings, s, a), b), c))
  {
    hide Step;
    hide Enabled;
    RunGoesOn(settings, s, [], a);
    RunGoesOn(settings, s, [a], b);
    RunGoesOn(settings, s, [a, b], c);
    assert [] + [a] == [a] && [a] + [b] == [a, b] && [a, b] + [c] == [a, b, c];
  }

  /** Opening a file for replay gives a cassette with its recordings, none played. */
  lemma Reopened(disk: Disk, mode: RecordMode)
    requires mode.NoRecording? || mode.Verify?
    ensures var st := Opened(mode, Some(disk));
            && st.cassette.http == disk.http && st.cassette.grpc == disk.grpc && st.cassette.ws == disk.ws
            && (forall i :: 0 <= i < |disk.http| ==> !PlayedAt(st.cassette.played, i))
            && (forall i :: 0 <= i < |disk.grpc| ==> !PlayedAt(st.cassette.grpcPlayed, i))
            && !st.cassette.recording && st.disk == Some(disk) && st.nextOrder == |disk.http| + |disk.grpc| + |disk.ws|
  {}

  // --- Sessions that cannot record ---

  /** `none` and `verify` never record, and `once` not when there is a file. */
  ghost predicate ReadOnly(mode: RecordMode, file: Option<Disk>) {
    mode.NoRecording? || mode.Verify? || (mode.Once? && file.Some?)
  }

  ghost predicate Untouched(start: State, s: System) {
    s.calls == map[] && !Grew(start, s.st) && ListsKept(start, s.st)
  }

  lemma StepUntouched(settings: Settings, start: State, s: System, ev: Event)
    requires Untouched(start, s) && !settings.canRecord && Enabled(s, ev)
    ensures Untouched(start, Step(settings, s, ev))
  {
    match ev
    case AskHttp(request) => PrepareHttpFrame(settings, s.st, request);
    case AskGrpc(request) => PrepareGrpcFrame(settings, s.st, request);
    case _ =>
  }

  lemma {:induction false} RunUntouched(settings: Settings, start: State, s: System, events: seq<Event>)
    requires Untouched(start, s) && !settings.canRecord && RunAll(settings, s, events).Some?
    ensures Untouched(start, RunAll(settings, s, events).value)
    decreases |events|
  {
    if events != [] {
      StepUntouched(settings, start, s, events[0]);
      RunUntouched(settings, start, Step(settings, s, events[0]), events[1..]);
    }
  }

  /** A session that cannot record holds back no request for recording and leaves the file alone, whatever happens. */
  lemma ReadOnlyLeavesFile(settings: Settings, mode: RecordMode, file: Option<Disk>, events: seq<Event>, s: System)
    requires Reaches(settings, mode, file, events, s) && ReadOnly(mode, file)
    ensures s.st.disk == file && s.calls == map[]
  {
    OpenedStartsEmpty(mode, file);
    RunUntouched(settings, Opened(mode, file), Start(mode, file), events);
    NothingRecorded(settings, mode, file, events, s);
  }

  /** A request nothing answers is a miss in a session that cannot record, and reserved in any other. */
  lemma MissesReserve(settings: Settings, mode: RecordMode, file: Option<Disk>, events: seq<Event>, s: System,
                      http: HttpRequest, grpc: GrpcRequest)
    requires Reaches(settings, mode, file, events, s)
    ensures var action := PrepareHttp(settings, s.st, http).0;
            (action.NoMatch? ==> ReadOnly(mode, file)) && (action.Record? ==> !ReadOnly(mode, file))
    ensures var action := PrepareGrpc(settings, s.st, grpc).0;
            (action.NoMatch? ==> ReadOnly(mode, file)) && (action.Record? ==> !ReadOnly(mode, file))
  {
    hide HttpChoice;
    hide GrpcChoice;
    hide RunAll;
  }

  // --- After `finish` ---

  /** From the moment `finish` is called nothing more is recorded, reserved or replayed. */
  lemma FinishedStays(settings: Settings, s: System, ev: Event)
    requires s.st.finalized && Enabled(s, ev)
    ensures var st' := Step(settings, s, ev).st;
            && st'.finalized && SameLists(s.st, st') && st'.nextOrder == s.st.nextOrder
            && st'.cassette == s.st.cassette && forall o | o in st'.pending :: o in s.st.pending
  {
    hide FileNow;
    hide HttpChoice;
    hide GrpcChoice;
    match ev
    case GotHttp(order, response, at) =>
      FinalizedRefuses(settings, s.st, order, HttpInteraction(s.calls[order].request, response, at));
    case _ =>
  }
}
