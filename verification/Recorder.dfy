/** `recorder.rs`: every method is one critical section, proved against the function of the same name. */
module RecorderModel {
  import opened CassetteModel
  import opened Matching
  import opened Options
  import opened Ordering
  import opened Protocol
  import opened RecorderState
  import opened Replay
  import opened Sorting

  class Recorder {
    const settings: Settings
    const cassette: Cassette
    var nextOrder: nat
    var httpOrder: seq<nat>
    var grpcOrder: seq<nat>
    var pending: map<nat, string>
    var errors: seq<string>
    var saveEmpty: bool
    var finalized: bool
    var disk: Option<Disk>

    ghost predicate Valid()
      reads this, cassette
    {
      cassette.Valid() && cassette.upper == settings.matching.upper
    }

    ghost function View(): State
      reads this, cassette
    {
      State(cassette.View(), nextOrder, httpOrder, grpcOrder, pending, errors, saveEmpty, finalized, disk)
    }

    constructor FromBuilder(mode: RecordMode, matching: MatchConfig, security: Security, file: Option<Disk>)
      ensures Valid() && fresh(cassette)
      ensures settings == Settings(mode, matching, security, mode.CanRecord(file.Some?))
      ensures View() == Opened(mode, file)
    {
      var exists_ := file.Some?;
      var canRecord := mode.CanRecord(exists_);
      var kept := if file.Some? && !mode.Replaces() then file.value else Disk([], [], []);
      var loaded := new Cassette.Loaded(matching.upper, kept.http, kept.grpc, kept.ws);
      loaded.SetRecording(canRecord);
      settings := Settings(mode, matching, security, canRecord);
      cassette := loaded;
      nextOrder := |kept.http| + |kept.grpc| + |kept.ws|;
      httpOrder, grpcOrder := Iota(|kept.http|), Iota(|kept.grpc|);
      pending, errors := map[], [];
      saveEmpty, finalized := exists_ && mode.All?, false;
      disk := if mode.Rewrite? then None else file;
    }

    method PrepareHttp(request: HttpRequest) returns (action: Action<HttpResponse>)
      requires Valid()
      modifies this, cassette
      ensures Valid()
      ensures (action, View()) == RecorderState.PrepareHttp(settings, old(View()), request)
    {
      if finalized {
        return Closed;
      }
      if settings.mode.Replays() {
        var probe := settings.security.httpRequest(request);
        ChoiceInRange(cassette.View(), probe, settings.matching);
        var taken := cassette.TakeMatch(probe, settings.matching);
        if taken.Some? {
          return Replayed(taken.value.1.response);
        }
      }
      if !settings.canRecord {
        return NoMatch;
      }
      var order := nextOrder;
      nextOrder := nextOrder + 1;
      pending := pending[order := HttpLabel(request)];
      return Record(order);
    }

    method PrepareGrpc(request: GrpcRequest) returns (action: Action<GrpcInteraction>)
      requires Valid()
      modifies this, cassette
      ensures Valid()
      ensures (action, View()) == RecorderState.PrepareGrpc(settings, old(View()), request)
    {
      if finalized {
        return Closed;
      }
      if settings.mode.Replays() {
        var probe := settings.security.grpcRequest(request);
        GrpcChoiceInRange(cassette.View(), probe);
        var taken := cassette.TakeGrpcRequestMatch(probe);
        if taken.Some? {
          return Replayed(taken.value.1);
        }
      }
      if !settings.canRecord {
        return NoMatch;
      }
      var order := nextOrder;
      nextOrder := nextOrder + 1;
      pending := pending[order := "gRPC " + request.method_];
      return Record(order);
    }

    method InsertHttp(order: nat, interaction: HttpInteraction) returns (r: Insertion)
      requires Valid()
      modifies this, cassette
      ensures Valid()
      ensures (r, View()) == RecorderState.InsertHttp(settings, old(View()), order, interaction)
    {
      if finalized {
        return Refused;
      }
      var response := settings.security.retag(settings.security.httpResponse(interaction.response));
      if response.None? {
        pending := pending - {order};
        errors := errors + [RETAG_FAILED];
        return BadBody;
      }
      var stored := HttpInteraction(
        settings.security.httpRequest(interaction.request), response.value, interaction.recordedAt);
      var position := PartitionPoint(httpOrder, order);
      httpOrder := InsertAt(httpOrder, position, order);
      var ok := cassette.InsertInteraction(position, stored);
      if !ok {
        return Misplaced;
      }
      pending := pending - {order};
      saveEmpty := false;
      return Inserted;
    }

    method InsertGrpc(order: nat, interaction: GrpcInteraction) returns (r: Insertion)
      requires Valid()
      modifies this, cassette
      ensures Valid()
      ensures (r, View()) == RecorderState.InsertGrpc(settings, old(View()), order, interaction)
    {
      if finalized {
        return Refused;
      }
      var stored := GrpcInteraction(
        settings.security.grpcRequest(interaction.request), settings.security.grpcResponse(interaction.response),
        interaction.recordedAt);
      var position := PartitionPoint(grpcOrder, order);
      grpcOrder := InsertAt(grpcOrder, position, order);
      var ok := cassette.InsertGrpcInteraction(position, stored);
      if !ok {
        return Misplaced;
      }
      pending := pending - {order};
      saveEmpty := false;
      return Inserted;
    }

    /** `writes` says whether the file system lets the write through. The write order itself is never refused. */
    method Save(writes: bool) returns (saved: bool)
      requires Valid()
      modifies this
      ensures Valid() && saved == writes
      ensures View() == RecorderState.Save(settings, old(View()), writes)
    {
      var order := OutputOrder(cassette.interactions, Some(settings.matching), httpOrder);
      var validation := Validate(order, |cassette.interactions|);
      if !validation.Accepted? || !writes {
        return false;
      }
      disk := Some(Disk(Arranged(cassette.interactions, order), cassette.grpcInteractions, cassette.wsInteractions));
      return true;
    }

    method RememberError(error: string)
      requires Valid()
      modifies this
      ensures Valid() && View() == Remember(old(View()), error)
    {
      errors := errors + [error];
    }

    method FailRecording(order: nat, error: string)
      requires Valid()
      modifies this
      ensures Valid() && View() == Fail(old(View()), order, error)
    {
      pending := pending - {order};
      errors := errors + [error];
    }

    method FinishBegin() returns (savesEmpty: bool)
      requires Valid()
      modifies this
      ensures Valid() && (savesEmpty, View()) == RecorderState.FinishBegin(old(View()))
    {
      savesEmpty := !finalized && saveEmpty;
      finalized := true;
    }

    method FinishEnd() returns (r: FinishResult)
      requires Valid()
      ensures r == RecorderState.FinishEnd(View())
    {
      var requests := PendingBelow(pending, nextOrder);
      if requests != [] && errors == [] {
        return Incomplete(requests);
      }
      var all := errors + IncompleteErrors(requests);
      if all == [] {
        return Finished;
      }
      return Failed(all);
    }
  }
}
