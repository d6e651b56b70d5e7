/** What the sections of `prepare_http` and `prepare_grpc` do, told from the recordings themselves. */
module Sections {
  import opened CassetteModel
  import opened Matching
  import opened Options
  import opened Protocol
  import opened RecorderState
  import opened Replay
  import opened Sessions
  import opened Sorting

  /** The first match, unplayed ones first, if the mode replays; `All` and `Rewrite` do not. */
  ghost predicate Picks(mode: RecordMode, n: nat, isMatch: nat -> bool, played: seq<bool>, recording: bool, r: Option<nat>) {
    if mode.All? || mode.Rewrite? then r == None else Earliest(n, isMatch, played, !recording, r)
  }

  /** A request is refused after `finish`, answered by the recording picked for its scrubbed form, or reserved under the
      next order if the session records, and a miss otherwise. */
  lemma PrepareHttpIs(settings: Settings, st: State, request: HttpRequest) returns (choice: Option<nat>)
    requires |st.cassette.played| == |st.cassette.http|
    ensures st.finalized ==> PrepareHttp(settings, st, request) == (Closed, st)
    ensures !st.finalized ==>
              var probe, http := settings.security.httpRequest(request), st.cassette.http;
              var (action, st') := PrepareHttp(settings, st, request);
              && Picks(settings.mode, |http|, (i: nat) => i < |http| && Matches(probe, http[i].request, settings.matching),
                       st.cassette.played, st.cassette.recording, choice)
              && (choice.Some? ==>
                    && choice.value < |http| && action == Replayed(http[choice.value].response)
                    && st' == st.(cassette := st.cassette.(played := st.cassette.played[choice.value := true])))
              && (choice.None? && settings.canRecord ==>
                    action == Record(st.nextOrder) && st'.nextOrder == st.nextOrder + 1 && st'.cassette == st.cassette &&
                    st'.pending == st.pending[st.nextOrder := "HTTP " + request.method_ + " " + request.uri])
              && (choice.None? && !settings.canRecord ==> action == NoMatch && st' == st)
  {
    choice := None;
    if !st.finalized && !settings.mode.All? && !settings.mode.Rewrite? {
      var probe := settings.security.httpRequest(request);
      choice := HttpChoice(st.cassette, probe, settings.matching);
      HttpChoiceIs(st.cassette, probe, settings.matching);
      ChoiceInRange(st.cassette, probe, settings.matching);
    }
  }

  lemma PrepareGrpcIs(settings: Settings, st: State, request: GrpcRequest) returns (choice: Option<nat>)
    requires |st.cassette.grpcPlayed| == |st.cassette.grpc|
    ensures st.finalized ==> PrepareGrpc(settings, st, request) == (Closed, st)
    ensures !st.finalized ==>
              var probe, grpc := settings.security.grpcRequest(request), st.cassette.grpc;
              var (action, st') := PrepareGrpc(settings, st, request);
              && Picks(settings.mode, |grpc|,
                       (i: nat) => i < |grpc| && grpc[i].request.method_ == probe.method_ &&
                                   SameContent(probe.body, grpc[i].request.body),
                       st.cassette.grpcPlayed, st.cassette.recording, choice)
              && (choice.Some? ==>
                    && choice.value < |grpc| && action == Replayed(grpc[choice.value])
                    && st' == st.(cassette := st.cassette.(grpcPlayed := st.cassette.grpcPlayed[choice.value := true])))
              && (choice.None? && settings.canRecord ==>
                    action == Record(st.nextOrder) && st'.nextOrder == st.nextOrder + 1 && st'.cassette == st.cassette &&
                    st'.pending == st.pending[st.nextOrder := "gRPC " + request.method_])
              && (choice.None? && !settings.canRecord ==> action == NoMatch && st' == st)
  {
    choice := None;
    if !st.finalized && !settings.mode.All? && !settings.mode.Rewrite? {
      var probe := settings.security.grpcRequest(request);
      choice := GrpcChoice(st.cassette, probe);
      GrpcChoiceIs(st.cassette, probe);
      GrpcChoiceInRange(st.cassette, probe);
    }
  }

  /** One more element somewhere. */
  ghost predicate With<T>(s: seq<T>, k: nat, x: T, more: seq<T>) {
    k <= |s| && more == s[..k] + [x] + s[k..]
  }

  /** What comes back for a reserved request is put, scrubbed and with its length retagged, among the recordings where its
      order puts it, unless its body cannot be encoded. */
  lemma InsertHttpIs(settings: Settings, st: State, order: nat, i: HttpInteraction) returns (k: nat)
    requires Lists(st) && order !in st.httpOrder
    ensures var (r, st') := InsertHttp(settings, st, order, i);
            var response := settings.security.retag(settings.security.httpResponse(i.response));
            && (r.Refused? <==> st.finalized) && (r.BadBody? <==> !st.finalized && response.None?)
            && (!st.finalized && response.Some? ==>
                  && r == Inserted && Increasing(st'.httpOrder) && With(st.httpOrder, k, order, st'.httpOrder)
                  && With(st.cassette.http, k,
                          HttpInteraction(settings.security.httpRequest(i.request), response.value, i.recordedAt),
                          st'.cassette.http)
                  && With(st.cassette.played, k, st.cassette.recording, st'.cassette.played))
  {
    InsertHttpLists(settings, st, order, i);
    k := PartitionPoint(st.httpOrder, order);
  }

  lemma InsertGrpcIs(settings: Settings, st: State, order: nat, i: GrpcInteraction) returns (k: nat)
    requires Lists(st) && order !in st.grpcOrder
    ensures var (r, st') := InsertGrpc(settings, st, order, i);
            && (r.Refused? <==> st.finalized)
            && (!st.finalized ==>
                  && r == Inserted && Increasing(st'.grpcOrder) && With(st.grpcOrder, k, order, st'.grpcOrder)
                  && With(st.cassette.grpc, k,
                          GrpcInteraction(settings.security.grpcRequest(i.request), settings.security.grpcResponse(i.response),
                                          i.recordedAt),
                          st'.cassette.grpc)
                  && With(st.cassette.grpcPlayed, k, st.cassette.recording, st'.cassette.grpcPlayed))
  {
    InsertGrpcLists(settings, st, order, i);
    k := PartitionPoint(st.grpcOrder, order);
  }

  /** The recordings counted as having answered are those the callers got. */
  lemma AnsweringIs(settings: Settings, st: State, request: HttpRequest, grpc: GrpcRequest)
    requires Lists(st)
    ensures var action, answering := PrepareHttp(settings, st, request).0, Answering(settings, st, request);
            if action.Replayed?
            then exists k :: 0 <= k < |st.cassette.http| && answering == [st.httpOrder[k]] && action.value == st.cassette.http[k].response
            else answering == []
    ensures var action, answering := PrepareGrpc(settings, st, grpc).0, AnsweringGrpc(settings, st, grpc);
            if action.Replayed?
            then exists k :: 0 <= k < |st.cassette.grpc| && answering == [st.grpcOrder[k]] && action.value == st.cassette.grpc[k]
            else answering == []
  {
    ChoiceInRange(st.cassette, settings.security.httpRequest(request), settings.matching);
    GrpcChoiceInRange(st.cassette, settings.security.grpcRequest(grpc));
  }
}
