/** `cassette/mod.rs`: the interactions of one cassette, what has been played, and the lazily built index. */
module CassetteModel {
  import opened Matching
  import opened MethodUriIndex
  import opened Options
  import opened Protocol
  import opened Replay
  import opened Sorting

  datatype GrpcRequest = GrpcRequest(method_: string, metadata: Headers, body: BodyContent)
  datatype GrpcResponse = GrpcResponse(statusCode: int, statusMessage: string, metadata: Headers, body: BodyContent)
  datatype GrpcInteraction = GrpcInteraction(request: GrpcRequest, response: GrpcResponse, recordedAt: string)
  datatype WsInteraction = WsInteraction(uri: string, headers: Headers, recordedAt: string)

  /** What a cassette is to its callers; the index is not part of it. */
  datatype Contents = Contents(
    http: seq<HttpInteraction>, played: seq<bool>,
    grpc: seq<GrpcInteraction>, grpcPlayed: seq<bool>,
    ws: seq<WsInteraction>, recording: bool)
  {
    ghost predicate Aligned() {
      |played| == |http| && |grpcPlayed| == |grpc|
    }
  }

  function IndexKey(request: HttpRequest, upper: map<char, string>): string {
    ToUpper(request.method_, upper) + " " + request.uri
  }

  function IndexKeys(interactions: seq<HttpInteraction>, upper: map<char, string>): (r: seq<string>)
    ensures |r| == |interactions| && forall i :: 0 <= i < |r| ==> r[i] == IndexKey(interactions[i].request, upper)
  {
    seq(|interactions|, i requires 0 <= i < |interactions| => IndexKey(interactions[i].request, upper))
  }

  /** The full scan: the first unplayed interaction that matches, else the first that does unless recording. */
  function HttpChoice(c: Contents, request: HttpRequest, config: MatchConfig): Option<nat> {
    Choose(Candidates(Iota(|c.http|), c.http, request, config), PlayedSet(c.played), !c.recording)
  }

  function GrpcMatchAt(recorded: seq<GrpcInteraction>, request: GrpcRequest): nat -> bool {
    (i: nat) => i < |recorded| && recorded[i].request.method_ == request.method_ &&
                BodyMatch(request.body, recorded[i].request.body)
  }

  function GrpcChoice(c: Contents, request: GrpcRequest): Option<nat> {
    Choose(Filter(Iota(|c.grpc|), GrpcMatchAt(c.grpc, request)), PlayedSet(c.grpcPlayed), !c.recording)
  }

  function SetPlayed(played: seq<bool>, taken: Option<nat>): (r: seq<bool>)
    ensures |r| == |played|
    ensures taken.Some? && taken.value < |played| ==> PlayedSet(r) == PlayedSet(played) + {taken.value}
  {
    if taken.Some? && taken.value < |played| then played[taken.value := true] else played
  }

  function InsertAt<T>(s: seq<T>, position: nat, x: T): (r: seq<T>)
    requires position <= |s|
    ensures |r| == |s| + 1
    ensures forall i :: 0 <= i < |r| ==> r[i] == if i < position then s[i] else if i == position then x else s[i - 1]
  {
    s[..position] + [x] + s[position..]
  }

  lemma ChoiceInRange(c: Contents, request: HttpRequest, config: MatchConfig)
    ensures var taken := HttpChoice(c, request, config);
            taken.Some? ==> taken.value < |c.http| && Matches(request, c.http[taken.value].request, config)
  {
    var candidates := Candidates(Iota(|c.http|), c.http, request, config);
    assert candidates != [] ==> candidates[0] in candidates;
  }

  /** A recording can answer a gRPC request when the methods are the same and so are the bodies. */
  lemma GrpcChoiceIs(c: Contents, request: GrpcRequest)
    ensures Earliest(
              |c.grpc|,
              (i: nat) => i < |c.grpc| && c.grpc[i].request.method_ == request.method_ &&
                          SameContent(request.body, c.grpc[i].request.body),
              c.grpcPlayed, !c.recording, GrpcChoice(c, request))
  {
    forall i: nat | i < |c.grpc|
      ensures BodyMatch(request.body, c.grpc[i].request.body) <==> SameContent(request.body, c.grpc[i].request.body)
    {
      BodyMatchIff(request.body, c.grpc[i].request.body);
    }
    ChoiceIs(|c.grpc|, GrpcMatchAt(c.grpc, request),
             (i: nat) => i < |c.grpc| && c.grpc[i].request.method_ == request.method_ &&
                         SameContent(request.body, c.grpc[i].request.body),
             c.grpcPlayed, !c.recording);
  }

  lemma HttpChoiceIs(c: Contents, request: HttpRequest, config: MatchConfig)
    ensures Earliest(|c.http|, (i: nat) => i < |c.http| && Matches(request, c.http[i].request, config),
                     c.played, !c.recording, HttpChoice(c, request, config))
  {
    ChoiceIs(|c.http|, MatchAt(c.http, request, config),
             (i: nat) => i < |c.http| && Matches(request, c.http[i].request, config), c.played, !c.recording);
  }

  /** Spelling header names in another letter case gets the same answer. */
  lemma RecasingChangesNothing(c: Contents, a: HttpRequest, b: HttpRequest, config: MatchConfig)
    requires b == a.(headers := b.headers) && Recased(a.headers, b.headers)
    requires AsciiNames(a.headers) && NamesApart(a.headers) && forall i | i in c.http :: AsciiNames(i.request.headers)
    ensures HttpChoice(c, a, config) == HttpChoice(c, b, config)
  {
    forall i: nat | i in Iota(|c.http|) ensures MatchAt(c.http, a, config)(i) == MatchAt(c.http, b, config)(i) {
      assert c.http[i] in c.http;
      RecasedMatches(a, b, c.http[i].request, config);
    }
    FilterAgree(Iota(|c.http|), MatchAt(c.http, a, config), MatchAt(c.http, b, config));
  }

  lemma GrpcChoiceInRange(c: Contents, request: GrpcRequest)
    ensures var taken := GrpcChoice(c, request);
            taken.Some? ==> taken.value < |c.grpc| && c.grpc[taken.value].request.method_ == request.method_
  {
    var candidates := Filter(Iota(|c.grpc|), GrpcMatchAt(c.grpc, request));
    assert candidates != [] ==> candidates[0] in candidates;
  }

  /** Every match carries the looked-up key, so narrowing by the index loses none. */
  lemma IndexKeepsMatches(
      interactions: seq<HttpInteraction>, index: Index, request: HttpRequest, config: MatchConfig)
    requires Indexes(index, IndexKeys(interactions, config.upper)) && config.UsesMethodUriIndex()
    ensures Filter(Lookup(index, IndexKey(request, config.upper)), MatchAt(interactions, request, config)) ==
            Candidates(Iota(|interactions|), interactions, request, config)
  {
    var keys := IndexKeys(interactions, config.upper);
    forall i: nat | i < |keys| && MatchAt(interactions, request, config)(i)
      ensures keys[i] == IndexKey(request, config.upper)
    {
      assert FieldMatches(request, interactions[i].request, ByMethod, config);
      assert FieldMatches(request, interactions[i].request, ByUri, config);
      SameUpper(request.method_, interactions[i].request.method_, config.upper);
    }
    LookupCovers(index, keys, IndexKey(request, config.upper), MatchAt(interactions, request, config));
  }

  class Cassette {
    const upper: map<char, string>
    var interactions: seq<HttpInteraction>
    var playedIndices: seq<bool>
    var grpcInteractions: seq<GrpcInteraction>
    var grpcPlayed: seq<bool>
    var wsInteractions: seq<WsInteraction>
    var index: Option<Index>
    var recording: bool

    /** The cached index is absent or the one `build` would make of the current interactions. */
    ghost predicate Valid()
      reads this
    {
      View().Aligned() && (index.Some? ==> Indexes(index.value, IndexKeys(interactions, upper)))
    }

    ghost function View(): Contents
      reads this
    {
      Contents(interactions, playedIndices, grpcInteractions, grpcPlayed, wsInteractions, recording)
    }

    constructor (upper: map<char, string>)
      ensures Valid() && this.upper == upper
      ensures View() == Contents([], [], [], [], [], false)
    {
      this.upper := upper;
      interactions, playedIndices := [], [];
      grpcInteractions, grpcPlayed, wsInteractions := [], [], [];
      index, recording := None, false;
    }

    /** `from_raw`: a cassette as loaded from disk, nothing played. */
    constructor Loaded(
        upper: map<char, string>, http: seq<HttpInteraction>, grpc: seq<GrpcInteraction>, ws: seq<WsInteraction>)
      ensures Valid() && this.upper == upper
      ensures View() == Contents(http, seq(|http|, _ => false), grpc, seq(|grpc|, _ => false), ws, false)
    {
      this.upper := upper;
      interactions, playedIndices := http, seq(|http|, _ => false);
      grpcInteractions, grpcPlayed, wsInteractions := grpc, seq(|grpc|, _ => false), ws;
      index, recording := None, false;
    }

    method SetRecording(recording: bool)
      requires Valid()
      modifies this
      ensures Valid() && View() == old(View()).(recording := recording)
    {
      this.recording := recording;
    }

    method SetInteractions(interactions: seq<HttpInteraction>)
      requires Valid()
      modifies this
      ensures Valid() && View() == old(View()).(http := interactions, played := seq(|interactions|, _ => false))
    {
      playedIndices := seq(|interactions|, _ => false);
      this.interactions := interactions;
      index := None;
    }

    method AddInteraction(interaction: HttpInteraction)
      requires Valid()
      modifies this
      ensures Valid()
      ensures View() == old(View()).(http := old(interactions) + [interaction], played := old(playedIndices) + [recording])
    {
      interactions := interactions + [interaction];
      playedIndices := playedIndices + [recording];
      index := None;
    }

    method InsertInteraction(position: nat, interaction: HttpInteraction) returns (ok: bool)
      requires Valid()
      modifies this
      ensures Valid() && ok == (position <= |old(interactions)|)
      ensures View() == if !ok then old(View()) else
                old(View()).(http := InsertAt(old(interactions), position, interaction),
                             played := InsertAt(old(playedIndices), position, recording))
    {
      if position > |interactions| {
        return false;
      }
      interactions := InsertAt(interactions, position, interaction);
      playedIndices := InsertAt(playedIndices, position, recording);
      index := None;
      return true;
    }

    method InsertGrpcInteraction(position: nat, interaction: GrpcInteraction) returns (ok: bool)
      requires Valid()
      modifies this
      ensures Valid() && ok == (position <= |old(grpcInteractions)|)
      ensures View() == if !ok then old(View()) else
                old(View()).(grpc := InsertAt(old(grpcInteractions), position, interaction),
                             grpcPlayed := InsertAt(old(grpcPlayed), position, recording))
    {
      if position > |grpcInteractions| {
        return false;
      }
      grpcInteractions := InsertAt(grpcInteractions, position, interaction);
      grpcPlayed := InsertAt(grpcPlayed, position, recording);
      return true;
    }

    method MarkPlayed(position: nat) returns (ok: bool)
      requires Valid()
      modifies this
      ensures Valid() && ok == (position < |old(playedIndices)|)
      ensures View() == old(View()).(played := SetPlayed(old(playedIndices), Some(position)))
    {
      if position >= |playedIndices| {
        return false;
      }
      playedIndices := playedIndices[position := true];
      return true;
    }

    /** Find-then-mark. Whether or not the index is used, the answer is the one of the full scan. */
    method TakeMatch(request: HttpRequest, config: MatchConfig) returns (taken: Option<(nat, HttpInteraction)>)
      requires Valid() && config.upper == upper
      modifies this
      ensures Valid()
      ensures var http := old(interactions);
              Earliest(|http|, (i: nat) => i < |http| && Matches(request, http[i].request, config),
                       old(playedIndices), !old(recording), if taken.Some? then Some(taken.value.0) else None)
      ensures var choice := HttpChoice(old(View()), request, config);
              && View() == old(View()).(played := SetPlayed(old(playedIndices), choice))
              && taken == match choice
                 case None => None
                 case Some(i) => if i < |interactions| then Some((i, interactions[i])) else None
    {
      hide Filter;
      hide Choose;
      hide Matches;
      if config.UsesMethodUriIndex() && index.None? {
        var keys: seq<string> := [];
        for i := 0 to |interactions|
          invariant keys == IndexKeys(interactions, upper)[..i]
        {
          keys := keys + [IndexKey(interactions[i].request, upper)];
        }
        assert keys == IndexKeys(interactions, upper);
        var built := Build(keys);
        index := Some(built);
      }
      var candidates := Iota(|interactions|);
      if config.UsesMethodUriIndex() && index.Some? {
        candidates := Lookup(index.value, IndexKey(request, upper));
        IndexKeepsMatches(interactions, index.value, request, config);
      }
      var choice := Pick(candidates, playedIndices, !recording, MatchAt(interactions, request, config));
      ChoiceInRange(View(), request, config);
      HttpChoiceIs(View(), request, config);
      if choice.None? {
        return None;
      }
      playedIndices := SetPlayed(playedIndices, choice);
      return Some((choice.value, interactions[choice.value]));
    }

    method TakeGrpcRequestMatch(request: GrpcRequest) returns (taken: Option<(nat, GrpcInteraction)>)
      requires Valid()
      modifies this
      ensures Valid()
      ensures var grpc := old(grpcInteractions);
              Earliest(|grpc|, (i: nat) => i < |grpc| && grpc[i].request.method_ == request.method_ &&
                                           SameContent(request.body, grpc[i].request.body),
                       old(grpcPlayed), !old(recording), if taken.Some? then Some(taken.value.0) else None)
      ensures var choice := GrpcChoice(old(View()), request);
              && View() == old(View()).(grpcPlayed := SetPlayed(old(grpcPlayed), choice))
              && taken == match choice
                 case None => None
                 case Some(i) => if i < |grpcInteractions| then Some((i, grpcInteractions[i])) else None
    {
      var choice := Pick(Iota(|grpcInteractions|), grpcPlayed, !recording, GrpcMatchAt(grpcInteractions, request));
      GrpcChoiceInRange(View(), request);
      GrpcChoiceIs(View(), request);
      if choice.None? {
        return None;
      }
      grpcPlayed := SetPlayed(grpcPlayed, choice);
      return Some((choice.value, grpcInteractions[choice.value]));
    }
  }
}
