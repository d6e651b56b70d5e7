/** The Python `Cassette` class around its inner Rust cassette and the mirror it matches against. */
module PythonModel {
  import opened CassetteModel
  import opened Matching
  import opened NormalizedMirror
  import opened Options
  import opened Ordering
  import opened Protocol
  import opened RecordOrders
  import opened Replay
  import opened Sorting

  datatype SavedFile = SavedFile(
    http: seq<HttpInteraction>, grpc: seq<GrpcInteraction>, ws: seq<WsInteraction>, observed: seq<HttpRequest>)

  class PythonCassette {
    const config: MatchConfig
    const normalizer: Normalizer
    const scrubRequest: HttpRequest -> HttpRequest
    const scrub: HttpInteraction -> HttpInteraction
    const canRecord: bool
    const verifies: bool
    const inner: Cassette
    const matchInner: Cassette
    var recordOrders: seq<nat>
    var nextRecordOrder: nat
    var playCounter: multiset<nat>
    var dirty: bool
    /** Requests observed in this session, kept to compare in `verify` mode. */
    var observed: seq<HttpRequest>
    /** Observed requests the inner cassette holds. */
    var observedStored: seq<HttpRequest>

    /** Index for index, the mirror is the normalized copy of the inner cassette with equal played flags. Without a
        normalizer there is no mirror, which is modelled as the inner cassette standing for it. */
    ghost predicate Valid()
      reads this, inner, matchInner
    {
      && inner.Valid() && matchInner.Valid() && inner.upper == config.upper == matchInner.upper
      && (normalizer.None? <==> matchInner == inner)
      && matchInner.View().http == Compared(normalizer, inner.View().http)
      && matchInner.View().played == inner.View().played
      && inner.View().recording == canRecord == matchInner.View().recording
      && |recordOrders| == |inner.View().http|
    }

    /** What claiming and recording change, as runs see it. */
    ghost function Book(): Book
      reads this, inner
    {
      RecordOrders.Book.Book(inner.View().http, recordOrders, nextRecordOrder)
    }

    /** `load`: what the file holds, nothing if there is none, and nothing of it in the discarding modes. */
    constructor Load(
        config: MatchConfig, normalizer: Normalizer, scrubRequest: HttpRequest -> HttpRequest,
        scrub: HttpInteraction -> HttpInteraction, canRecord: bool, verifies: bool, discards: bool,
        http: seq<HttpInteraction>, grpc: seq<GrpcInteraction>, ws: seq<WsInteraction>, requests: seq<HttpRequest>)
      ensures Valid() && fresh(inner) && fresh(matchInner)
      ensures this.config == config && this.normalizer == normalizer
      ensures this.canRecord == canRecord && this.verifies == verifies
      ensures inner.View() == if discards then Contents([], [], [], [], [], canRecord)
                              else Contents(http, seq(|http|, _ => false), grpc, seq(|grpc|, _ => false), ws, canRecord)
      ensures Book() == LoadedBook(if discards then [] else http)
      ensures dirty == discards && playCounter == multiset{} && observed == []
      ensures observedStored == if discards then [] else requests
    {
      var kept := if discards then [] else http;
      var loaded;
      if discards {
        loaded := new Cassette(config.upper);
      } else {
        loaded := new Cassette.Loaded(config.upper, http, grpc, ws);
      }
      var mirror := loaded;
      if normalizer.Some? {
        mirror := new Cassette(config.upper);
        mirror.SetInteractions(Compared(normalizer, kept));
        mirror.SetRecording(canRecord);
      }
      loaded.SetRecording(canRecord);
      ComparedWithout(kept);
      this.config, this.normalizer, this.canRecord, this.verifies := config, normalizer, canRecord, verifies;
      this.scrubRequest, this.scrub := scrubRequest, scrub;
      inner, matchInner := loaded, mirror;
      recordOrders, nextRecordOrder := Iota(|kept|), |kept|;
      playCounter, dirty := multiset{}, discards;
      observed, observedStored := [], if discards then [] else requests;
    }

    method ReserveRecordOrder() returns (order: nat)
      requires Valid()
      modifies this`nextRecordOrder
      ensures Valid() && (order, Book()) == Claim(old(Book()))
    {
      order := nextRecordOrder;
      nextRecordOrder := nextRecordOrder + 1;
    }

    /** `match`: the answer is the one of scanning the inner cassette with both sides normalized. */
    method Match(request: HttpRequest) returns (r: Option<(nat, HttpResponse)>)
      requires Valid()
      modifies this`playCounter, inner, matchInner
      ensures Valid()
      ensures var before := old(inner.View());
              Earliest(|before.http|, Answering(normalizer, before.http, scrubRequest(request), config), before.played,
                       !before.recording, if r.Some? then Some(r.value.0) else None)
      ensures var before := old(inner.View());
              var choice := NormalizedChoice(normalizer, before, scrubRequest(request), config);
              && inner.View() == before.(played := SetPlayed(before.played, choice))
              && r == (match choice case None => None case Some(i) => Some((i, before.http[i].response)))
              && playCounter == old(playCounter) + (match choice case None => multiset{} case Some(i) => multiset{i})
    {
      NormalizedChoiceIs(normalizer, inner.View(), scrubRequest(request), config);
      var probe := NormalizedRequest(normalizer, scrubRequest(request));
      var taken := matchInner.TakeMatch(probe, config);
      if taken.None? {
        return None;
      }
      var (i, interaction) := taken.value;
      if normalizer.Some? {
        var marked := inner.MarkPlayed(i);
      }
      playCounter := playCounter + multiset{i};
      return Some((i, interaction.response));
    }

    /** The locked part of `record`, for an interaction that was claimed a place or takes the next one. */
    method Record(interaction: HttpInteraction, claimed: Option<nat>)
      requires Valid()
      modifies this`recordOrders, this`nextRecordOrder, this`dirty, inner, matchInner
      ensures Valid() && dirty
      ensures Book() == Entered(old(Book()), scrub(interaction), claimed)
      ensures var before := old(inner.View());
              inner.View() == before.(http := before.http + [scrub(interaction)], played := before.played + [canRecord])
    {
      var order: nat;
      if claimed.Some? {
        order := claimed.value;
      } else {
        order := ReserveRecordOrder();
      }
      var stored := scrub(interaction);
      inner.AddInteraction(stored);
      recordOrders := recordOrders + [order];
      if normalizer.Some? {
        matchInner.AddInteraction(NormalizedCopy(normalizer, stored));
      }
      dirty := true;
    }

    /** `observe`: a request is kept to compare, stored, or ignored, as the mode has it. */
    method Observe(request: HttpRequest)
      requires Valid()
      modifies this`observed, this`observedStored, this`dirty
      ensures Valid()
      ensures observed == old(observed) + if verifies then [scrubRequest(request)] else []
      ensures observedStored == old(observedStored) + if !verifies && canRecord then [scrubRequest(request)] else []
      ensures dirty == (old(dirty) || (!verifies && canRecord))
    {
      if !(verifies || canRecord) {
        return;
      }
      var scrubbed := scrubRequest(request);
      if verifies {
        observed := observed + [scrubbed];
        return;
      }
      observedStored := observedStored + [scrubbed];
      dirty := true;
    }

    /** `save`: what a successful write leaves in the file, if one is due. */
    method Save(exists_: bool, writes: bool) returns (file: Option<SavedFile>)
      requires Valid()
      modifies this`dirty
      ensures Valid()
      ensures var due := SaveDue(old(dirty), exists_);
              && dirty == (old(dirty) && !(due && writes))
              && file == if due && writes
                         then Some(SavedFile(Saved(normalizer, inner.interactions, recordOrders, config),
                                             inner.grpcInteractions, inner.wsInteractions, observedStored))
                         else None
    {
      var count := |inner.interactions| + |inner.grpcInteractions| + |inner.wsInteractions| +
                   |observedStored|;
      if !dirty || !(count > 0 || exists_) {
        return None;
      }
      var order := OutputOrder(matchInner.interactions, Some(config), recordOrders);
      if !writes {
        return None;
      }
      file := Some(SavedFile(Arranged(inner.interactions, order), inner.grpcInteractions, inner.wsInteractions,
                             observedStored));
      dirty := false;
    }

    /** An empty cassette is written only over a file that exists. */
    ghost predicate SaveDue(wasDirty: bool, exists_: bool)
      reads this, inner
    {
      wasDirty && (exists_ || inner.interactions != [] || inner.grpcInteractions != [] || inner.wsInteractions != [] ||
                   observedStored != [])
    }
  }
}
