/** What `VCRWebSocketReplay` makes of the recorded frames, and how the resulting script is played, strictly when the
    cassette matches on bodies. */
module WebSocketScript {
  import opened Matching
  import opened Options
  import opened Protocol
  import opened Sorting

  datatype Direction = Send | Recv
  datatype WsFrame = WsFrame(direction: Direction, frameType: string, body: BodyContent, offsetMs: nat)

  predicate IsSend(f: WsFrame) { f.direction.Send? }
  predicate IsRecv(f: WsFrame) { f.direction.Recv? }
  predicate IsClose(f: WsFrame) { f.direction.Recv? && f.frameType == "close" }

  /** Two frames with the same type and body. */
  predicate SameFrame(actual: WsFrame, recorded: WsFrame) {
    actual.frameType == recorded.frameType && BodyMatch(actual.body, recorded.body)
  }

  lemma SameFrameReflexive(f: WsFrame)
    ensures SameFrame(f, f)
  {
    BodyMatchesItself(f.body);
  }

  /** Frames match when they have the same type and the same content, whoever sent them and whenever. */
  lemma SameFrameIff(a: WsFrame, b: WsFrame)
    ensures SameFrame(a, b) <==> a.frameType == b.frameType && SameContent(a.body, b.body)
  {
    BodyMatchIff(a.body, b.body);
  }

  /** The frames before the first close received. */
  function Live(frames: seq<WsFrame>): (r: seq<WsFrame>)
    ensures r <= frames && (forall f | f in r :: !IsClose(f))
    ensures |r| < |frames| ==> IsClose(frames[|r|])
  {
    if frames == [] || IsClose(frames[0]) then [] else [frames[0]] + Live(frames[1..])
  }

  function Sends(live: seq<WsFrame>): seq<WsFrame> { Filter(live, f => IsSend(f)) }
  function Recvs(live: seq<WsFrame>): seq<WsFrame> { Filter(live, f => IsRecv(f)) }

  /** For each received frame, how many sends stand before it. */
  function SendsBefore(live: seq<WsFrame>): seq<nat> {
    if live == [] then []
    else
      var front, last := live[..|live| - 1], live[|live| - 1];
      SendsBefore(front) + if IsRecv(last) then [|Sends(front)|] else []
  }

  datatype Script = Script(sends: seq<WsFrame>, recvs: seq<WsFrame>, sendsBefore: seq<nat>, close: Option<WsFrame>)

  function ScriptOf(frames: seq<WsFrame>): Script {
    var live := Live(frames);
    Script(Sends(live), Recvs(live), SendsBefore(live) + [|Sends(live)|],
           if |live| < |frames| then Some(frames[|live|]) else None)
  }

  lemma Extended(front: seq<WsFrame>, f: WsFrame)
    ensures Sends(front + [f]) == Sends(front) + if f.direction.Send? then [f] else []
    ensures Recvs(front + [f]) == Recvs(front) + if f.direction.Recv? then [f] else []
    ensures SendsBefore(front + [f]) == SendsBefore(front) + if f.direction.Recv? then [|Sends(front)|] else []
  {
    FilterSnoc(front, f, f => IsSend(f));
    FilterSnoc(front, f, f => IsRecv(f));
    assert (front + [f])[..|front|] == front;
  }

  lemma NoFrames()
    ensures Sends([]) == [] && Recvs([]) == [] && SendsBefore([]) == []
  {}

  lemma {:induction false} LiveOf(frames: seq<WsFrame>, n: nat)
    requires n <= |frames| && (forall f | f in frames[..n] :: !IsClose(f))
    requires n < |frames| ==> IsClose(frames[n])
    ensures Live(frames) == frames[..n]
  {
    if n > 0 {
      assert frames[0] in frames[..n];
      assert frames[1..][..n - 1] == frames[..n][1..];
      LiveOf(frames[1..], n - 1);
    }
  }

  /** The script is made of the frames before the first close the server sent. */
  lemma LiveIs(frames: seq<WsFrame>)
    ensures var n, close := |Live(frames)|, ScriptOf(frames).close;
            && Live(frames) == frames[..n]
            && (forall i :: 0 <= i < n ==> !(frames[i].direction.Recv? && frames[i].frameType == "close"))
            && (n < |frames| ==> frames[n].direction.Recv? && frames[n].frameType == "close" && close == Some(frames[n]))
            && (n == |frames| ==> close == None)
  {
    var n := |Live(frames)|;
    assert forall i :: 0 <= i < n ==> frames[i] == Live(frames)[i] && Live(frames)[i] in Live(frames);
  }

  /** One count per received frame; the counts never decrease nor exceed the number of sends. */
  lemma {:induction false} CountsGrow(live: seq<WsFrame>)
    ensures |SendsBefore(live)| == |Recvs(live)|
    ensures forall i, j :: 0 <= i <= j < |SendsBefore(live)| ==> SendsBefore(live)[i] <= SendsBefore(live)[j] <= |Sends(live)|
  {
    if live != [] {
      var front, last := live[..|live| - 1], live[|live| - 1];
      assert live == front + [last];
      CountsGrow(front);
      Extended(front, last);
    }
  }

  /** The frame at `p` is the next send or the next receive after what stands before it, and carries its send count. */
  lemma {:induction false} Positions(live: seq<WsFrame>, p: nat)
    requires p < |live|
    ensures var sent, received := |Sends(live[..p])|, |Recvs(live[..p])|;
            && |SendsBefore(live)| == |Recvs(live)|
            && (IsSend(live[p]) ==> sent < |Sends(live)| && Sends(live)[sent] == live[p])
            && (IsRecv(live[p]) ==>
                  received < |Recvs(live)| && Recvs(live)[received] == live[p] && SendsBefore(live)[received] == sent)
  {
    var front, last := live[..|live| - 1], live[|live| - 1];
    assert live == front + [last];
    Extended(front, last);
    CountsGrow(front);
    CountsGrow(live);
    if p < |front| {
      Positions(front, p);
      assert front[..p] == live[..p];
    } else {
      assert live[..p] == front;
    }
  }

  // --- Playing the script ---

  /** Why a connection ended: the close status and whether the client started it. */
  datatype Ending = Ending(code: nat, reason: seq<nat>, byClient: bool)

  datatype Progress = Progress(sent: nat, received: nat, closed: Option<Ending>)

  datatype SendResult = Accepted | Ignored | NoSuchSend | SendMismatch | SendClosed(ending: Ending)
  datatype RecvResult = Waits | Delivered(frame: WsFrame) | RecvClosed(ending: Ending) | BadClose
  datatype CloseResult = Closed | Unsent(count: nat)

  const START := Progress(0, 0, None)

  /** `actual` is the frame as it would be recorded, unless a hook skips it. */
  function SendStep(s: Script, strict: bool, p: Progress, actual: Option<WsFrame>): (SendResult, Progress) {
    if p.closed.Some? then (SendClosed(p.closed.value), p)
    else if !strict || actual.None? then (Ignored, p)
    else if p.sent >= |s.sends| then (NoSuchSend, p)
    else if !SameFrame(actual.value, s.sends[p.sent]) then (SendMismatch, p)
    else (Accepted, p.(sent := p.sent + 1))
  }

  /** How many bytes a UTF-8 character takes, with the range its second byte must lie in (table 3-7 of the Unicode
      standard, Well-Formed UTF-8 Byte Sequences), or 0 for a byte that cannot begin one. */
  function Utf8Head(first: nat): (nat, nat, nat) {
    if first < 0x80 then (1, 0, 0)
    else if 0xC2 <= first <= 0xDF then (2, 0x80, 0xBF)
    else if first == 0xE0 then (3, 0xA0, 0xBF)
    else if first == 0xED then (3, 0x80, 0x9F)
    else if 0xE1 <= first <= 0xEF then (3, 0x80, 0xBF)
    else if first == 0xF0 then (4, 0x90, 0xBF)
    else if 0xF1 <= first <= 0xF3 then (4, 0x80, 0xBF)
    else if first == 0xF4 then (4, 0x80, 0x8F)
    else (0, 0, 0)
  }

  /** The bytes decode as UTF-8. */
  predicate Utf8(bytes: seq<nat>) {
    bytes == [] ||
    var (length, low, high) := Utf8Head(bytes[0]);
    && 0 < length <= |bytes| && (length > 1 ==> low <= bytes[1] <= high)
    && (forall i :: 2 <= i < length ==> 0x80 <= bytes[i] <= 0xBF) && Utf8(bytes[length..])
  }

  /** The code points that are characters: all but surrogates, up to U+10FFFF. */
  predicate Scalar(n: nat) {
    n < 0xD800 || 0xE000 <= n < 0x110000
  }

  /** A character in UTF-8 (section 3 of RFC 3629). */
  function Encoded(n: nat): seq<nat>
    requires Scalar(n)
  {
    if n < 0x80 then [n]
    else if n < 0x800 then [0xC0 + n / 64, 0x80 + n % 64]
    else if n < 0x10000 then [0xE0 + n / 4096, 0x80 + n / 64 % 64, 0x80 + n % 64]
    else [0xF0 + n / 262144, 0x80 + n / 4096 % 64, 0x80 + n / 64 % 64, 0x80 + n % 64]
  }

  function EncodedAll(text: seq<nat>): seq<nat>
    requires forall n | n in text :: Scalar(n)
  {
    if text == [] then [] else Encoded(text[0]) + EncodedAll(text[1..])
  }

  lemma EncodedHead(n: nat)
    requires Scalar(n)
    ensures var e := Encoded(n);
            var (length, low, high) := Utf8Head(e[0]);
            && length == |e| && (length > 1 ==> low <= e[1] <= high)
            && forall i :: 2 <= i < length ==> 0x80 <= e[i] <= 0xBF
  {
    if 0x800 <= n < 0x10000 {
      assert n / 4096 == 0 ==> n / 64 % 64 >= 32;
      assert n / 4096 == 13 ==> n / 64 % 64 < 32;
    } else if n >= 0x10000 {
      assert n / 262144 == 0 ==> n / 4096 % 64 >= 16;
      assert n / 262144 == 4 ==> n / 4096 % 64 < 16;
    }
  }

  /** The parts of six bits of a number. */
  lemma SixBits(w: nat, x: nat, y: nat, z: nat)
    requires x < 64 && y < 64 && z < 64
    ensures var n := ((w * 64 + x) * 64 + y) * 64 + z;
            n % 64 == z && n / 64 % 64 == y && n / 4096 % 64 == x && n / 262144 == w && n / 4096 == w * 64 + x
  {
    var m := (w * 64 + x) * 64 + y;
    var n := m * 64 + z;
    assert n / 64 == m && n % 64 == z;
    assert m / 64 == w * 64 + x && m % 64 == y;
    assert n / 4096 == n / 64 / 64 && n / 262144 == n / 4096 / 64;
  }

  lemma DecodedHead(b: seq<nat>) returns (n: nat)
    requires b != [] && Utf8Head(b[0]).0 == |b| && (|b| > 1 ==> Utf8Head(b[0]).1 <= b[1] <= Utf8Head(b[0]).2)
    requires forall i :: 2 <= i < |b| ==> 0x80 <= b[i] <= 0xBF
    ensures Scalar(n) && Encoded(n) == b
  {
    if |b| == 1 {
      n := b[0];
    } else if |b| == 2 {
      n := (b[0] - 0xC0) * 64 + (b[1] - 0x80);
      assert b == [b[0], b[1]];
    } else if |b| == 3 {
      n := DecodedThree(b[0] - 0xE0, b[1] - 0x80, b[2] - 0x80);
      assert b == [b[0], b[1], b[2]];
    } else {
      n := DecodedFour(b[0] - 0xF0, b[1] - 0x80, b[2] - 0x80, b[3] - 0x80);
      assert b == [b[0], b[1], b[2], b[3]];
    }
  }

  lemma DecodedThree(x: nat, y: nat, z: nat) returns (n: nat)
    requires x < 16 && y < 64 && z < 64 && (x == 0 ==> y >= 32) && (x == 13 ==> y < 32)
    ensures Scalar(n) && Encoded(n) == [0xE0 + x, 0x80 + y, 0x80 + z]
  {
    n := (x * 64 + y) * 64 + z;
    SixBits(0, x, y, z);
    assert n / 4096 == x;
  }

  lemma DecodedFour(w: nat, x: nat, y: nat, z: nat) returns (n: nat)
    requires w < 5 && x < 64 && y < 64 && z < 64 && (w == 0 ==> x >= 16) && (w == 4 ==> x < 16)
    ensures Scalar(n) && Encoded(n) == [0xF0 + w, 0x80 + x, 0x80 + y, 0x80 + z]
  {
    n := ((w * 64 + x) * 64 + y) * 64 + z;
    SixBits(w, x, y, z);
  }

  lemma {:induction false} EncodedIsUtf8(text: seq<nat>)
    requires forall n | n in text :: Scalar(n)
    ensures Utf8(EncodedAll(text))
  {
    if text != [] {
      EncodedIsUtf8(text[1..]);
      assert text[0] in text;
      EncodedHead(text[0]);
      var e, rest := Encoded(text[0]), EncodedAll(text[1..]);
      assert forall i :: 0 <= i < |e| ==> (e + rest)[i] == e[i];
      assert (e + rest)[|e|..] == rest;
    }
  }

  lemma Utf8First(bytes: seq<nat>) returns (length: nat, n: nat)
    requires Utf8(bytes) && bytes != []
    ensures 0 < length <= |bytes| && Utf8(bytes[length..])
    ensures Scalar(n) && Encoded(n) == bytes[..length]
  {
    length := Utf8Head(bytes[0]).0;
    var head := bytes[..length];
    assert head[0] == bytes[0] && (length > 1 ==> head[1] == bytes[1]);
    hide Encoded;
    n := DecodedHead(head);
  }

  lemma {:induction false} Utf8IsEncoded(bytes: seq<nat>) returns (text: seq<nat>)
    requires Utf8(bytes)
    ensures (forall n | n in text :: Scalar(n)) && EncodedAll(text) == bytes
    decreases |bytes|
  {
    hide Utf8;
    hide Encoded;
    hide Scalar;
    if bytes == [] {
      return [];
    }
    var length, n := Utf8First(bytes);
    var rest := Utf8IsEncoded(bytes[length..]);
    text := [n] + rest;
    EncodedCons(n, rest);
    assert bytes == bytes[..length] + bytes[length..];
  }

  lemma EncodedCons(n: nat, rest: seq<nat>)
    requires Scalar(n) && forall m | m in rest :: Scalar(m)
    ensures (forall m | m in [n] + rest :: Scalar(m)) && EncodedAll([n] + rest) == Encoded(n) + EncodedAll(rest)
  {
    assert ([n] + rest)[1..] == rest;
  }

  /** Bytes decode exactly when they are some characters in UTF-8. */
  lemma Utf8Iff(bytes: seq<nat>)
    ensures Utf8(bytes) <==> exists text: seq<nat> :: (forall n | n in text :: Scalar(n)) && EncodedAll(text) == bytes
  {
    if Utf8(bytes) {
      var text := Utf8IsEncoded(bytes);
    }
    if text: seq<nat> :| (forall n | n in text :: Scalar(n)) && EncodedAll(text) == bytes {
      EncodedIsUtf8(text);
    }
  }

  function RecordedEnding(close: Option<WsFrame>): Option<Ending> {
    match close
    case None => Some(Ending(1000, [], false))
    case Some(frame) =>
      var data := if frame.body.BinaryBody? then frame.body.bytes else [];
      if |data| < 2 || !Utf8(data[2..]) then None else Some(Ending(data[0] * 256 + data[1], data[2..], false))
  }

  /** A recorded close is read as a two-byte status, high byte first, and a reason; too short or not UTF-8 is an error. */
  lemma RecordedEndingIs(close: WsFrame, hi: nat, lo: nat, reason: seq<nat>)
    ensures close.body == BinaryBody([hi, lo] + reason) ==>
              RecordedEnding(Some(close)) == if Utf8(reason) then Some(Ending(256 * hi + lo, reason, false)) else None
    ensures (close.body.BinaryBody? && |close.body.bytes| < 2) || !close.body.BinaryBody? ==> RecordedEnding(Some(close)) == None
    ensures RecordedEnding(None) == Some(Ending(1000, [], false))
  {
    assert ([hi, lo] + reason)[2..] == reason;
  }

  predicate MayReceive(s: Script, p: Progress) {
    p.closed.Some? || (p.received < |s.sendsBefore| && p.sent >= s.sendsBefore[p.received])
  }

  function RecvStep(s: Script, strict: bool, p: Progress): (RecvResult, Progress) {
    if strict && !MayReceive(s, p) then (Waits, p)
    else if p.closed.Some? then (RecvClosed(p.closed.value), p)
    else if p.received >= |s.recvs| then
      var ending := RecordedEnding(s.close);
      if ending.None? then (BadClose, p) else (RecvClosed(ending.value), p.(closed := ending))
    else (Delivered(s.recvs[p.received]), p.(received := p.received + 1))
  }

  function CloseStep(s: Script, strict: bool, p: Progress, code: nat, reason: seq<nat>): (CloseResult, Progress) {
    (if strict && p.sent < |s.sends| then Unsent(|s.sends| - p.sent) else Closed,
     p.(closed := if p.closed.None? then Some(Ending(code, reason, true)) else p.closed))
  }

  datatype Action = DoSend(actual: Option<WsFrame>) | DoRecv | DoClose(code: nat, reason: seq<nat>)
  datatype Effect = Sent(frame: WsFrame) | Got(frame: WsFrame)

  function Act(s: Script, strict: bool, p: Progress, a: Action): (seq<Effect>, Progress) {
    match a
    case DoSend(actual) =>
      var (r, q) := SendStep(s, strict, p, actual);
      (if r.Accepted? && actual.Some? then [Sent(actual.value)] else [], q)
    case DoRecv =>
      var (r, q) := RecvStep(s, strict, p);
      (if r.Delivered? then [Got(r.frame)] else [], q)
    case DoClose(code, reason) => ([], CloseStep(s, strict, p, code, reason).1)
  }

  /** The sends accepted and frames delivered, in the order they happened, and where the connection then stands. */
  function Play(s: Script, strict: bool, p: Progress, actions: seq<Action>): (seq<Effect>, Progress)
    decreases |actions|
  {
    if actions == [] then ([], p)
    else
      var (effects, q) := Act(s, strict, p, actions[0]);
      var (more, end) := Play(s, strict, q, actions[1..]);
      (effects + more, end)
  }

  function FrameOf(e: Effect): WsFrame { e.frame }

  function Accepts(log: seq<Effect>): seq<WsFrame> {
    Map(FrameOf, Filter(log, (e: Effect) => e.Sent?))
  }

  function Deliveries(log: seq<Effect>): seq<WsFrame> {
    Map(FrameOf, Filter(log, (e: Effect) => e.Got?))
  }

  lemma MapAppend<A, B>(f: A -> B, a: seq<A>, b: seq<A>)
    ensures Map(f, a + b) == Map(f, a) + Map(f, b)
  {}

  /** Each delivery finds as many sends accepted before it as the recording has. */
  ghost predicate InOrder(s: Script, log: seq<Effect>) {
    forall i {:trigger log[i]} :: 0 <= i < |log| && log[i].Got? ==> Timely(s, log[..i])
  }

  ghost predicate Timely(s: Script, before: seq<Effect>) {
    var k := |Deliveries(before)|;
    k < |s.sendsBefore| && s.sendsBefore[k] <= |Accepts(before)|
  }

  ghost predicate PrefixMatch(actual: seq<WsFrame>, recorded: seq<WsFrame>) {
    |actual| <= |recorded| && forall i :: 0 <= i < |actual| ==> SameFrame(actual[i], recorded[i])
  }

  /** Progress counts what the log shows; accepted sends and deliveries are prefixes of the recording. */
  ghost predicate Follows(s: Script, strict: bool, log: seq<Effect>, p: Progress) {
    && p.received <= |s.recvs| < |s.sendsBefore|
    && Deliveries(log) == s.recvs[..p.received]
    && p.sent <= |s.sends| && |Accepts(log)| == p.sent && PrefixMatch(Accepts(log), s.sends)
    && (strict ==> InOrder(s, log)) && (!strict ==> p.sent == 0)
  }

  lemma LogGrows(log: seq<Effect>, e: Effect)
    ensures Accepts(log + [e]) == if e.Sent? then Accepts(log) + [e.frame] else Accepts(log)
    ensures Deliveries(log + [e]) == if e.Got? then Deliveries(log) + [e.frame] else Deliveries(log)
  {
    var sent, got := (e: Effect) => e.Sent?, (e: Effect) => e.Got?;
    FilterSnoc(log, e, sent);
    FilterSnoc(log, e, got);
    MapAppend(FrameOf, Filter(log, sent), [e]);
    MapAppend(FrameOf, Filter(log, got), [e]);
    assert Map(FrameOf, [e]) == [e.frame];
  }

  lemma InOrderGrows(s: Script, log: seq<Effect>, e: Effect)
    requires InOrder(s, log) && (e.Got? ==> Timely(s, log))
    ensures InOrder(s, log + [e])
  {
    var more := log + [e];
    forall i | 0 <= i < |more| && more[i].Got? ensures Timely(s, more[..i]) {
      if i < |log| {
        assert more[i] == log[i] && more[..i] == log[..i];
      } else {
        assert more[..i] == log;
      }
    }
  }

  lemma SendFollows(s: Script, strict: bool, log: seq<Effect>, p: Progress, f: WsFrame)
    requires Follows(s, strict, log, p) && strict && p.sent < |s.sends| && SameFrame(f, s.sends[p.sent])
    ensures Follows(s, strict, log + [Sent(f)], p.(sent := p.sent + 1))
  {
    hide Accepts;
    hide Deliveries;
    hide InOrder;
    hide SameFrame;
    LogGrows(log, Sent(f));
    InOrderGrows(s, log, Sent(f));
  }

  lemma GotFollows(s: Script, strict: bool, log: seq<Effect>, p: Progress)
    requires Follows(s, strict, log, p) && p.received < |s.recvs| && (strict ==> p.sent >= s.sendsBefore[p.received])
    ensures Follows(s, strict, log + [Got(s.recvs[p.received])], p.(received := p.received + 1))
  {
    hide Accepts;
    hide Deliveries;
    hide InOrder;
    hide SameFrame;
    assert strict ==> Timely(s, log);
    LogGrows(log, Got(s.recvs[p.received]));
    if strict {
      InOrderGrows(s, log, Got(s.recvs[p.received]));
    }
  }

  lemma ActFollows(s: Script, strict: bool, log: seq<Effect>, p: Progress, a: Action)
    requires Follows(s, strict, log, p)
    ensures var (effects, q) := Act(s, strict, p, a);
            Follows(s, strict, log + effects, q)
  {
    var (effects, q) := Act(s, strict, p, a);
    if effects == [] {
      assert log + effects == log;
    } else if a.DoSend? {
      SendFollows(s, strict, log, p, a.actual.value);
    } else {
      GotFollows(s, strict, log, p);
    }
  }

  lemma {:induction false} PlayFollows(s: Script, strict: bool, log: seq<Effect>, p: Progress, actions: seq<Action>)
    requires Follows(s, strict, log, p)
    ensures var (effects, end) := Play(s, strict, p, actions);
            Follows(s, strict, log + effects, end)
    decreases |actions|
  {
    if actions == [] {
      assert log + [] == log;
    } else {
      var (effects, q) := Act(s, strict, p, actions[0]);
      ActFollows(s, strict, log, p, actions[0]);
      PlayFollows(s, strict, log + effects, q, actions[1..]);
      Concat(log, effects, Play(s, strict, q, actions[1..]).0);
    }
  }

  // --- Main results ---

  /** Whatever a client does, accepted sends and delivered frames are prefixes of the recording, the send counts are
      never read out of range, and strictly a frame comes only after every send recorded before it. */
  lemma ReplayFollowsRecording(frames: seq<WsFrame>, strict: bool, actions: seq<Action>)
    ensures var s := ScriptOf(frames);
            var (log, end) := Play(s, strict, START, actions);
            Follows(s, strict, log, end)
  {
    var s := ScriptOf(frames);
    CountsGrow(Live(frames));
    var none: seq<Effect> := [];
    PlayFollows(s, strict, none, START, actions);
    assert none + Play(s, strict, START, actions).0 == Play(s, strict, START, actions).0;
  }

  /** What a client that follows the recording does for each frame. */
  function ActionFor(f: WsFrame): Action { if IsSend(f) then DoSend(Some(f)) else DoRecv }
  function EffectOf(f: WsFrame): Effect { if IsSend(f) then Sent(f) else Got(f) }

  function After(live: seq<WsFrame>): Progress {
    Progress(|Sends(live)|, |Recvs(live)|, None)
  }

  /** Action `p` of a run has one effect and leads from one given state to the next. */
  ghost predicate StepsAlong(s: Script, states: seq<Progress>, actions: seq<Action>, effects: seq<Effect>, p: nat) {
    p < |actions| && p < |effects| && p + 1 < |states| &&
    Act(s, true, states[p], actions[p]) == ([effects[p]], states[p + 1])
  }

  lemma {:induction false} PlayAlong(s: Script, states: seq<Progress>, actions: seq<Action>, effects: seq<Effect>)
    requires |states| == |actions| + 1 == |effects| + 1
    requires forall p: nat :: p < |actions| ==> StepsAlong(s, states, actions, effects, p)
    ensures Play(s, true, states[0], actions) == (effects, states[|actions|])
    decreases |actions|
  {
    if actions != [] {
      assert StepsAlong(s, states, actions, effects, 0);
      forall p: nat | p < |actions[1..]| ensures StepsAlong(s, states[1..], actions[1..], effects[1..], p) {
        assert StepsAlong(s, states, actions, effects, p + 1);
      }
      PlayAlong(s, states[1..], actions[1..], effects[1..]);
      assert effects == [effects[0]] + effects[1..];
    }
  }

  lemma FollowOne(frames: seq<WsFrame>, p: nat)
    requires p < |Live(frames)|
    ensures var live := Live(frames);
            Act(ScriptOf(frames), true, After(live[..p]), ActionFor(live[p])) == ([EffectOf(live[p])], After(live[..p + 1]))
  {
    hide Sends;
    hide Recvs;
    hide SendsBefore;
    hide Live;
    hide SameFrame;
    var live := Live(frames);
    assert live[..p + 1] == live[..p] + [live[p]];
    Positions(live, p);
    Extended(live[..p], live[p]);
    SameFrameReflexive(live[p]);
  }

  lemma FollowAll(frames: seq<WsFrame>)
    ensures var live := Live(frames);
            Play(ScriptOf(frames), true, START, Map(ActionFor, live)) == (Map(EffectOf, live), After(live))
  {
    var live := Live(frames);
    var states := seq(|live| + 1, p requires 0 <= p <= |live| => After(live[..p]));
    forall p: nat | p < |live| ensures StepsAlong(ScriptOf(frames), states, Map(ActionFor, live), Map(EffectOf, live), p) {
      FollowOne(frames, p);
    }
    PlayAlong(ScriptOf(frames), states, Map(ActionFor, live), Map(EffectOf, live));
    assert live[..0] == [] && live[..|live|] == live;
  }

  /** A client that follows the recording never waits and never fails: each step takes effect, and the end of the
      recording lets it close with nothing unsent, or receive the recorded close. */
  lemma RecordedClientSucceeds(frames: seq<WsFrame>)
    ensures var live, s := Live(frames), ScriptOf(frames);
            var (log, end) := Play(s, true, START, Map(ActionFor, live));
            && log == Map(EffectOf, live) && end == Progress(|s.sends|, |s.recvs|, None)
            && (forall code, reason :: CloseStep(s, true, end, code, reason).0.Closed?)
            && (RecordedEnding(s.close).Some? ==> RecvStep(s, true, end).0 == RecvClosed(RecordedEnding(s.close).value))
  {
    var live := Live(frames);
    FollowAll(frames);
    CountsGrow(live);
  }

  /** Closing ends an open connection with the client's code and reason. Strictly it succeeds exactly when the whole
      recording was sent, and otherwise tells how many sends are missing; a loose close always succeeds. */
  lemma CloseSucceedsIff(frames: seq<WsFrame>, strict: bool, actions: seq<Action>, code: nat, reason: seq<nat>)
    ensures var s := ScriptOf(frames);
            var (log, end) := Play(s, strict, START, actions);
            var (result, after) := CloseStep(s, strict, end, code, reason);
            && (end.closed.None? ==> after.closed == Some(Ending(code, reason, true)))
            && (result.Closed? <==> !strict || |Accepts(log)| == |s.sends|)
            && (result.Unsent? ==> |Accepts(log)| + result.count == |s.sends|)
  {
    ReplayFollowsRecording(frames, strict, actions);
  }

  /** Once the connection has ended nothing happens any more: everything the client tries is told the first ending. */
  lemma {:induction false} EndedStays(s: Script, strict: bool, p: Progress, actions: seq<Action>)
    requires p.closed.Some? && p.received <= |s.recvs|
    ensures Play(s, strict, p, actions) == ([], p)
    ensures forall actual :: SendStep(s, strict, p, actual).0 == SendClosed(p.closed.value)
    ensures RecvStep(s, strict, p).0 == RecvClosed(p.closed.value)
    decreases |actions|
  {
    if actions != [] {
      EndedStays(s, strict, p, actions[1..]);
      assert Act(s, strict, p, actions[0]) == ([], p) && Play(s, strict, p, actions).0 == [];
    }
  }

  /** What a client is told when it sends on an open connection: strictly, the frame must have the type and content of the
      recorded send that comes next. */
  lemma SendAnswered(frames: seq<WsFrame>, strict: bool, actions: seq<Action>, actual: Option<WsFrame>)
    ensures var s, live := ScriptOf(frames), Live(frames);
            var (log, end) := Play(s, strict, START, actions);
            var r := SendStep(s, strict, end, actual).0;
            end.closed.None? ==>
              && (!strict || actual.None? ==> r == Ignored)
              && (strict && actual.Some? && |Accepts(log)| == |Sends(live)| ==> r == NoSuchSend)
              && (strict && actual.Some? ==> forall p: nat ::
                    p < |live| && live[p].direction.Send? && |Sends(live[..p])| == |Accepts(log)| ==>
                      r == if actual.value.frameType == live[p].frameType && SameContent(actual.value.body, live[p].body)
                           then Accepted else SendMismatch)
  {
    var s, live := ScriptOf(frames), Live(frames);
    var (log, end) := Play(s, strict, START, actions);
    ReplayFollowsRecording(frames, strict, actions);
    if strict && actual.Some? {
      forall p: nat | p < |live| && live[p].direction.Send? && |Sends(live[..p])| == |Accepts(log)|
        ensures end.sent < |s.sends| && s.sends[end.sent] == live[p]
        ensures SameFrame(actual.value, live[p]) <==>
                actual.value.frameType == live[p].frameType && SameContent(actual.value.body, live[p].body)
      {
        Positions(live, p);
        SameFrameIff(actual.value, live[p]);
      }
    }
  }

  /** What a client is told when it receives on an open connection: the next recorded frame, strictly not before every send
      recorded before it was accepted, and after the last one how the recording ends. */
  lemma ReceiveAnswered(frames: seq<WsFrame>, strict: bool, actions: seq<Action>)
    ensures var s, live := ScriptOf(frames), Live(frames);
            var (log, end) := Play(s, strict, START, actions);
            var (r, after) := RecvStep(s, strict, end);
            end.closed.None? ==>
              && (forall p: nat :: p < |live| && live[p].direction.Recv? && |Recvs(live[..p])| == |Deliveries(log)| ==>
                    r == if strict && |Accepts(log)| < |Sends(live[..p])| then Waits else Delivered(live[p]))
              && (|Deliveries(log)| == |Recvs(live)| ==>
                    if strict && |Accepts(log)| < |Sends(live)| then r == Waits && after == end
                    else match RecordedEnding(s.close)
                         case None => r == BadClose && after == end
                         case Some(ending) => r == RecvClosed(ending) && after.closed == Some(ending))
  {
    var s, live := ScriptOf(frames), Live(frames);
    var (log, end) := Play(s, strict, START, actions);
    ReplayFollowsRecording(frames, strict, actions);
    CountsGrow(live);
    forall p: nat | p < |live| && live[p].direction.Recv? && |Recvs(live[..p])| == |Deliveries(log)|
      ensures end.received < |s.recvs| && s.recvs[end.received] == live[p]
      ensures s.sendsBefore[end.received] == |Sends(live[..p])|
    {
      Positions(live, p);
    }
  }
}
