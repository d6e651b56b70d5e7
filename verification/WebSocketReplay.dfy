/** The `VCRWebSocketReplay` class over its script. */
module WebSocketModel {
  import opened Options
  import opened WebSocketScript

  class VcrWebSocketReplay {
    const strict: bool
    var sends: seq<WsFrame>
    var recvFrames: seq<WsFrame>
    var sendsBefore: seq<nat>
    var closeFrame: Option<WsFrame>
    var received: nat
    var sent: nat
    var closed: Option<Ending>

    ghost function Script(): Script
      reads this
    {
      WebSocketScript.Script.Script(sends, recvFrames, sendsBefore, closeFrame)
    }

    ghost function At(): Progress
      reads this
    {
      Progress(sent, received, closed)
    }

    ghost predicate Valid()
      reads this
    {
      received <= |recvFrames| < |sendsBefore| && sent <= |sends|
    }

    constructor (frames: seq<WsFrame>, strict: bool)
      ensures Valid() && this.strict == strict && Script() == ScriptOf(frames) && At() == START
    {
      hide Sends;
      hide Recvs;
      hide SendsBefore;
      hide Live;
      var outgoing, incoming: seq<WsFrame> := [], [];
      var before: seq<nat> := [];
      var close: Option<WsFrame> := None;
      var i := 0;
      NoFrames();
      while i < |frames| && close.None?
        invariant i <= |frames|
        invariant outgoing == Sends(frames[..i]) && incoming == Recvs(frames[..i]) && before == SendsBefore(frames[..i])
        invariant forall f | f in frames[..i] :: !IsClose(f)
        invariant close.Some? ==> i < |frames| && IsClose(frames[i]) && close == Some(frames[i])
        decreases |frames| - i, close.None?
      {
        var frame := frames[i];
        assert frames[..i + 1] == frames[..i] + [frame];
        Extended(frames[..i], frame);
        if IsSend(frame) {
          outgoing := outgoing + [frame];
          i := i + 1;
        } else if frame.frameType == "close" {
          close := Some(frame);
        } else {
          incoming := incoming + [frame];
          before := before + [|outgoing|];
          i := i + 1;
        }
      }
      LiveOf(frames, i);
      CountsGrow(frames[..i]);
      this.strict := strict;
      sends, recvFrames, sendsBefore, closeFrame := outgoing, incoming, before + [|outgoing|], close;
      received, sent, closed := 0, 0, None;
    }

    method Send(actual: Option<WsFrame>) returns (r: SendResult)
      requires Valid()
      modifies this`sent
      ensures Valid() && (r, At()) == SendStep(Script(), strict, old(At()), actual)
    {
      if closed.Some? {
        return SendClosed(closed.value);
      }
      if !strict || actual.None? {
        return Ignored;
      }
      if sent >= |sends| {
        return NoSuchSend;
      }
      if !SameFrame(actual.value, sends[sent]) {
        return SendMismatch;
      }
      sent := sent + 1;
      return Accepted;
    }

    /** `Waits` means the caller is still waiting for a send or a close. */
    method Receive() returns (r: RecvResult)
      requires Valid()
      modifies this`received, this`closed
      ensures Valid() && (r, At()) == RecvStep(Script(), strict, old(At()))
    {
      if strict && !(closed.Some? || sent >= sendsBefore[received]) {
        return Waits;
      }
      if closed.Some? {
        return RecvClosed(closed.value);
      }
      if received >= |recvFrames| {
        if closeFrame.None? {
          closed := Some(Ending(1000, [], false));
          return RecvClosed(closed.value);
        }
        var data := if closeFrame.value.body.BinaryBody? then closeFrame.value.body.bytes else [];
        if |data| < 2 || !Utf8(data[2..]) {
          return BadClose;
        }
        closed := Some(Ending(data[0] * 256 + data[1], data[2..], false));
        return RecvClosed(closed.value);
      }
      r := Delivered(recvFrames[received]);
      received := received + 1;
    }

    method Close(code: nat, reason: seq<nat>) returns (r: CloseResult)
      requires Valid()
      modifies this`closed
      ensures Valid() && (r, At()) == CloseStep(Script(), strict, old(At()), code, reason)
    {
      if closed.None? {
        closed := Some(Ending(code, reason, true));
      }
      if strict && sent < |sends| {
        return Unsent(|sends| - sent);
      }
      return Closed;
    }
  }
}
