/** The firmware's sender of control messages, which cuts them into frames. */
module ControlSender {
  import opened Bytes
  import opened Uplink

  const L2CAP_TX_SDU_MTU: nat := 5120

  datatype SendResult = Sent | NotConnected | TooSmall | LinkFailed

  /** What the link makes of an SDU: whether it takes it, and whether its completion comes in time. */
  datatype Handover = Handover(taken: bool, completed: bool) {
    predicate IsDone() {
      taken && completed
    }
  }

  /** The first of the SDUs from `i` on that is not handed over, or how many there are. */
  function FirstFailure(handovers: nat -> Handover, i: nat, count: nat): (k: nat)
    requires i <= count
    ensures i <= k <= count && (k < count ==> !handovers(k).IsDone())
    ensures forall j :: i <= j < k ==> handovers(j).IsDone()
    decreases count - i
  {
    if i == count || !handovers(i).IsDone() then i else FirstFailure(handovers, i + 1, count)
  }

  class Sender {
    var messageId: uint16
    /** The SDUs the link has taken. */
    var sdus: seq<Stream>

    constructor ()
      ensures messageId == 0 && sdus == []
    {
      messageId, sdus := 0, [];
    }

    /**
      Allocation, `bt_l2cap_chan_send` and the wait for its completion; an SDU that failed may have
      been taken all the same.
     */
    method SendSdu(sdu: Stream, h: Handover) returns (ok: bool)
      modifies this`sdus
      ensures ok == h.IsDone() && sdus == old(sdus) + if h.taken then [sdu] else []
    {
      if h.taken { sdus := sdus + [sdu]; }
      ok := h.taken && h.completed;
    }

    /** `benchmark_control_send`; the message identifier advances even when nothing can be sent. */
    method SendControl(message: Stream, txMtu: uint16, connected: bool, handovers: nat -> Handover)
      returns (r: SendResult)
      modifies this
      ensures messageId == (old(messageId) + 1) % TWO_TO_THE_16
      ensures r == NotConnected <==> !connected
      ensures r == TooSmall <==> connected && Min(txMtu, L2CAP_TX_SDU_MTU) <= HEADER_SIZE
      ensures r == NotConnected || r == TooSmall ==> sdus == old(sdus)
      ensures r == Sent || r == LinkFailed ==>
        var frames := Frames(message, Min(txMtu, L2CAP_TX_SDU_MTU), messageId);
        var k := FirstFailure(handovers, 0, |frames|);
        && (r == Sent <==> k == |frames|)
        && sdus == old(sdus) + HandedOver(frames, handovers, k)
    {
      hide FramesFrom, FirstFailure, AreLeft, HandedOver, Frame, Handover.IsDone;
      messageId := (messageId + 1) % TWO_TO_THE_16;
      if !connected { return NotConnected; }
      var mtu := if txMtu < L2CAP_TX_SDU_MTU then txMtu else L2CAP_TX_SDU_MTU;
      if mtu <= HEADER_SIZE { return TooSmall; }
      var room := mtu - HEADER_SIZE;
      ghost var frames := FramesFrom(message, 0, room, messageId);
      AllAreLeft(message, room, messageId);
      var n, offset := 0, 0;
      assert frames[..0] == [];
      while true
        invariant AreLeft(frames, n, message, offset, room, messageId)
        invariant offset <= |message| && n <= |frames| && sdus == old(sdus) + frames[..n]
        invariant forall j :: 0 <= j < n ==> handovers(j).IsDone()
        invariant messageId == (old(messageId) + 1) % TWO_TO_THE_16
        decreases |message| - offset
      {
        OneLeft(frames, n, message, offset, room, messageId);
        var chunk := if |message| - offset < room then |message| - offset else room;
        var flags := (if offset == 0 then 1 else 0) + (if offset + chunk == |message| then 2 else 0);
        var sdu := BuildFrame(flags, message[offset..offset + chunk]);
        var ok := SendSdu(sdu, handovers(n));
        Handed(frames, handovers, n, old(sdus));
        if !ok { return LinkFailed; }
        n := n + 1;
        offset := offset + chunk;
        if offset >= |message| {
          return Sent;
        }
      }
    }

    /** The header in front of a fragment: magic, flags and the little-endian message identifier. */
    method BuildFrame(flags: byte, chunk: Stream) returns (sdu: Stream)
      ensures sdu == Frame(flags, messageId, chunk)
    {
      sdu := MAGIC;
      sdu := sdu + [flags];
      sdu := sdu + [messageId % 256, messageId / 256];
      sdu := sdu + chunk;
    }
  }

  /** The SDUs taken when the `k`-th is not handed over: all before it, and perhaps itself. */
  function HandedOver(frames: seq<Stream>, handovers: nat -> Handover, k: nat): seq<Stream>
    requires k <= |frames|
  {
    frames[..k] + if k < |frames| && handovers(k).taken then [frames[k]] else []
  }

  /** From the `n`-th on the frames carry the message from `offset` on. */
  ghost predicate AreLeft(frames: seq<Stream>, n: nat, message: Stream, offset: nat, room: nat, id: uint16) {
    n <= |frames| && offset <= |message| && room >= 1 && frames[n..] == FramesFrom(message, offset, room, id)
  }

  lemma AllAreLeft(message: Stream, room: nat, id: uint16)
    requires room >= 1
    ensures AreLeft(FramesFrom(message, 0, room, id), 0, message, 0, room, id)
  {
    hide FramesFrom;
    var frames := FramesFrom(message, 0, room, id);
    assert frames[0..] == frames;
  }

  lemma OneLeft(frames: seq<Stream>, n: nat, message: Stream, offset: nat, room: nat, id: uint16)
    requires AreLeft(frames, n, message, offset, room, id)
    ensures n < |frames| && offset <= |message|
    ensures var chunk := Min(|message| - offset, room);
            && frames[n] == Frame(Flags(offset, chunk, |message|), id, message[offset..offset + chunk])
            && (if offset + chunk < |message| then AreLeft(frames, n + 1, message, offset + chunk, room, id)
                else n + 1 == |frames|)
  {
    hide FramesFrom, Frame;
    FramesStep(message, offset, room, id);
    assert frames[n..][0] == frames[n] && frames[n..][1..] == frames[n + 1..];
  }

  /** Where the call stands once the `n`-th frame has been handed over or has failed. */
  lemma Handed(frames: seq<Stream>, handovers: nat -> Handover, n: nat, before: seq<Stream>)
    requires n < |frames| && forall j :: 0 <= j < n ==> handovers(j).IsDone()
    ensures var k, now := FirstFailure(handovers, 0, |frames|), before + frames[..n];
            var after := now + if handovers(n).taken then [frames[n]] else [];
            if handovers(n).IsDone() then
              && after == before + frames[..n + 1]
              && (n + 1 == |frames| ==> k == |frames| && after == before + HandedOver(frames, handovers, k))
            else k == n && after == before + HandedOver(frames, handovers, n)
  {
    hide FirstFailure, Handover.IsDone;
    var now, taken := before + frames[..n], if handovers(n).taken then [frames[n]] else [];
    FailsFirst(handovers, n, |frames|);
    if handovers(n).IsDone() {
      DoneIsTaken(handovers(n));
      OneMoreFrame(frames, n, before);
      AllHandedOver(frames, handovers);
    } else {
      assert now + taken == before + (frames[..n] + taken);
    }
  }

  lemma DoneIsTaken(h: Handover)
    ensures h.IsDone() ==> h.taken
  {}

  lemma OneMoreFrame(frames: seq<Stream>, n: nat, before: seq<Stream>)
    requires n < |frames|
    ensures (before + frames[..n]) + [frames[n]] == before + frames[..n + 1]
  {
    assert frames[..n + 1] == frames[..n] + [frames[n]];
  }

  lemma AllHandedOver(frames: seq<Stream>, handovers: nat -> Handover)
    ensures HandedOver(frames, handovers, |frames|) == frames == frames[..|frames|]
  {}

  lemma FailsFirst(handovers: nat -> Handover, n: nat, count: nat)
    requires n < count && forall j :: 0 <= j < n ==> handovers(j).IsDone()
    ensures var k := FirstFailure(handovers, 0, count);
            if !handovers(n).IsDone() then k == n else n + 1 == count ==> k == count
  {
    hide FirstFailure, Handover.IsDone;
  }

  /** The loop body of the control sender, on values. */
  lemma FramesStep(message: Stream, offset: nat, room: nat, id: uint16)
    requires room >= 1 && offset <= |message|
    ensures var chunk := Min(|message| - offset, room);
            var frames := FramesFrom(message, offset, room, id);
            && frames != []
            && frames[0] == Frame(Flags(offset, chunk, |message|), id, message[offset..offset + chunk])
            && frames[1..] == if offset + chunk < |message| then FramesFrom(message, offset + chunk, room, id) else []
  {
    hide Frame;
  }
}
