/**
  What the bridge does with the SDUs it receives over BLE, as values: benchmark-control frames are
  reassembled into messages, everything else goes to TCP, either as it is or with the length
  prefixes stripped. The bridge itself, with its buffers, is in module RelayBridge.
 */
module Uplink {
  import opened Bytes
  import opened Text

  const MAGIC: Stream := Ascii("BCTL1")
  const HEADER_SIZE: nat := 8

  // ----- length-prefixed SDUs

  /**
    What a drain of the pending bytes sends on, and what it leaves: the bytes of the current SDU
    still missing, and the bytes it could not use yet.
   */
  datatype Drained = Drained(sent: Stream, expected: nat, pending: Stream)

  function Min(a: nat, b: nat): nat {
    if a < b then a else b
  }

  function PrefixOf(s: Stream): nat
    requires |s| >= 2
  {
    s[0] as int + 256 * (s[1] as int)
  }

  function Drain(expected: nat, s: Stream): Drained
    decreases |s|
  {
    if s == [] then Drained([], expected, [])
    else if expected == 0 then
      if |s| < 2 then Drained([], 0, s) else Drain(PrefixOf(s), s[2..])
    else
      var chunk := Min(expected, |s|);
      var d := Drain(expected - chunk, s[chunk..]);
      d.(sent := s[..chunk] + d.sent)
  }

  /** The one-shot decoder: strip each 16-bit length and keep what it announces. */
  function Strip(s: Stream): Stream
    decreases |s|
  {
    if |s| < 2 then [] else
    var size := Min(PrefixOf(s), |s| - 2);
    s[2..2 + size] + Strip(s[2 + size..])
  }

  function EncodeSdu(payload: Stream): (s: Stream)
    requires |payload| < TWO_TO_THE_16
    ensures |s| == |payload| + 2 && s[0] as int + 256 * (s[1] as int) == |payload| && s[2..] == payload
  {
    [|payload| % 256, |payload| / 256] + payload
  }

  /** The bytes of a stream of encoded SDUs. */
  function EncodeSdus(payloads: seq<Stream>): Stream
    requires forall i :: 0 <= i < |payloads| ==> |payloads[i]| < TWO_TO_THE_16
  {
    if payloads == [] then [] else EncodeSdu(payloads[0]) + EncodeSdus(payloads[1..])
  }

  // one step of the drain at a time

  lemma DrainNil(expected: nat)
    ensures Drain(expected, []) == Drained([], expected, [])
  {
  }

  lemma DrainShort(s: Stream)
    requires |s| == 1
    ensures Drain(0, s) == Drained([], 0, s)
  {
  }

  lemma DrainPrefix(s: Stream)
    requires |s| >= 2
    ensures Drain(0, s) == Drain(PrefixOf(s), s[2..])
  {
  }

  /** An SDU that is there to its end is sent on, and the drain goes on behind it. */
  lemma DrainWhole(expected: nat, s: Stream)
    requires 0 < expected <= |s|
    ensures var d := Drain(0, s[expected..]); Drain(expected, s) == d.(sent := s[..expected] + d.sent)
  {
  }

  /** A part of an SDU is sent on, and the rest of it stays expected. */
  lemma DrainPart(expected: nat, s: Stream)
    requires |s| < expected
    ensures Drain(expected, s) == Drained(s, expected - |s|, [])
  {
    if s != [] {
      assert s[..|s|] == s && s[|s|..] == [];
      assert s + [] == s;
    }
  }

  /** At most one byte stays pending, and only between two SDUs. */
  lemma {:induction false} DrainLeavesOneByte(expected: nat, s: Stream)
    ensures var d := Drain(expected, s); |d.pending| <= 1 && (d.pending != [] ==> d.expected == 0)
    decreases |s|
  {
    hide Drain;
    if expected > |s| {
      DrainPart(expected, s);
    } else if expected > 0 {
      DrainWhole(expected, s);
      DrainLeavesOneByte(0, s[expected..]);
    } else if |s| >= 2 {
      DrainPrefix(s);
      DrainLeavesOneByte(PrefixOf(s), s[2..]);
    } else if |s| == 1 {
      DrainShort(s);
    } else {
      DrainNil(0);
    }
  }

  /** Draining in two goes, with the leftover kept in front of the new bytes, is draining at once. */
  lemma {:induction false} DrainSplits(expected: nat, a: Stream, b: Stream)
    ensures var first := Drain(expected, a);
            var second := Drain(first.expected, first.pending + b);
            Drain(expected, a + b) == second.(sent := first.sent + second.sent)
    decreases |a|
  {
    hide Drain;
    if a == [] {
      DrainNil(expected);
      assert a + b == b && [] + b == b;
      PrependEmpty(Drain(expected, b));
    } else if expected > |a| {
      DrainPart(expected, a);
      assert [] + b == b;
      DrainAcross(expected, a, b);
    } else if expected > 0 {
      DrainSplits(0, a[expected..], b);
      DrainWhole(expected, a);
      DrainWhole(expected, a + b);
      assert (a + b)[..expected] == a[..expected] && (a + b)[expected..] == a[expected..] + b;
      var rest := Drain(0, a[expected..]);
      var second := Drain(rest.expected, rest.pending + b);
      assert a[..expected] + (rest.sent + second.sent) == (a[..expected] + rest.sent) + second.sent;
    } else if |a| >= 2 {
      DrainPrefix(a);
      DrainPrefix(a + b);
      assert (a + b)[2..] == a[2..] + b;
      DrainSplits(PrefixOf(a), a[2..], b);
    } else {
      DrainShort(a);
      PrependEmpty(Drain(0, a + b));
    }
  }

  lemma PrependEmpty(d: Drained)
    ensures d.(sent := [] + d.sent) == d
  {
    assert [] + d.sent == d.sent;
  }

  /** A stretch that lies inside one SDU is sent on whole. */
  lemma DrainAcross(expected: nat, a: Stream, b: Stream)
    requires |a| < expected
    ensures var d := Drain(expected - |a|, b);
            Drain(expected, a + b) == d.(sent := a + d.sent)
  {
    hide Drain;
    var rest := expected - |a|;
    if |b| < rest {
      DrainPart(expected, a + b);
      DrainPart(rest, b);
    } else {
      DrainWhole(expected, a + b);
      DrainWhole(rest, b);
      assert (a + b)[expected..] == b[rest..];
      assert (a + b)[..expected] == a + b[..rest];
      var d := Drain(0, b[rest..]);
      assert a + (b[..rest] + d.sent) == (a + b)[..expected] + d.sent;
    }
  }

  lemma StripStep(s: Stream)
    requires |s| >= 2
    ensures var t := s[2..]; var size := Min(PrefixOf(s), |t|); Strip(s) == t[..size] + Strip(t[size..])
  {
    hide PrefixOf;
    var size := Min(PrefixOf(s), |s| - 2);
    var t := s[2..];
    assert t[..size] == s[2..2 + size];
    assert t[size..] == s[2 + size..];
  }

  lemma StripShort(s: Stream)
    requires |s| < 2
    ensures Strip(s) == []
  {}

  /** The incremental drain sends what the one-shot decoder keeps. */
  lemma {:induction false} DrainIsStrip(s: Stream)
    ensures Drain(0, s).sent == Strip(s)
    decreases |s|
  {
    hide Drain, Strip;
    if |s| >= 2 {
      var prefix, t := PrefixOf(s), s[2..];
      DrainPrefix(s);
      StripStep(s);
      DrainIsStrip(t[Min(prefix, |t|)..]);
      if prefix == 0 {
        assert t[0..] == t && t[..0] + Strip(t) == Strip(t);
      } else if prefix <= |t| {
        DrainWhole(prefix, t);
      } else {
        DrainPart(prefix, t);
        StripShort(t[|t|..]);
        assert t[..|t|] == t && t + [] == t;
      }
    } else {
      StripShort(s);
      if |s| == 1 { DrainShort(s); } else { DrainNil(0); }
    }
  }

  /** A stream of encoded SDUs, empty ones among them, decodes to its payloads. */
  lemma {:induction false} SdusRoundTrip(payloads: seq<Stream>)
    requires forall i :: 0 <= i < |payloads| ==> |payloads[i]| < TWO_TO_THE_16
    ensures Drain(0, EncodeSdus(payloads)) == Drained(Concat(payloads), 0, [])
  {
    hide Drain;
    if payloads == [] {
      DrainNil(0);
    } else {
      var p, rest := payloads[0], EncodeSdus(payloads[1..]);
      var s := EncodeSdus(payloads);
      SdusRoundTrip(payloads[1..]);
      DrainPrefix(s);
      assert PrefixOf(s) == |p|;
      assert s[2..] == p + rest;
      if p == [] {
        assert p + rest == rest && [] + Concat(payloads[1..]) == Concat(payloads[1..]);
      } else {
        DrainWhole(|p|, p + rest);
        assert (p + rest)[..|p|] == p && (p + rest)[|p|..] == rest;
      }
    }
  }

  // ----- control frames

  datatype Control = Control(id: uint16, active: bool, pending: Stream, ready: bool, error: bool)

  const NO_CONTROL: Control := Control(0, false, [], false, false)

  datatype ControlResult =
    | NotControl
    | SequenceError
    | Accepted(control: Control, printed: seq<Stream>)

  predicate HasMagicAt(data: Stream, base: nat) {
    |data| >= base + HEADER_SIZE && data[base..base + 5] == MAGIC
  }

  predicate IsControl(data: Stream) {
    HasMagicAt(data, 0) || HasMagicAt(data, 2)
  }

  predicate IsAt(s: Stream, needle: Stream, i: nat)
    requires i + |needle| <= |s|
  {
    s[i..i + |needle|] == needle
  }

  /** `memmem` finds the needle. */
  predicate Contains(s: Stream, needle: Stream) {
    exists i :: 0 <= i <= |s| - |needle| && IsAt(s, needle, i)
  }

  /** What is written to standard output for a message. */
  function Printed(message: Stream): Stream {
    if message == [] || message[|message| - 1] != 10 then message + [10] else message
  }

  /** The whole message, and a newline behind it if there is none. */
  ghost predicate IsLine(printed: Stream, message: Stream) {
    && message <= printed && |printed| <= |message| + 1
    && printed != [] && printed[|printed| - 1] == 10
    && (message != [] && message[|message| - 1] == 10 ==> printed == message)
  }

  lemma PrintedIsLine(message: Stream)
    ensures IsLine(Printed(message), message)
  {}

  /** The needle lies somewhere in the haystack. */
  ghost predicate Occurs(needle: Stream, s: Stream) {
    exists before, behind :: s == before + needle + behind
  }

  lemma ContainsIffOccurs(s: Stream, needle: Stream)
    ensures Contains(s, needle) <==> Occurs(needle, s)
  {
    if Contains(s, needle) {
      var i :| 0 <= i <= |s| - |needle| && IsAt(s, needle, i);
      assert s == s[..i] + needle + s[i + |needle|..];
    }
    if Occurs(needle, s) {
      var before, behind :| s == before + needle + behind;
      assert s[|before|..|before| + |needle|] == needle;
      assert IsAt(s, needle, |before|);
    }
  }

  const READY_TEXT: Stream := Ascii("[BENCH_PKI] status=ready")
  const ERROR_TEXT: Stream := Ascii("[BENCH_PKI] status=error")

  /** The receiver behind a complete message: idle, and with the identity flags the message sets. */
  function Finish(c: Control): Control {
    c.(active := false, pending := [],
       ready := c.ready || Contains(c.pending, READY_TEXT), error := c.error || Contains(c.pending, ERROR_TEXT))
  }

  /** A fragment behind its header: bit 0 starts a message and bit 1 ends it. */
  function Fragment(c: Control, flags: byte, id: uint16, payload: Stream): ControlResult {
    var started := if flags % 2 == 1 then c.(id := id, active := true, pending := []) else c;
    if !started.active || started.id != id then SequenceError else
    var next := started.(pending := started.pending + payload);
    if (flags / 2) % 2 == 1 then Accepted(Finish(next), [Printed(next.pending)]) else Accepted(next, [])
  }

  /** `handle_control_frame`. */
  function ControlStep(c: Control, data: Stream): ControlResult {
    if !IsControl(data) then NotControl else
    var base := if HasMagicAt(data, 0) then 0 else 2;
    Fragment(c, data[base + 5], data[base + 6] as int + 256 * (data[base + 7] as int), data[base + HEADER_SIZE..])
  }

  // ----- the sending side of control messages

  function Frame(flags: byte, id: uint16, chunk: Stream): Stream {
    MAGIC + [flags] + [id % 256, id / 256] + chunk
  }

  function Flags(offset: nat, chunk: nat, length: nat): byte {
    (if offset == 0 then 1 else 0) + (if offset + chunk == length then 2 else 0)
  }

  lemma FlagsMean(offset: nat, chunk: nat, length: nat)
    ensures Flags(offset, chunk, length) % 2 == 1 <==> offset == 0
    ensures (Flags(offset, chunk, length) / 2) % 2 == 1 <==> offset + chunk == length
  {
  }

  /** The bytes "BCTL1" with three more behind them. */
  ghost predicate CarriesMagicAt(s: Stream, base: nat) {
    |s| >= base + 8 && s[base] == 66 && s[base + 1] == 67 && s[base + 2] == 84 && s[base + 3] == 76 && s[base + 4] == 49
  }

  /** At the start, or behind the two bytes of a length. */
  ghost predicate CarriesMagic(s: Stream) {
    CarriesMagicAt(s, 0) || CarriesMagicAt(s, 2)
  }

  lemma ControlIffMagic(s: Stream)
    ensures IsControl(s) <==> CarriesMagic(s)
  {
    MagicAt(s, 0);
    MagicAt(s, 2);
  }

  lemma MagicAt(s: Stream, base: nat)
    ensures HasMagicAt(s, base) <==> CarriesMagicAt(s, base)
  {
    assert MAGIC == [66, 67, 84, 76, 49];
    if |s| >= base + 8 {
      var five := s[base..base + 5];
      assert five[0] == s[base] && five[1] == s[base + 1] && five[2] == s[base + 2];
      assert five[3] == s[base + 3] && five[4] == s[base + 4];
    }
  }

  /** The frames `benchmark_control_send` emits from `offset` on, `room` payload bytes at a time. */
  function FramesFrom(message: Stream, offset: nat, room: nat, id: uint16): seq<Stream>
    requires room >= 1 && offset <= |message|
    decreases |message| - offset
  {
    var chunk := Min(|message| - offset, room);
    [Frame(Flags(offset, chunk, |message|), id, message[offset..offset + chunk])]
    + (if offset + chunk < |message| then FramesFrom(message, offset + chunk, room, id) else [])
  }

  function Frames(message: Stream, mtu: nat, id: uint16): seq<Stream>
    requires mtu > HEADER_SIZE
  {
    FramesFrom(message, 0, mtu - HEADER_SIZE, id)
  }

  /** Every frame is a control SDU and fits the MTU. */
  lemma {:induction false} FramesAreControl(message: Stream, offset: nat, room: nat, id: uint16)
    requires room >= 1 && offset <= |message|
    ensures forall f <- FramesFrom(message, offset, room, id) :: IsControl(f) && |f| <= room + HEADER_SIZE
    decreases |message| - offset
  {
    hide IsControl, Frame;
    var chunk := Min(|message| - offset, room);
    FrameIsControl(Flags(offset, chunk, |message|), id, message[offset..offset + chunk]);
    if offset + chunk < |message| { FramesAreControl(message, offset + chunk, room, id); }
  }

  lemma FrameIsControl(flags: byte, id: uint16, chunk: Stream)
    ensures IsControl(Frame(flags, id, chunk)) && |Frame(flags, id, chunk)| == |chunk| + HEADER_SIZE
  {
    assert Frame(flags, id, chunk)[0..5] == MAGIC;
  }

  /**
    What is on the air for a message from `offset` on: the magic, flags that mark the start of the
    message on its first frame and its end on the last, the identifier with its low byte first, and
    a piece of the message; the pieces make up the rest of it.
   */
  ghost predicate AreFramesOf(frames: seq<Stream>, message: Stream, offset: nat, id: uint16)
    requires offset <= |message|
  {
    && frames != []
    && (forall k :: 0 <= k < |frames| ==> IsFrame(frames[k], offset == 0 && k == 0, k == |frames| - 1, id))
    && Concat(Pieces(frames)) == message[offset..]
  }

  ghost predicate IsFrame(f: Stream, first: bool, last: bool, id: uint16) {
    && CarriesMagicAt(f, 0) && f[6] as int + 256 * (f[7] as int) == id
    && f[5] < 4 && (f[5] % 2 == 1 <==> first) && (f[5] >= 2 <==> last)
  }

  function Pieces(frames: seq<Stream>): seq<Stream> {
    if frames == [] then [] else [if |frames[0]| < 8 then [] else frames[0][8..]] + Pieces(frames[1..])
  }

  lemma {:induction false} FramesOnTheAir(message: Stream, offset: nat, room: nat, id: uint16)
    requires room >= 1 && offset <= |message|
    ensures AreFramesOf(FramesFrom(message, offset, room, id), message, offset, id)
    decreases |message| - offset
  {
    hide Frame, IsFrame, Flags, AreFramesOf;
    var chunk := Min(|message| - offset, room);
    var piece := message[offset..offset + chunk];
    var frame := Frame(Flags(offset, chunk, |message|), id, piece);
    var frames := FramesFrom(message, offset, room, id);
    OneFrame(offset, chunk, |message|, id, piece);
    if offset + chunk < |message| {
      var rest := FramesFrom(message, offset + chunk, room, id);
      FramesOnTheAir(message, offset + chunk, room, id);
      FramesJoin(frame, rest, message, offset, chunk, id);
    } else {
      assert frames == [frame] && piece == message[offset..];
      LastFrame(frame, message, offset, id);
    }
  }

  lemma LastFrame(frame: Stream, message: Stream, offset: nat, id: uint16)
    requires offset <= |message|
    requires IsFrame(frame, offset == 0, true, id) && |frame| >= 8 && frame[8..] == message[offset..]
    ensures AreFramesOf([frame], message, offset, id)
  {
    hide IsFrame;
    var frames := [frame];
    assert frames[1..] == [];
    ConcatOne(frame[8..]);
    assert Concat(Pieces(frames)) == frame[8..] + [];
  }

  lemma FramesJoin(frame: Stream, rest: seq<Stream>, message: Stream, offset: nat, chunk: nat, id: uint16)
    requires offset + chunk <= |message| && chunk > 0
    requires IsFrame(frame, offset == 0, false, id) && |frame| >= 8 && frame[8..] == message[offset..offset + chunk]
    requires AreFramesOf(rest, message, offset + chunk, id)
    ensures AreFramesOf([frame] + rest, message, offset, id)
  {
    hide IsFrame;
    var frames := [frame] + rest;
    assert frames[1..] == rest && message[offset..] == message[offset..offset + chunk] + message[offset + chunk..];
    forall k | 0 <= k < |frames|
      ensures IsFrame(frames[k], offset == 0 && k == 0, k == |frames| - 1, id)
    {
      if k > 0 { assert frames[k] == rest[k - 1]; }
    }
  }

  ghost predicate AllButLastHave(pieces: seq<Stream>, size: nat) {
    forall k :: 0 <= k < |pieces| - 1 ==> |pieces[k]| == size
  }

  /** All frames but the last are as long as the room allows. */
  lemma {:induction false} FramesAreFull(message: Stream, offset: nat, room: nat, id: uint16)
    requires room >= 1 && offset <= |message|
    ensures AllButLastHave(FramesFrom(message, offset, room, id), room + 8)
    decreases |message| - offset
  {
    hide Frame;
    var chunk := Min(|message| - offset, room);
    var flags, piece := Flags(offset, chunk, |message|), message[offset..offset + chunk];
    FrameIsControl(flags, id, piece);
    if offset + chunk < |message| {
      var rest := FramesFrom(message, offset + chunk, room, id);
      FramesAreFull(message, offset + chunk, room, id);
      FullBehind(Frame(flags, id, piece), rest, room + 8);
    }
  }

  lemma FullBehind(first: Stream, rest: seq<Stream>, size: nat)
    requires |first| == size && AllButLastHave(rest, size)
    ensures AllButLastHave([first] + rest, size)
  {}

  lemma OneFrame(offset: nat, chunk: nat, length: nat, id: uint16, piece: Stream)
    ensures var f := Frame(Flags(offset, chunk, length), id, piece);
            IsFrame(f, offset == 0, offset + chunk == length, id) && |f| >= 8 && f[8..] == piece
  {
    assert MAGIC == [66, 67, 84, 76, 49];
  }

  datatype ControlRun = ControlOk(control: Control, printed: seq<Stream>) | ControlBroken

  /** A receiver fed with control frames. */
  function RunControl(c: Control, frames: seq<Stream>): ControlRun
    decreases |frames|
  {
    if frames == [] then ControlOk(c, []) else
    match ControlStep(c, frames[0])
    case Accepted(c', printed) =>
      (match RunControl(c', frames[1..])
       case ControlOk(last, more) => ControlOk(last, printed + more)
       case ControlBroken => ControlBroken)
    case _ => ControlBroken
  }

  lemma FrameStep(c: Control, flags: byte, id: uint16, chunk: Stream)
    ensures ControlStep(c, Frame(flags, id, chunk)) == Fragment(c, flags, id, chunk)
  {
    hide Fragment;
    var f := Frame(flags, id, chunk);
    assert f[0..5] == MAGIC;
    assert f[HEADER_SIZE..] == chunk;
    assert id % 256 + 256 * (id / 256) == id;
  }

  /** The receiver after a whole message. */
  function Delivered(c: Control, message: Stream, id: uint16): Control {
    Finish(c.(id := id, pending := message))
  }

  /** The receiver has the first `offset` bytes of the message, or is in any state before the first. */
  ghost predicate HasPart(c: Control, message: Stream, offset: nat, id: uint16)
    requires offset <= |message|
  {
    offset > 0 ==> c.active && c.id == id && c.pending == message[..offset]
  }

  lemma FragmentOfMessage(c: Control, message: Stream, offset: nat, chunk: nat, id: uint16)
    requires offset + chunk <= |message| && HasPart(c, message, offset, id)
    ensures var flags, piece := Flags(offset, chunk, |message|), message[offset..offset + chunk];
            Fragment(c, flags, id, piece) ==
              if offset + chunk < |message|
              then Accepted(c.(id := id, active := true, pending := message[..offset + chunk]), [])
              else Accepted(Delivered(c, message, id), [Printed(message)])
  {
    hide Contains, Printed, Flags;
    FlagsMean(offset, chunk, |message|);
    assert message[..offset] + message[offset..offset + chunk] == message[..offset + chunk];
    assert [] + message[..chunk] == message[..chunk];
    assert message[..|message|] == message;
  }

  lemma {:induction false} FramesFromDeliver(c: Control, message: Stream, offset: nat, room: nat, id: uint16)
    requires room >= 1 && offset <= |message| && HasPart(c, message, offset, id)
    ensures RunControl(c, FramesFrom(message, offset, room, id))
         == ControlOk(Delivered(c, message, id), [Printed(message)])
    decreases |message| - offset
  {
    hide Contains, Printed, ControlStep, Frame, RunControl, Flags, Fragment;
    var chunk := Min(|message| - offset, room);
    var flags := Flags(offset, chunk, |message|);
    var piece := message[offset..offset + chunk];
    FrameStep(c, flags, id, piece);
    FragmentOfMessage(c, message, offset, chunk, id);
    if offset + chunk < |message| {
      var next := c.(id := id, active := true, pending := message[..offset + chunk]);
      FramesFromDeliver(next, message, offset + chunk, room, id);
      RunControlCons(c, Frame(flags, id, piece), FramesFrom(message, offset + chunk, room, id));
    } else {
      RunControlNil(Delivered(c, message, id));
      RunControlCons(c, Frame(flags, id, piece), []);
    }
  }

  lemma RunControlNil(c: Control)
    ensures RunControl(c, []) == ControlOk(c, [])
  {
  }

  lemma RunControlCons(c: Control, frame: Stream, rest: seq<Stream>)
    requires ControlStep(c, frame).Accepted? && RunControl(ControlStep(c, frame).control, rest).ControlOk?
    ensures var step := ControlStep(c, frame);
            var last := RunControl(step.control, rest);
            RunControl(c, [frame] + rest) == ControlOk(last.control, step.printed + last.printed)
  {
    hide ControlStep;
    assert ([frame] + rest)[1..] == rest;
  }

  /** A message as it is sent: its text, the MTU and the message identifier. */
  datatype Sending = Sending(message: Stream, mtu: nat, id: uint16)

  function AllFrames(sendings: seq<Sending>): seq<Stream>
    requires forall i :: 0 <= i < |sendings| ==> sendings[i].mtu > HEADER_SIZE
  {
    if sendings == [] then []
    else Frames(sendings[0].message, sendings[0].mtu, sendings[0].id) + AllFrames(sendings[1..])
  }

  function AllPrinted(sendings: seq<Sending>): seq<Stream> {
    if sendings == [] then [] else [Printed(sendings[0].message)] + AllPrinted(sendings[1..])
  }

  /** One line for each message, in order. */
  ghost predicate AreLines(printed: seq<Stream>, sendings: seq<Sending>) {
    && |printed| == |sendings|
    && forall i :: 0 <= i < |sendings| ==> IsLine(printed[i], sendings[i].message)
  }

  ghost predicate SomeMessageHas(sendings: seq<Sending>, text: Stream) {
    exists i :: 0 <= i < |sendings| && Occurs(text, sendings[i].message)
  }

  lemma SomeMessageStep(sendings: seq<Sending>, text: Stream)
    ensures SomeMessageHas(sendings, text) <==>
            sendings != [] && (Occurs(text, sendings[0].message) || SomeMessageHas(sendings[1..], text))
  {
    hide Occurs;
    if sendings != [] {
      var rest := sendings[1..];
      assert forall i :: 0 <= i < |rest| ==> rest[i] == sendings[i + 1];
      if SomeMessageHas(sendings, text) {
        var i :| 0 <= i < |sendings| && Occurs(text, sendings[i].message);
        if i > 0 { assert Occurs(text, rest[i - 1].message); }
      }
    }
  }

  /** The identity texts are looked for in the message, and once seen they stay seen. */
  lemma DeliveredFlags(c: Control, message: Stream, id: uint16)
    ensures var d := Delivered(c, message, id);
            && !d.active && d.pending == []
            && (d.ready <==> c.ready || Occurs(READY_TEXT, message))
            && (d.error <==> c.error || Occurs(ERROR_TEXT, message))
  {
    hide Contains, Occurs;
    ContainsIffOccurs(message, READY_TEXT);
    ContainsIffOccurs(message, ERROR_TEXT);
  }

  lemma {:induction false} PrintedAreLines(sendings: seq<Sending>)
    ensures AreLines(AllPrinted(sendings), sendings)
  {
    hide IsLine, Printed;
    if sendings != [] {
      PrintedIsLine(sendings[0].message);
      PrintedAreLines(sendings[1..]);
    }
  }

  /** Fragmentation and reassembly undo each other, whatever state the receiver was left in. */
  lemma {:induction false} MessagesDeliver(c: Control, sendings: seq<Sending>)
    decreases |sendings|
    requires forall i :: 0 <= i < |sendings| ==> sendings[i].mtu > HEADER_SIZE
    ensures var r := RunControl(c, AllFrames(sendings));
            && r.ControlOk? && r.printed == AllPrinted(sendings)
            && AreLines(r.printed, sendings)
            && (sendings != [] ==> !r.control.active && r.control.pending == [])
            && (r.control.ready <==> c.ready || SomeMessageHas(sendings, Ascii("[BENCH_PKI] status=ready")))
            && (r.control.error <==> c.error || SomeMessageHas(sendings, Ascii("[BENCH_PKI] status=error")))
  {
    hide Contains, Printed, ControlStep, FramesFrom, SomeMessageHas, Delivered, AreLines, Occurs;
    PrintedAreLines(sendings);
    SomeMessageStep(sendings, READY_TEXT);
    SomeMessageStep(sendings, ERROR_TEXT);
    if sendings != [] {
      var s := sendings[0];
      FramesFromDeliver(c, s.message, 0, s.mtu - HEADER_SIZE, s.id);
      DeliveredFlags(c, s.message, s.id);
      MessagesDeliver(Delivered(c, s.message, s.id), sendings[1..]);
      RunControlSplits(c, Frames(s.message, s.mtu, s.id), AllFrames(sendings[1..]));
    }
  }

  lemma {:induction false} RunControlSplits(c: Control, a: seq<Stream>, b: seq<Stream>)
    requires RunControl(c, a).ControlOk?
    decreases |a|
    ensures RunControl(c, a + b)
         == match RunControl(RunControl(c, a).control, b)
            case ControlOk(last, more) => ControlOk(last, RunControl(c, a).printed + more)
            case ControlBroken => ControlBroken
  {
    hide ControlStep;
    if a == [] {
      assert a + b == b;
    } else {
      assert (a + b)[1..] == a[1..] + b;
      RunControlSplits(ControlStep(c, a[0]).control, a[1..], b);
    }
  }

  // ----- the bridge on values

  datatype Framing = Undecided | Complete | Stripping(expected: nat, pending: Stream)

  datatype Bridge = Bridge(framing: Framing, control: Control)

  const NEW_BRIDGE: Bridge := Bridge(Undecided, NO_CONTROL)

  datatype Forwarded = Forwarded(bridge: Bridge, tcp: Stream, printed: seq<Stream>) | Broken

  /** The first data SDU looks like a length prefix in front of a TLS record. */
  predicate LooksPrefixed(data: Stream) {
    |data| >= 5 && 20 <= data[2] <= 23 && data[3] == 3
  }

  function Decide(f: Framing, data: Stream): Framing {
    if !f.Undecided? then f else if LooksPrefixed(data) then Stripping(0, []) else Complete
  }

  function ForwardData(f: Framing, data: Stream): (Framing, Stream) {
    match Decide(f, data)
    case Stripping(expected, pending) =>
      var d := Drain(expected, pending + data);
      (Stripping(d.expected, d.pending), d.sent)
    case _ => (Complete, data)
  }

  /** `forward_ble_payload`, when TCP takes the bytes. */
  function Forward(b: Bridge, data: Stream): Forwarded {
    match ControlStep(b.control, data)
    case SequenceError => Broken
    case Accepted(control, printed) => Forwarded(b.(control := control), [], printed)
    case NotControl =>
      var (framing, tcp) := ForwardData(b.framing, data);
      Forwarded(b.(framing := framing), tcp, [])
  }

  function Run(b: Bridge, sdus: seq<Stream>): Forwarded
    decreases |sdus|
  {
    if sdus == [] then Forwarded(b, [], []) else
    match Forward(b, sdus[0])
    case Broken => Broken
    case Forwarded(b', tcp, printed) =>
      (match Run(b', sdus[1..])
       case Broken => Broken
       case Forwarded(last, more, lines) => Forwarded(last, tcp + more, printed + lines))
  }

  /** What goes to TCP, also of a run that breaks off at a sequence error. */
  function Passed(b: Bridge, sdus: seq<Stream>): Stream
    decreases |sdus|
  {
    if sdus == [] then [] else
    match Forward(b, sdus[0])
    case Broken => []
    case Forwarded(b', tcp, _) => tcp + Passed(b', sdus[1..])
  }

  lemma {:induction false} PassedIsForwarded(b: Bridge, sdus: seq<Stream>)
    ensures Run(b, sdus).Forwarded? ==> Run(b, sdus).tcp == Passed(b, sdus)
    decreases |sdus|
  {
    hide Forward;
    if sdus != [] && Forward(b, sdus[0]).Forwarded? { PassedIsForwarded(Forward(b, sdus[0]).bridge, sdus[1..]); }
  }

  function ControlPart(sdus: seq<Stream>): seq<Stream> {
    if sdus == [] then []
    else (if IsControl(sdus[0]) then [sdus[0]] else []) + ControlPart(sdus[1..])
  }

  function DataPart(sdus: seq<Stream>): seq<Stream> {
    if sdus == [] then []
    else (if IsControl(sdus[0]) then [] else [sdus[0]]) + DataPart(sdus[1..])
  }

  function RunData(f: Framing, sdus: seq<Stream>): (Framing, Stream)
    decreases |sdus|
  {
    if sdus == [] then (f, []) else
    var (f', tcp) := ForwardData(f, sdus[0]);
    var (last, more) := RunData(f', sdus[1..]);
    (last, tcp + more)
  }

  /** The two kinds of SDU do not disturb each other, however they are interleaved. */
  lemma {:induction false} RunSeparates(b: Bridge, sdus: seq<Stream>)
    decreases |sdus|
    ensures Run(b, sdus)
         == match RunControl(b.control, ControlPart(sdus))
            case ControlBroken => Broken
            case ControlOk(control, printed) =>
              var (framing, tcp) := RunData(b.framing, DataPart(sdus));
              Forwarded(Bridge(framing, control), tcp, printed)
  {
    hide ControlStep, ForwardData, IsControl;
    if sdus != [] {
      var rest := sdus[1..];
      NotControlIff(b.control, sdus[0]);
      match ControlStep(b.control, sdus[0]) {
        case NotControl =>
          assert ControlPart(sdus) == [] + ControlPart(rest) == ControlPart(rest);
          assert DataPart(sdus)[0] == sdus[0] && DataPart(sdus)[1..] == DataPart(rest);
          RunSeparates(b.(framing := ForwardData(b.framing, sdus[0]).0), rest);
          PrependNothing(Run(b.(framing := ForwardData(b.framing, sdus[0]).0), rest));
        case SequenceError =>
          assert ControlPart(sdus)[0] == sdus[0];
        case Accepted(control, printed) =>
          assert ControlPart(sdus)[0] == sdus[0] && ControlPart(sdus)[1..] == ControlPart(rest);
          assert DataPart(sdus) == [] + DataPart(rest) == DataPart(rest);
          RunSeparates(b.(control := control), rest);
          PrependNothing(Run(b.(control := control), rest));
      }
    }
  }

  lemma NotControlIff(c: Control, data: Stream)
    ensures ControlStep(c, data).NotControl? <==> !IsControl(data)
  {
  }

  lemma PrependNothing(f: Forwarded)
    ensures f.Forwarded? ==> [] + f.tcp == f.tcp && [] + f.printed == f.printed
  {
  }

  /** Complete SDUs are concatenated; prefixed ones are decoded as if they had come in one piece. */
  lemma {:induction false} RunDataIsDecoding(f: Framing, sdus: seq<Stream>)
    decreases |sdus|
    requires !f.Undecided?
    ensures RunData(f, sdus)
         == match f
            case Stripping(expected, pending) =>
              var d := Drain(expected, pending + Concat(sdus));
              if sdus == [] then (f, []) else (Stripping(d.expected, d.pending), d.sent)
            case _ => (Complete, Concat(sdus))
  {
    if sdus != [] {
      var (f', tcp) := ForwardData(f, sdus[0]);
      RunDataIsDecoding(f', sdus[1..]);
      if f.Stripping? {
        DrainSplits(f.expected, f.pending + sdus[0], Concat(sdus[1..]));
        assert f.pending + Concat(sdus) == (f.pending + sdus[0]) + Concat(sdus[1..]);
        if sdus[1..] == [] {
          assert Concat(sdus) == sdus[0] + [] == sdus[0];
          assert tcp + [] == tcp;
        }
      }
    }
  }

  /** What the data SDUs of a session mean. */
  function Payload(sdus: seq<Stream>): Stream {
    if sdus != [] && LooksPrefixed(sdus[0]) then Strip(Concat(sdus)) else Concat(sdus)
  }

  /**
    The bridge on any interleaving of whole control messages with data: standard output gets exactly
    the messages, in order, TCP gets exactly the payload of the data, and neither side is left
    waiting for more control.
   */
  lemma UplinkIsExact(control: Control, sdus: seq<Stream>, sendings: seq<Sending>)
    requires forall i :: 0 <= i < |sendings| ==> sendings[i].mtu > HEADER_SIZE
    requires ControlPart(sdus) == AllFrames(sendings)
    ensures var r := Run(Bridge(Undecided, control), sdus);
            && r.Forwarded?
            && r.printed == AllPrinted(sendings) && AreLines(r.printed, sendings)
            && r.tcp == Payload(DataPart(sdus))
            && (sendings != [] ==> !r.bridge.control.active && r.bridge.control.pending == [])
  {
    hide Run, RunControl, RunData, ControlPart, DataPart, AllFrames, AllPrinted, AreLines, SomeMessageHas, Payload;
    RunSeparates(Bridge(Undecided, control), sdus);
    MessagesDeliver(control, sendings);
    DataIsPayload(DataPart(sdus));
  }

  lemma DataIsPayload(data: seq<Stream>)
    ensures RunData(Undecided, data).1 == Payload(data)
  {
    hide Drain, Strip, LooksPrefixed;
    if data != [] {
      var f := Decide(Undecided, data[0]);
      assert RunData(Undecided, data) == RunData(f, data);
      RunDataIsDecoding(f, data);
      assert [] + Concat(data) == Concat(data);
      DrainIsStrip(Concat(data));
    }
  }

  /** Without control frames in between, an SDU stream with prefixes comes out as its payloads. */
  lemma PrefixedStreamRoundTrip(pieces: seq<Stream>, payloads: seq<Stream>)
    requires forall i :: 0 <= i < |payloads| ==> |payloads[i]| < TWO_TO_THE_16
    requires Concat(pieces) == EncodeSdus(payloads)
    ensures RunData(Stripping(0, []), pieces).1 == Concat(payloads)
  {
    RunDataIsDecoding(Stripping(0, []), pieces);
    SdusRoundTrip(payloads);
    assert [] + Concat(pieces) == Concat(pieces);
  }

  // ----- the framing decision, in the bytes of the first receive

  lemma {:induction false} StripIsShorter(s: Stream)
    requires |s| >= 2
    ensures |Strip(s)| <= |s| - 2
    decreases |s|
  {
    var size := Min(PrefixOf(s), |s| - 2);
    var rest := s[2 + size..];
    if |rest| >= 2 { StripIsShorter(rest); }
  }

  lemma {:induction false} EncodedIsLonger(payloads: seq<Stream>)
    requires forall i :: 0 <= i < |payloads| ==> |payloads[i]| < TWO_TO_THE_16
    ensures |EncodeSdus(payloads)| == |Concat(payloads)| + 2 * |payloads|
  {
    if payloads != [] { EncodedIsLonger(payloads[1..]); }
  }

  /** A new bridge on data alone. */
  lemma NewBridgeOnData(sdus: seq<Stream>)
    requires sdus != [] && forall s <- sdus :: !CarriesMagic(s)
    ensures var r := Run(NEW_BRIDGE, sdus);
            && r.Forwarded? && r.printed == []
            && r.tcp == if LooksPrefixed(sdus[0]) then Strip(Concat(sdus)) else Concat(sdus)
  {
    hide CarriesMagic, LooksPrefixed, Strip, ControlStep, IsControl, Contains, Printed;
    forall s | s in sdus
      ensures !IsControl(s)
    {
      ControlIffMagic(s);
    }
    AllData(sdus);
    UplinkIsExact(NO_CONTROL, sdus, []);
  }

  /**
    Complete SDUs reach TCP unchanged exactly if the third and fourth byte of the first do not look
    like the record type and the major version of a TLS record behind a length.
   */
  lemma CompleteSdusIff(sdus: seq<Stream>)
    requires sdus != [] && forall s <- sdus :: !CarriesMagic(s)
    ensures var first := sdus[0];
            Run(NEW_BRIDGE, sdus).Forwarded? && (Run(NEW_BRIDGE, sdus).tcp == Concat(sdus) <==>
              !(|first| >= 5 && 20 <= first[2] <= 23 && first[3] == 3))
  {
    hide CarriesMagic, Strip, Run;
    NewBridgeOnData(sdus);
    if |sdus[0]| >= 5 { StripIsShorter(Concat(sdus)); }
  }

  /** So do SDUs that begin with a TLS record of a minor version below 20. */
  lemma CompleteRecordsPass(sdus: seq<Stream>)
    requires sdus != [] && forall s <- sdus :: !CarriesMagic(s)
    requires |sdus[0]| >= 3 && 20 <= sdus[0][0] <= 23 && sdus[0][1] == 3 && sdus[0][2] < 20
    ensures Run(NEW_BRIDGE, sdus).Forwarded? && Run(NEW_BRIDGE, sdus).tcp == Concat(sdus)
  {
    hide CarriesMagic, Run;
    CompleteSdusIff(sdus);
  }

  /** SDUs behind their lengths come out whole exactly if the first receive shows a record behind the first length. */
  lemma PrefixedSdusIff(sdus: seq<Stream>, payloads: seq<Stream>)
    requires forall i :: 0 <= i < |payloads| ==> |payloads[i]| < TWO_TO_THE_16
    requires sdus != [] && payloads != [] && Concat(sdus) == EncodeSdus(payloads)
    requires forall s <- sdus :: !CarriesMagic(s)
    ensures var first := sdus[0];
            Run(NEW_BRIDGE, sdus).Forwarded? && (Run(NEW_BRIDGE, sdus).tcp == Concat(payloads) <==>
              |first| >= 5 && 20 <= first[2] <= 23 && first[3] == 3)
  {
    hide CarriesMagic, Strip, Run, Drain, EncodeSdus;
    NewBridgeOnData(sdus);
    SdusRoundTrip(payloads);
    DrainIsStrip(EncodeSdus(payloads));
    EncodedIsLonger(payloads);
  }

  /** So they do if the first is a record and the first receive has at least five bytes, however the stream is cut. */
  lemma PrefixedRecordsPass(sdus: seq<Stream>, payloads: seq<Stream>)
    requires forall i :: 0 <= i < |payloads| ==> |payloads[i]| < TWO_TO_THE_16
    requires sdus != [] && payloads != [] && Concat(sdus) == EncodeSdus(payloads)
    requires forall s <- sdus :: !CarriesMagic(s)
    requires |payloads[0]| >= 2 && 20 <= payloads[0][0] <= 23 && payloads[0][1] == 3
    requires |sdus[0]| >= 5
    ensures Run(NEW_BRIDGE, sdus).Forwarded? && Run(NEW_BRIDGE, sdus).tcp == Concat(payloads)
  {
    hide CarriesMagic, Run;
    PrefixedSdusIff(sdus, payloads);
    var all, first := EncodeSdus(payloads), payloads[0];
    assert all == sdus[0] + Concat(sdus[1..]);
    assert all[2] == first[0] && all[3] == first[1];
  }

  // ----- cutting a stream into SDUs

  /** The chunk loops of `relay_loop` and `l2cap_wolfssl_send`. */
  function Chunks(data: Stream, mtu: nat): (r: seq<Stream>)
    requires mtu >= 1
    ensures forall c <- r :: 1 <= |c| <= mtu
    decreases |data|
  {
    if data == [] then [] else
    var size := Min(|data|, mtu);
    [data[..size]] + Chunks(data[size..], mtu)
  }

  lemma {:induction false} ChunksConcat(data: Stream, mtu: nat)
    requires mtu >= 1
    ensures Concat(Chunks(data, mtu)) == data
    decreases |data|
  {
    if data != [] {
      var size := Min(|data|, mtu);
      ChunksConcat(data[size..], mtu);
      assert Chunks(data, mtu)[1..] == Chunks(data[size..], mtu);
      assert data[..size] + data[size..] == data;
    }
  }

  /** All chunks but the last are as long as the MTU allows. */
  lemma {:induction false} ChunksAreFull(data: Stream, mtu: nat)
    requires mtu >= 1
    ensures AllButLastHave(Chunks(data, mtu), mtu)
    decreases |data|
  {
    if data != [] { ChunksAreFull(data[Min(|data|, mtu)..], mtu); }
  }

  lemma ChunksNil(mtu: nat)
    requires mtu >= 1
    ensures Chunks([], mtu) == []
  {
  }

  lemma ChunksStep(buf: Stream, sent: nat, mtu: nat)
    requires mtu >= 1 && sent < |buf|
    ensures var chunk := Min(|buf| - sent, mtu);
            Chunks(buf[sent..], mtu) == [buf[sent..sent + chunk]] + Chunks(buf[sent + chunk..], mtu)
  {
    var chunk := Min(|buf| - sent, mtu);
    assert buf[sent..][..chunk] == buf[sent..sent + chunk];
    assert buf[sent..][chunk..] == buf[sent + chunk..];
  }

  // ----- the device's TLS bytes on their way up

  lemma DataPartStep(sdus: seq<Stream>)
    requires sdus != []
    ensures |Concat(DataPart(sdus))| == (if IsControl(sdus[0]) then 0 else |sdus[0]|) + |Concat(DataPart(sdus[1..]))|
  {
    hide IsControl;
    var rest := DataPart(sdus[1..]);
    if IsControl(sdus[0]) {
      assert DataPart(sdus) == rest;
    } else {
      assert DataPart(sdus)[0] == sdus[0] && DataPart(sdus)[1..] == rest;
    }
  }

  lemma {:induction false} DataPartNoLonger(sdus: seq<Stream>)
    ensures |Concat(DataPart(sdus))| <= |Concat(sdus)|
  {
    hide IsControl;
    if sdus != [] {
      DataPartNoLonger(sdus[1..]);
      DataPartStep(sdus);
    }
  }

  lemma {:induction false} AllData(sdus: seq<Stream>)
    requires forall s <- sdus :: !IsControl(s)
    ensures DataPart(sdus) == sdus && ControlPart(sdus) == []
  {
    hide IsControl;
    if sdus != [] {
      assert forall s <- sdus[1..] :: s in sdus;
      AllData(sdus[1..]);
      assert sdus[0] in sdus;
    }
  }

  lemma {:induction false} ControlTakesBytes(sdus: seq<Stream>, k: nat)
    requires k < |sdus| && IsControl(sdus[k])
    ensures |Concat(DataPart(sdus))| < |Concat(sdus)|
  {
    hide IsControl;
    ControlHasBytes(sdus[0]);
    DataPartNoLonger(sdus[1..]);
    DataPartStep(sdus);
    if !IsControl(sdus[0]) { ControlTakesBytes(sdus[1..], k - 1); }
  }

  lemma ControlHasBytes(data: Stream)
    ensures IsControl(data) ==> |data| >= HEADER_SIZE
  {
  }

  /** SDUs are passed on complete and unchanged exactly when none of them carries the control magic. */
  lemma CompleteModeIsExact(control: Control, sdus: seq<Stream>)
    ensures (Run(Bridge(Complete, control), sdus).Forwarded?
             && Run(Bridge(Complete, control), sdus).tcp == Concat(sdus))
       <==> forall s <- sdus :: !IsControl(s)
  {
    hide ControlStep, IsControl;
    RunSeparates(Bridge(Complete, control), sdus);
    RunDataIsDecoding(Complete, DataPart(sdus));
    if s :| s in sdus && IsControl(s) {
      var k :| 0 <= k < |sdus| && sdus[k] == s;
      ControlTakesBytes(sdus, k);
    } else {
      AllData(sdus);
    }
  }
}
