/** The bridge's receiving half with its state in place: realloc'd buffers, memmove, and a TCP socket that may fail. */
module RelayBridge {
  import opened Bytes
  import opened Uplink

  const BRIDGE_RECV_BUFFER_SIZE: nat := 65535
  const FIRST_CAPACITY: nat := 1024

  /** The sizes a pending buffer can have while SDUs are drained as they come. */
  const CAPACITIES: set<nat> := {0, 1024, 2048, 4096, 8192, 16384, 32768, 65536}

  /** The doubling loops: the first capacity from `capacity` on that holds `needed` bytes. */
  function Grown(capacity: nat, needed: nat): (r: nat)
    requires capacity >= 1
    ensures r >= needed && r >= capacity
    decreases needed - capacity
  {
    if capacity >= needed then capacity else Grown(2 * capacity, needed)
  }

  lemma {:induction false} GrownIsCapacity(capacity: nat, needed: nat)
    requires capacity in CAPACITIES && capacity >= 1 && needed <= 65536
    ensures Grown(capacity, needed) in CAPACITIES
    decreases needed - capacity
  {
    if capacity < needed { GrownIsCapacity(2 * capacity, needed); }
  }

  /** `realloc` to a doubled capacity; the first `len` bytes are kept. */
  method Realloc(buffer: array<byte>, len: nat, needed: nat) returns (r: array<byte>)
    requires len <= buffer.Length < needed
    ensures fresh(r) && r.Length == Grown(if buffer.Length == 0 then FIRST_CAPACITY else buffer.Length, needed)
    ensures r[..len] == buffer[..len]
  {
    var capacity := if buffer.Length == 0 then FIRST_CAPACITY else buffer.Length;
    ghost var first := capacity;
    while capacity < needed
      invariant capacity >= 1 && Grown(capacity, needed) == Grown(first, needed)
    {
      capacity := capacity * 2;
    }
    r := new byte[capacity](_ => 0);
    forall i | 0 <= i < len { r[i] := buffer[i]; }
  }

  lemma DrainChunk(expected: nat, s: Stream, chunk: nat)
    requires expected > 0 && chunk == Min(expected, |s|)
    ensures var d := Drain(expected - chunk, s[chunk..]); Drain(expected, s) == d.(sent := s[..chunk] + d.sent)
  {
    hide Drain;
    if expected <= |s| {
      DrainWhole(expected, s);
    } else {
      DrainPart(expected, s);
      DrainNil(expected - |s|);
      assert s[|s|..] == [] && s[..|s|] == s && s + [] == s;
    }
  }

  datatype Outcome = Ok | Failed

  /** A fragment that ends a message adds its text as one line to what has been printed; others add nothing. */
  ghost predicate PrintsIfEnded(before: seq<Stream>, after: seq<Stream>, ended: bool, text: Stream) {
    if ended then |after| == |before| + 1 && before <= after && IsLine(after[|before|], text) else after == before
  }

  class Relay {
    var framingDecided: bool
    var stripPrefix: bool
    var pending: array<byte>
    var pendingLen: nat
    var expectedSduLen: nat

    var messageId: uint16
    var active: bool
    var message: array<byte>
    var messageLen: nat
    var identityReady: bool
    var identityError: bool

    /** Bytes TCP has taken, messages written to standard output, and SDUs BLE has taken. */
    var tcp: Stream
    var stdout: seq<Stream>
    var ble: seq<Stream>

    /** A send to TCP or BLE has failed. */
    ghost var broken: bool

    ghost predicate Shape()
      reads this
    {
      pending != message && pendingLen <= pending.Length && messageLen <= message.Length
    }

    /** What holds between two receives: at most one pending byte, and a buffer of at most 65536 bytes. */
    ghost predicate Valid()
      reads this
    {
      && Shape()
      && pendingLen <= 1 && (pendingLen == 1 ==> expectedSduLen == 0)
      && pending.Length in CAPACITIES
      && (stripPrefix ==> framingDecided)
      && (!stripPrefix ==> pendingLen == 0 && expectedSduLen == 0)
    }

    ghost function Framing(): Uplink.Framing
      reads this, pending
      requires Shape()
    {
      if !framingDecided then Undecided
      else if stripPrefix then Stripping(expectedSduLen, pending[..pendingLen]) else Complete
    }

    function Control(): Uplink.Control
      reads this, message
      requires Shape()
    {
      Uplink.Control(messageId, active, message[..messageLen], identityReady, identityError)
    }

    ghost function Value(): Bridge
      reads this, pending, message
      requires Shape()
    {
      Bridge(Framing(), Control())
    }

    constructor ()
      ensures Valid() && fresh(pending) && fresh(message)
      ensures Value() == NEW_BRIDGE && tcp == [] && stdout == [] && ble == [] && !broken
    {
      framingDecided, stripPrefix, expectedSduLen, pendingLen := false, false, 0, 0;
      messageId, active, messageLen, identityReady, identityError := 0, false, 0, false, false;
      pending := new byte[0];
      message := new byte[0];
      tcp, stdout, ble, broken := [], [], [], false;
    }

    /** `send_stream`: partial sends until everything is out or the socket fails. */
    method SendStream(data: Stream) returns (r: Outcome)
      modifies this`tcp, this`broken
      ensures r == Ok ==> tcp == old(tcp) + data && broken == old(broken)
      ensures r == Failed ==> old(tcp) <= tcp < old(tcp) + data && broken
    {
      var offset := 0;
      while offset < |data|
        invariant offset <= |data| && tcp == old(tcp) + data[..offset] && broken == old(broken)
      {
        var written: int :| written <= |data| - offset;
        if written <= 0 {
          broken := true;
          return Failed;
        }
        tcp := tcp + data[offset..offset + written];
        assert data[..offset] + data[offset..offset + written] == data[..offset + written];
        offset := offset + written;
      }
      assert data[..|data|] == data;
      r := Ok;
    }

    /** `append_pending`. */
    method AppendPending(data: Stream)
      requires Shape() && pending.Length in CAPACITIES && pendingLen + |data| <= 65536
      modifies this`pending, this`pendingLen, pending
      ensures Shape() && pending.Length in CAPACITIES && (pending == old(pending) || fresh(pending))
      ensures pending[..pendingLen] == old(pending[..pendingLen]) + data
    {
      if |data| == 0 { return; }
      var needed := pendingLen + |data|;
      if needed > pending.Length {
        GrownIsCapacity(if pending.Length == 0 then FIRST_CAPACITY else pending.Length, needed);
        pending := Realloc(pending, pendingLen, needed);
      }
      forall i | 0 <= i < |data| { pending[pendingLen + i] := data[i]; }
      pendingLen := needed;
    }

    /** `memmove` of the pending bytes behind the first `count` to the front. */
    method DropPending(count: nat)
      requires Shape() && count <= pendingLen
      modifies this`pendingLen, pending
      ensures Shape()
      ensures pending[..pendingLen] == old(pending[count..pendingLen])
    {
      forall i | 0 <= i < pendingLen - count { pending[i] := pending[count + i]; }
      pendingLen := pendingLen - count;
    }

    /** The two length bytes in front of an SDU. */
    method TakePrefix()
      requires Shape() && expectedSduLen == 0 && pendingLen >= 2
      modifies this`pendingLen, this`expectedSduLen, pending
      ensures Shape() && pendingLen == old(pendingLen) - 2
      ensures Drain(expectedSduLen, pending[..pendingLen]) == old(Drain(0, pending[..pendingLen]))
    {
      hide Drain;
      ghost var s := pending[..pendingLen];
      DrainPrefix(s);
      expectedSduLen := pending[0] as int + 256 * (pending[1] as int);
      DropPending(2);
      assert pending[..pendingLen] == s[2..];
    }

    /** As much of the current SDU as is there goes to TCP. */
    method SendChunk() returns (r: Outcome)
      requires Shape() && expectedSduLen > 0 && pendingLen > 0
      modifies this`tcp, this`broken, this`pendingLen, this`expectedSduLen, pending
      ensures Shape()
      ensures if r == Failed then broken else broken == old(broken) && pendingLen < old(pendingLen)
      ensures r == Ok ==>
        var d := Drain(expectedSduLen, pending[..pendingLen]);
        var whole := old(Drain(expectedSduLen, pending[..pendingLen]));
        whole.expected == d.expected && whole.pending == d.pending && old(tcp) + whole.sent == tcp + d.sent
      ensures old(tcp) <= tcp
      ensures r == Failed ==> tcp <= old(tcp) + old(Drain(expectedSduLen, pending[..pendingLen])).sent
    {
      hide Drain;
      ghost var s := pending[..pendingLen];
      var chunk := expectedSduLen;
      if chunk > pendingLen {
        chunk := pendingLen;
      }
      DrainChunk(expectedSduLen, s, chunk);
      r := SendStream(pending[..chunk]);
      if r == Failed {
        return;
      }
      DropPending(chunk);
      expectedSduLen := expectedSduLen - chunk;
      assert pending[..pendingLen] == s[chunk..];
    }

    /** `drain_prefixed_sdu`: sends what `Drain` says and keeps the rest, or fails with the socket. */
    method DrainPrefixedSdu() returns (r: Outcome)
      requires Shape()
      modifies this`tcp, this`broken, this`pendingLen, this`expectedSduLen, pending
      ensures Shape()
      ensures if r == Failed then broken else broken == old(broken)
      ensures var d := old(Drain(expectedSduLen, pending[..pendingLen]));
              && (r == Ok ==> && tcp == old(tcp) + d.sent
                              && expectedSduLen == d.expected && pending[..pendingLen] == d.pending)
              && old(tcp) <= tcp <= old(tcp) + d.sent
    {
      hide Drain;
      ghost var whole := Drain(expectedSduLen, pending[..pendingLen]);
      while pendingLen > 0
        invariant Shape() && pending == old(pending) && old(tcp) <= tcp && broken == old(broken)
        invariant var d := Drain(expectedSduLen, pending[..pendingLen]);
                  old(tcp) + whole.sent == tcp + d.sent && whole.expected == d.expected && whole.pending == d.pending
        decreases pendingLen
      {
        if expectedSduLen == 0 {
          if pendingLen < 2 {
            DrainShort(pending[..pendingLen]);
            return Ok;
          }
          TakePrefix();
          if expectedSduLen == 0 || pendingLen == 0 {
            continue;
          }
        }
        r := SendChunk();
        if r == Failed {
          return Failed;
        }
      }
      assert pending[..pendingLen] == [];
      DrainNil(expectedSduLen);
      r := Ok;
    }

    /** `handle_control_frame`: -1, 0 and 1 of the C function are its three results. */
    method HandleControlFrame(data: Stream) returns (r: ControlResult)
      requires Shape()
      modifies this`messageId, this`active, this`message, this`messageLen, this`identityReady, this`identityError,
        this`stdout, message
      ensures Shape() && (message == old(message) || fresh(message))
      ensures r == ControlStep(old(Control()), data)
      ensures Control() == if r.Accepted? then r.control else old(Control())
      ensures stdout == old(stdout) + if r.Accepted? then r.printed else []
      ensures r.Accepted? ==>
        var base := if CarriesMagicAt(data, 0) then 0 else 2;
        && |data| >= base + 8
        && var so := if data[base + 5] % 2 == 1 then [] else old(message[..messageLen]);
        PrintsIfEnded(old(stdout), stdout, (data[base + 5] / 2) % 2 == 1, so + data[base + 8..])
    {
      hide Fragment, PrintsIfEnded;
      MagicAt(data, 0);
      var base;
      if |data| >= HEADER_SIZE && data[..5] == MAGIC {
        base := 0;
      } else if |data| >= HEADER_SIZE + 2 && data[2..7] == MAGIC {
        base := 2;
      } else {
        return NotControl;
      }
      var total := data[base + 6] as int + 256 * (data[base + 7] as int);
      r := AcceptFragment(data[base + 5], total, data[base + HEADER_SIZE..]);
    }

    /** `handle_control_frame` behind the header. */
    method AcceptFragment(flags: byte, id: uint16, payload: Stream) returns (r: ControlResult)
      requires Shape()
      modifies this`messageId, this`active, this`message, this`messageLen, this`identityReady, this`identityError,
        this`stdout, message
      ensures Shape() && (message == old(message) || fresh(message))
      ensures r == Fragment(old(Control()), flags, id, payload) && !r.NotControl?
      ensures Control() == if r.Accepted? then r.control else old(Control())
      ensures stdout == old(stdout) + if r.Accepted? then r.printed else []
      ensures r.Accepted? ==>
        var so := if flags % 2 == 1 then [] else old(message[..messageLen]);
        PrintsIfEnded(old(stdout), stdout, (flags / 2) % 2 == 1, so + payload)
    {
      hide Finish, Printed, IsLine;
      if flags % 2 == 1 {
        messageId, active, messageLen := id, true, 0;
        assert message[..messageLen] == [];
      }
      if !active || messageId != id {
        return SequenceError;
      }
      AppendMessage(payload);
      if (flags / 2) % 2 == 1 {
        CompleteMessage();
        return Accepted(Control(), [stdout[|stdout| - 1]]);
      }
      return Accepted(Control(), []);
    }

    /** The END branch: look for the identity texts, print the message and become idle. */
    method CompleteMessage()
      requires Shape()
      modifies this`active, this`messageLen, this`identityReady, this`identityError, this`stdout
      ensures Shape()
      ensures Control() == Finish(old(Control()))
      ensures stdout == old(stdout) + [Printed(old(message[..messageLen]))]
      ensures IsLine(stdout[|stdout| - 1], old(message[..messageLen]))
    {
      hide Contains;
      var text := message[..messageLen];
      if Contains(text, READY_TEXT) { identityReady := true; }
      if Contains(text, ERROR_TEXT) { identityError := true; }
      var printed := if messageLen == 0 || message[messageLen - 1] != 10 then text + [10] else text;
      stdout := stdout + [printed];
      active, messageLen := false, 0;
      assert message[..messageLen] == [];
    }

    /** The growth and copy inside `handle_control_frame`. */
    method AppendMessage(payload: Stream)
      requires Shape()
      modifies this`message, this`messageLen, message
      ensures Shape() && (message == old(message) || fresh(message))
      ensures message[..messageLen] == old(message[..messageLen]) + payload
    {
      var needed := messageLen + |payload|;
      if needed > message.Length {
        message := Realloc(message, messageLen, needed);
      }
      ghost var before := message[..messageLen];
      forall i | 0 <= i < |payload| { message[messageLen + i] := payload[i]; }
      assert message[..messageLen] == before && message[messageLen..needed] == payload;
      messageLen := needed;
    }

    /** `forward_ble_payload` on one receive of the bridge. */
    method ForwardBlePayload(data: Stream) returns (r: Outcome)
      requires Valid() && |data| <= BRIDGE_RECV_BUFFER_SIZE
      modifies this, pending, message
      ensures ble == old(ble)
      ensures Shape()
      ensures (pending == old(pending) || fresh(pending)) && (message == old(message) || fresh(message))
      ensures var f := Forward(old(Value()), data);
              && (f.Broken? ==> r == Failed && broken == old(broken))
              && (r == Ok ==> && Valid() && broken == old(broken)
                              && Value() == f.bridge
                              && tcp == old(tcp) + f.tcp && stdout == old(stdout) + f.printed)
              && (r == Failed ==> f.Broken? || broken)
              && (r == Failed ==>
                    stdout == old(stdout) && old(tcp) <= tcp <= old(tcp) + (if f.Broken? then [] else f.tcp))
    {
      hide ControlStep, ForwardData;
      var control := HandleControlFrame(data);
      if !control.NotControl? {
        return if control.SequenceError? then Failed else Ok;
      }
      r := ForwardDataBytes(data);
    }

    /** `forward_ble_payload` on data: decide the framing on the first of it, then pass it on or strip its prefixes. */
    method ForwardDataBytes(data: Stream) returns (r: Outcome)
      requires Valid() && |data| <= BRIDGE_RECV_BUFFER_SIZE
      modifies this`framingDecided, this`stripPrefix, this`pending, this`pendingLen, this`expectedSduLen
      modifies this`tcp, this`broken, pending
      ensures Shape() && (pending == old(pending) || fresh(pending))
      ensures if r == Failed then broken else broken == old(broken)
      ensures var (framing, sent) := ForwardData(old(Framing()), data);
              && (r == Ok ==> Valid() && Framing() == framing && tcp == old(tcp) + sent)
              && old(tcp) <= tcp <= old(tcp) + sent
    {
      hide Drain;
      if !framingDecided {
        stripPrefix := LooksPrefixed(data);
        framingDecided := true;
        assert stripPrefix ==> pending[..pendingLen] == [];
      }
      if !stripPrefix {
        r := SendStream(data);
        return;
      }
      DrainLeavesOneByte(expectedSduLen, pending[..pendingLen] + data);
      AppendPending(data);
      r := DrainPrefixedSdu();
      assert |pending[..pendingLen]| == pendingLen;
    }

    /** The BLE half of `relay_loop`, receive by receive: it is the bridge of module Uplink. */
    method ReceiveAll(sdus: seq<Stream>) returns (r: Outcome)
      requires Valid() && forall s <- sdus :: |s| <= BRIDGE_RECV_BUFFER_SIZE
      modifies this, pending, message
      ensures ble == old(ble)
      ensures var f := Run(old(Value()), sdus);
              && (f.Broken? ==> r == Failed)
              && (r == Ok ==> && Valid() && broken == old(broken)
                              && Value() == f.bridge
                              && tcp == old(tcp) + f.tcp && stdout == old(stdout) + f.printed)
              && (r == Failed ==> broken || (f.Broken? && tcp == old(tcp) + Passed(old(Value()), sdus)))
      ensures old(tcp) <= tcp <= old(tcp) + Passed(old(Value()), sdus)
    {
      hide Forward, Run, Passed;
      ghost var whole, all := Run(Value(), sdus), Passed(Value(), sdus);
      PassedIsForwarded(Value(), sdus);
      assert sdus[0..] == sdus;
      JoinedStart(Value(), sdus, tcp, stdout);
      for i := 0 to |sdus|
        invariant Shape() && Valid() && ble == old(ble) && broken == old(broken)
        invariant (pending == old(pending) || fresh(pending)) && (message == old(message) || fresh(message))
        invariant Joined(whole, Run(Value(), sdus[i..]), old(tcp), tcp, old(stdout), stdout)
        invariant old(tcp) <= tcp && old(tcp) + all == tcp + Passed(Value(), sdus[i..])
      {
        assert sdus[i..][0] == sdus[i] && sdus[i..][1..] == sdus[i + 1..];
        JoinedStep(whole, Value(), sdus[i..], old(tcp), tcp, old(stdout), stdout);
        r := ForwardBlePayload(sdus[i]);
        if r == Failed {
          return Failed;
        }
      }
      RunNothing(Value());
      assert sdus[|sdus|..] == [];
      r := Ok;
    }

    /** The TCP half of `relay_loop` on one receive: whole SDUs of at most `mtu` bytes, until one cannot be sent. */
    method ForwardTcp(data: Stream, mtu: nat) returns (r: Outcome)
      requires mtu >= 1
      modifies this`ble, this`broken
      ensures r == Ok ==> ble == old(ble) + Chunks(data, mtu) && broken == old(broken)
      ensures r == Failed ==> old(ble) <= ble < old(ble) + Chunks(data, mtu) && broken
    {
      hide Chunks;
      assert data[0..] == data;
      var offset := 0;
      while offset < |data|
        invariant offset <= |data| && old(ble) <= ble && broken == old(broken)
        invariant ble + Chunks(data[offset..], mtu) == old(ble) + Chunks(data, mtu)
      {
        var chunk := |data| - offset;
        if chunk > mtu { chunk := mtu; }
        ChunksStep(data, offset, mtu);
        var sent: bool := *;
        if !sent {
          broken := true;
          return Failed;
        }
        ghost var before := ble;
        ble := ble + [data[offset..offset + chunk]];
        assert ble + Chunks(data[offset + chunk..], mtu) == before + Chunks(data[offset..], mtu);
        offset := offset + chunk;
      }
      assert data[offset..] == [];
      ChunksNil(mtu);
      r := Ok;
    }
  }

  /** A run is what was forwarded so far and then what the rest of it forwards. */
  ghost predicate Joined(
    whole: Forwarded, rest: Forwarded, tcp0: Stream, tcp: Stream, out0: seq<Stream>, out: seq<Stream>)
  {
    match rest
    case Broken => whole.Broken?
    case Forwarded(bridge, more, lines) =>
      && whole.Forwarded? && whole.bridge == bridge
      && tcp0 + whole.tcp == tcp + more && out0 + whole.printed == out + lines
  }

  lemma RunNothing(b: Bridge)
    ensures Run(b, []) == Forwarded(b, [], []) && Passed(b, []) == []
  {}

  lemma JoinedStart(b: Bridge, sdus: seq<Stream>, tcp: Stream, out: seq<Stream>)
    ensures Joined(Run(b, sdus), Run(b, sdus), tcp, tcp, out, out)
  {}

  /** What one receive changes about the rest of a run. */
  lemma JoinedStep(
    whole: Forwarded, b: Bridge, rest: seq<Stream>, tcp0: Stream, tcp: Stream, out0: seq<Stream>, out: seq<Stream>)
    requires rest != [] && Joined(whole, Run(b, rest), tcp0, tcp, out0, out)
    ensures match Forward(b, rest[0])
            case Broken => whole.Broken? && Passed(b, rest) == []
            case Forwarded(b', more, lines) =>
              && Joined(whole, Run(b', rest[1..]), tcp0, tcp + more, out0, out + lines)
              && tcp + Passed(b, rest) == (tcp + more) + Passed(b', rest[1..])
  {
    hide Forward;
    match Forward(b, rest[0])
    case Broken =>
    case Forwarded(b', more, lines) =>
      match Run(b', rest[1..]) {
        case Broken =>
        case Forwarded(last, more', lines') =>
          assert tcp + (more + more') == (tcp + more) + more';
          assert out + (lines + lines') == (out + lines) + lines';
      }
      assert tcp + (more + Passed(b', rest[1..])) == (tcp + more) + Passed(b', rest[1..]);
  }
}
