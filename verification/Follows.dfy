/** Proofs that the two machines follow the script at every position. */
module Follows {
  import opened Bytes
  import opened Framing
  import opened Packets
  import opened Text
  import opened Protocol
  import opened Script
  import Device
  import Server

  lemma NextPosition(env: Env, k: nat)
    requires PREFIX <= k < Length(env)
    ensures OpAt(k) < |env.plan| && PhaseAt(k) < 8
    ensures PhaseAt(k) < 7 ==> k + 1 < Length(env) && OpAt(k + 1) == OpAt(k) && PhaseAt(k + 1) == PhaseAt(k) + 1
    ensures PhaseAt(k) == 7 && OpAt(k) + 1 < |env.plan| ==>
              k + 1 < Length(env) && OpAt(k + 1) == OpAt(k) + 1 && PhaseAt(k + 1) == 0
    ensures PhaseAt(k) == 7 && OpAt(k) + 1 == |env.plan| ==> k + 1 == Length(env)
  {
  }

  lemma IdsAdvance(env: Env, n: nat)
    ensures Device.Increment(DeviceId(env, n)) == DeviceId(env, n + 1)
  {
  }

  lemma TransfersGrow(plan: seq<Operation>, i: nat)
    requires i < |plan|
    ensures Transfers(plan, i + 1) == Transfers(plan, i) + [TransferOf(plan[i])]
  {
  }

  /** The device's state after the message of a phase. */
  function DeviceNext(env: Env, i: nat, phase: nat): Device.State
    requires i < |env.plan| && phase < 8
  {
    if phase < 7 then DeviceIn(env, i, phase + 1)
    else if i + 1 < |env.plan| then DeviceIn(env, i + 1, 0)
    else Device.State(Device.Done, DeviceIdIn(env, i + 1, 0), Transfers(env.plan, i + 1))
  }

  function ServerNext(env: Env, i: nat, phase: nat): Server.State
    requires i < |env.plan| && phase < 8
  {
    if phase < 7 then ServerIn(env, i, phase + 1)
    else if i + 1 < |env.plan| then ServerIn(env, i + 1, 0)
    else Server.State(Server.Done, Counter(ServerIdIn(i + 1, 0)), Transfers(env.plan, i + 1))
  }

  // ----- the device

  lemma DeviceOutputs(env: Env, i: nat, phase: nat)
    requires Proper(env) && i < |env.plan| && phase < 8 && Writes(env, i, phase)
    ensures Device.Output(env, DeviceIn(env, i, phase)) == Some(OperationMessage(env, i, phase))
  {
    hide EncodePublish, EncodePuback, DeviceReadPublish, ServerReadPublish, ReadPuback, Server.ReadServerPuback,
      FormatBegin, FormatCommand, FormatAck, ParseBegin, ParseCommand, ParseAckUp, CString,
      Device.ReadSuback, Server.ReadSubscribe, Device.EncodeSubscribe, Server.EncodeSuback;
  }

  lemma DeviceSends(env: Env, i: nat, phase: nat)
    requires Proper(env) && i < |env.plan| && phase < 8 && Writes(env, i, phase)
    ensures Device.Sent(env, DeviceIn(env, i, phase)) == DeviceNext(env, i, phase)
  {
    hide EncodePublish, EncodePuback, DeviceReadPublish, ServerReadPublish, ReadPuback, Server.ReadServerPuback,
      FormatBegin, FormatCommand, FormatAck, ParseBegin, ParseCommand, ParseAckUp, CString,
      Device.ReadSuback, Server.ReadSubscribe, Device.EncodeSubscribe, Server.EncodeSuback, DeviceId;
    var op := env.plan[i];
    CommandFacts(env, op);
    AckFacts(env, op);
    IdsAdvance(env, 2 + 2 * i);
    IdsAdvance(env, 2 + 2 * i + 1);
    TransfersGrow(env.plan, i);
  }

  /** At position `phase` the device reads `packet` off the message and then is where the script says. */
  ghost predicate DeviceTakes(env: Env, i: nat, phase: nat, rest: Stream, packet: Packet)
    requires i < |env.plan| && phase < 8
  {
    var d := DeviceIn(env, i, phase);
    && Device.Output(env, d) == None
    && Device.Input(d.point, OperationMessage(env, i, phase) + rest) == Got(packet, rest)
    && Device.Received(env, d, packet) == DeviceNext(env, i, phase)
  }

  lemma DeviceReadsCommand(env: Env, i: nat, rest: Stream)
    requires Proper(env) && i < |env.plan|
    ensures exists packet :: DeviceTakes(env, i, 0, rest, packet)
  {
    hide EncodePublish, EncodePuback, DeviceReadPublish, ServerReadPublish, ReadPuback, Server.ReadServerPuback,
      FormatBegin, FormatCommand, FormatAck, ParseBegin, ParseCommand, ParseAckUp, CString,
      Device.ReadSuback, Server.ReadSubscribe, Device.EncodeSubscribe, Server.EncodeSuback;
    var id, text := Server.WireId(ServerIdIn(i, 0)), FormatCommand(CommandOf(env, env.plan[i]));
    CommandFacts(env, env.plan[i]);
    PlainTopic(TOPIC_CONTROL);
    PublishFacts(TOPIC_CONTROL, id, text, rest);
    assert DeviceTakes(env, i, 0, rest, PublishPacket(Publication(TOPIC_CONTROL, id, text)));
  }

  lemma DeviceReadsDown(env: Env, i: nat, rest: Stream)
    requires Proper(env) && i < |env.plan| && env.plan[i].down && FitsPacket(env.plan[i])
    ensures exists packet :: DeviceTakes(env, i, 2, rest, packet)
  {
    hide EncodePublish, EncodePuback, DeviceReadPublish, ServerReadPublish, ReadPuback, Server.ReadServerPuback,
      FormatBegin, FormatCommand, FormatAck, ParseBegin, ParseCommand, ParseAckUp, CString,
      Device.ReadSuback, Server.ReadSubscribe, Device.EncodeSubscribe, Server.EncodeSuback;
    var id, payload := Server.WireId(ServerIdIn(i, 1)), PayloadOf(env.plan[i]);
    TransfersGrow(env.plan, i);
    PublishFacts(TOPIC_DOWN, id, payload, rest);
    assert DeviceTakes(env, i, 2, rest, PublishPacket(Publication(TOPIC_DOWN, id, payload)));
  }

  lemma DeviceReadsAckUp(env: Env, i: nat, rest: Stream)
    requires Proper(env) && i < |env.plan| && !env.plan[i].down
    ensures exists packet :: DeviceTakes(env, i, 4, rest, packet)
  {
    hide EncodePublish, EncodePuback, DeviceReadPublish, ServerReadPublish, ReadPuback, Server.ReadServerPuback,
      FormatBegin, FormatCommand, FormatAck, ParseBegin, ParseCommand, ParseAckUp, CString,
      Device.ReadSuback, Server.ReadSubscribe, Device.EncodeSubscribe, Server.EncodeSuback;
    var id, text := Server.WireId(ServerIdIn(i, 1)), UpAck(env, env.plan[i]);
    AckFacts(env, env.plan[i]);
    PublishFacts(TOPIC_CONTROL, id, text, rest);
    assert DeviceTakes(env, i, 4, rest, PublishPacket(Publication(TOPIC_CONTROL, id, text)));
  }

  lemma DeviceReadsUpPuback(env: Env, i: nat, rest: Stream)
    requires Proper(env) && i < |env.plan| && !env.plan[i].down
    ensures exists packet :: DeviceTakes(env, i, 3, rest, packet)
  {
    hide EncodePublish, EncodePuback, DeviceReadPublish, ServerReadPublish, ReadPuback, Server.ReadServerPuback,
      FormatBegin, FormatCommand, FormatAck, ParseBegin, ParseCommand, ParseAckUp, CString,
      Device.ReadSuback, Server.ReadSubscribe, Device.EncodeSubscribe, Server.EncodeSuback;
    var id := DeviceIdIn(env, i, 0);
    PubackFacts(id, rest);
    assert DeviceTakes(env, i, 3, rest, PubackPacket(id));
  }

  lemma DeviceReadsDownPuback(env: Env, i: nat, rest: Stream)
    requires Proper(env) && i < |env.plan| && env.plan[i].down
    ensures exists packet :: DeviceTakes(env, i, 5, rest, packet)
  {
    hide EncodePublish, EncodePuback, DeviceReadPublish, ServerReadPublish, ReadPuback, Server.ReadServerPuback,
      FormatBegin, FormatCommand, FormatAck, ParseBegin, ParseCommand, ParseAckUp, CString,
      Device.ReadSuback, Server.ReadSubscribe, Device.EncodeSubscribe, Server.EncodeSuback;
    var id := DeviceIdIn(env, i, 0);
    PubackFacts(id, rest);
    assert DeviceTakes(env, i, 5, rest, PubackPacket(id));
  }

  lemma DeviceReadsMetricsPuback(env: Env, i: nat, rest: Stream)
    requires Proper(env) && i < |env.plan|
    ensures exists packet :: DeviceTakes(env, i, 7, rest, packet)
  {
    hide EncodePublish, EncodePuback, DeviceReadPublish, ServerReadPublish, ReadPuback, Server.ReadServerPuback,
      FormatBegin, FormatCommand, FormatAck, ParseBegin, ParseCommand, ParseAckUp, CString,
      Device.ReadSuback, Server.ReadSubscribe, Device.EncodeSubscribe, Server.EncodeSuback;
    var id := DeviceIdIn(env, i, 1);
    PubackFacts(id, rest);
    assert DeviceTakes(env, i, 7, rest, PubackPacket(id));
  }

  lemma DeviceReads(env: Env, i: nat, phase: nat, rest: Stream)
    requires Proper(env) && i < |env.plan| && phase < 8 && !Writes(env, i, phase)
    requires phase == 2 ==> FitsPacket(env.plan[i])
    ensures exists packet :: DeviceTakes(env, i, phase, rest, packet)
  {
    match phase {
      case 0 => DeviceReadsCommand(env, i, rest);
      case 2 => DeviceReadsDown(env, i, rest);
      case 4 => DeviceReadsAckUp(env, i, rest);
      case 3 => DeviceReadsUpPuback(env, i, rest);
      case 5 => DeviceReadsDownPuback(env, i, rest);
      case 7 => DeviceReadsMetricsPuback(env, i, rest);
    }
  }

  // ----- the server

  lemma ServerWrites(env: Env, i: nat, phase: nat)
    requires Proper(env) && i < |env.plan| && phase < 8 && !Writes(env, i, phase)
    ensures Server.Output(env, ServerIn(env, i, phase)) == Some(OperationMessage(env, i, phase))
    ensures Server.Sent(env, ServerIn(env, i, phase)) == ServerNext(env, i, phase)
  {
    hide EncodePublish, EncodePuback, DeviceReadPublish, ServerReadPublish, ReadPuback, Server.ReadServerPuback,
      FormatBegin, FormatCommand, FormatAck, ParseBegin, ParseCommand, ParseAckUp, CString,
      Device.ReadSuback, Server.ReadSubscribe, Device.EncodeSubscribe, Server.EncodeSuback;
    hide Counter, Ascii;
    AckFacts(env, env.plan[i]);
    TransfersGrow(env.plan, i);
    NextCounter(i, 0);
    NextCounter(i, 1);
    assert ServerIdIn(i + 1, 0) == ServerIdIn(i, 2);
  }

  lemma NextCounter(i: nat, n: nat)
    ensures Counter(ServerIdIn(i, n + 1)) == (Counter(ServerIdIn(i, n)) + 1) % TWO_TO_THE_32
    ensures Server.WireId(Counter(ServerIdIn(i, n))) == Server.WireId(ServerIdIn(i, n))
  {
    var id := ServerIdIn(i, n);
    var q, r := id / TWO_TO_THE_32, id % TWO_TO_THE_32;
    SameRemainder32(r + 1, q);
    SameRemainder16(r, TWO_TO_THE_16 * q);
  }

  lemma SameRemainder32(r: int, q: int)
    ensures (r + TWO_TO_THE_32 * q) % TWO_TO_THE_32 == r % TWO_TO_THE_32
  {}

  lemma SameRemainder16(r: int, q: int)
    ensures (r + TWO_TO_THE_16 * q) % TWO_TO_THE_16 == r % TWO_TO_THE_16
  {}

  ghost predicate ServerTakes(env: Env, i: nat, phase: nat, rest: Stream, packet: Packet)
    requires i < |env.plan| && phase < 8
  {
    var s := ServerIn(env, i, phase);
    && Server.Output(env, s) == None
    && Server.Input(s.point, OperationMessage(env, i, phase) + rest) == Got(packet, rest)
    && Server.Received(env, s, packet) == ServerNext(env, i, phase)
  }

  lemma FitsIsEnough(op: Operation)
    ensures FitsPacket(op) <==> Fits(if op.down then TOPIC_DOWN else TOPIC_UP, |PayloadOf(op)|)
  {}

  lemma ServerReadsUp(env: Env, i: nat, rest: Stream)
    requires Proper(env) && i < |env.plan| && !env.plan[i].down && FitsPacket(env.plan[i])
    ensures exists packet :: ServerTakes(env, i, 2, rest, packet)
  {
    hide EncodePublish, EncodePuback, DeviceReadPublish, ServerReadPublish, ReadPuback, Server.ReadServerPuback,
      FormatBegin, FormatCommand, FormatAck, ParseBegin, ParseCommand, ParseAckUp, CString,
      Device.ReadSuback, Server.ReadSubscribe, Device.EncodeSubscribe, Server.EncodeSuback, FitsPacket;
    FitsIsEnough(env.plan[i]);
    var id, payload := DeviceIdIn(env, i, 0), PayloadOf(env.plan[i]);
    TransfersGrow(env.plan, i);
    PlainTopic(TOPIC_UP);
    PublishFacts(TOPIC_UP, id, payload, rest);
    assert ServerTakes(env, i, 2, rest, PublishPacket(Publication(TOPIC_UP, id, payload)));
  }

  lemma ServerReadsDeviceAck(env: Env, i: nat, rest: Stream)
    requires Proper(env) && i < |env.plan| && env.plan[i].down
    ensures exists packet :: ServerTakes(env, i, 4, rest, packet)
  {
    hide EncodePublish, EncodePuback, DeviceReadPublish, ServerReadPublish, ReadPuback, Server.ReadServerPuback,
      FormatBegin, FormatCommand, FormatAck, ParseBegin, ParseCommand, ParseAckUp, CString,
      Device.ReadSuback, Server.ReadSubscribe, Device.EncodeSubscribe, Server.EncodeSuback;
    var id, text := DeviceIdIn(env, i, 0), DownAck(env, env.plan[i]);
    AckFacts(env, env.plan[i]);
    PlainTopic(TOPIC_DEVICE_ACK);
    PublishFacts(TOPIC_DEVICE_ACK, id, text, rest);
    assert ServerTakes(env, i, 4, rest, PublishPacket(Publication(TOPIC_DEVICE_ACK, id, text)));
  }

  lemma ServerReadsMetrics(env: Env, i: nat, rest: Stream)
    requires Proper(env) && i < |env.plan|
    ensures exists packet :: ServerTakes(env, i, 6, rest, packet)
  {
    hide EncodePublish, EncodePuback, DeviceReadPublish, ServerReadPublish, ReadPuback, Server.ReadServerPuback,
      FormatBegin, FormatCommand, FormatAck, ParseBegin, ParseCommand, ParseAckUp, CString,
      Device.ReadSuback, Server.ReadSubscribe, Device.EncodeSubscribe, Server.EncodeSuback;
    var id, text := DeviceIdIn(env, i, 1), env.metrics(i);
    PlainTopic(TOPIC_METRICS);
    PublishFacts(TOPIC_METRICS, id, text, rest);
    assert ServerTakes(env, i, 6, rest, PublishPacket(Publication(TOPIC_METRICS, id, text)));
  }

  lemma ServerReadsCommandPuback(env: Env, i: nat, rest: Stream)
    requires Proper(env) && i < |env.plan|
    ensures exists packet :: ServerTakes(env, i, 1, rest, packet)
  {
    hide EncodePublish, EncodePuback, DeviceReadPublish, ServerReadPublish, ReadPuback, Server.ReadServerPuback,
      FormatBegin, FormatCommand, FormatAck, ParseBegin, ParseCommand, ParseAckUp, CString,
      Device.ReadSuback, Server.ReadSubscribe, Device.EncodeSubscribe, Server.EncodeSuback;
    var id := Server.WireId(ServerIdIn(i, 0));
    PubackFacts(id, rest);
    assert ServerTakes(env, i, 1, rest, PubackPacket(id));
  }

  lemma ServerReadsDownPuback(env: Env, i: nat, rest: Stream)
    requires Proper(env) && i < |env.plan| && env.plan[i].down
    ensures exists packet :: ServerTakes(env, i, 3, rest, packet)
  {
    hide EncodePublish, EncodePuback, DeviceReadPublish, ServerReadPublish, ReadPuback, Server.ReadServerPuback,
      FormatBegin, FormatCommand, FormatAck, ParseBegin, ParseCommand, ParseAckUp, CString,
      Device.ReadSuback, Server.ReadSubscribe, Device.EncodeSubscribe, Server.EncodeSuback;
    var id := Server.WireId(ServerIdIn(i, 1));
    PubackFacts(id, rest);
    assert ServerTakes(env, i, 3, rest, PubackPacket(id));
  }

  lemma ServerReadsUpPuback(env: Env, i: nat, rest: Stream)
    requires Proper(env) && i < |env.plan| && !env.plan[i].down
    ensures exists packet :: ServerTakes(env, i, 5, rest, packet)
  {
    hide EncodePublish, EncodePuback, DeviceReadPublish, ServerReadPublish, ReadPuback, Server.ReadServerPuback,
      FormatBegin, FormatCommand, FormatAck, ParseBegin, ParseCommand, ParseAckUp, CString,
      Device.ReadSuback, Server.ReadSubscribe, Device.EncodeSubscribe, Server.EncodeSuback;
    var id := Server.WireId(ServerIdIn(i, 1));
    PubackFacts(id, rest);
    assert ServerTakes(env, i, 5, rest, PubackPacket(id));
  }

  lemma ServerReads(env: Env, i: nat, phase: nat, rest: Stream)
    requires Proper(env) && i < |env.plan| && phase < 8 && Writes(env, i, phase)
    requires phase == 2 ==> FitsPacket(env.plan[i])
    ensures exists packet :: ServerTakes(env, i, phase, rest, packet)
  {
    match phase {
      case 1 => ServerReadsCommandPuback(env, i, rest);
      case 2 => ServerReadsUp(env, i, rest);
      case 3 => ServerReadsDownPuback(env, i, rest);
      case 4 => ServerReadsDeviceAck(env, i, rest);
      case 5 => ServerReadsUpPuback(env, i, rest);
      case 6 => ServerReadsMetrics(env, i, rest);
    }
  }

  // ----- the packets before the first operation

  lemma SubscribeFacts(id: uint16, rest: Stream)
    ensures Server.ReadSubscribe(Device.EncodeSubscribe(id) + rest) == Got(SubscribePacket(id), rest)
  {
    var body := Big16(id) + Big16(|TOPIC_CONTROL|) + TOPIC_CONTROL + [1] + Big16(|TOPIC_DOWN|) + TOPIC_DOWN + [1];
    var n := |body|;
    hide EncodeRemaining, ReadHeader, Ascii;
    FixedHeader(0x82, n, body + rest);
    assert Device.EncodeSubscribe(id) + rest == [0x82] + EncodeRemaining(n) + (body + rest);
    assert (body + rest)[..n] == body && (body + rest)[n..] == rest;
    assert FromBig16(body) == FromBig16(Big16(id));
  }

  lemma SubackFacts(id: uint16, rest: Stream)
    ensures Device.ReadSuback(Server.EncodeSuback(id) + rest) == Got(SubackPacket, rest)
  {
    var body := Big16(id) + [1, 1];
    FixedHeader(0x90, 4, body + rest);
    assert EncodeRemaining(4) == [4];
    assert Server.EncodeSuback(id) + rest == [0x90] + EncodeRemaining(4) + (body + rest);
    assert (body + rest)[4..] == rest;
  }

  lemma BeginFacts(env: Env)
    requires |env.plan| < TWO_TO_THE_32
    ensures ParseBegin(FormatBegin(|env.plan|)) == Some(|env.plan|)
    ensures |FormatBegin(|env.plan|)| < Device.BEGIN_CAPACITY
  {
    BeginRoundTrip(|env.plan|);
    Uint32Digits(|env.plan|);
  }

  lemma DeviceStartsWriting(env: Env, k: nat, rest: Stream)
    requires WellFormed(env) && Accepted(env, k) && k < PREFIX && FromDevice(env, k)
    ensures DeviceFollows(env, k, rest)
  {
    hide EncodePublish, EncodePuback, DeviceReadPublish, ServerReadPublish, ReadPuback, Server.ReadServerPuback,
      FormatBegin, FormatCommand, FormatAck, ParseBegin, ParseCommand, ParseAckUp, CString,
      Device.ReadSuback, Server.ReadSubscribe, Device.EncodeSubscribe, Server.EncodeSuback;
    BeginFacts(env);
    IdsAdvance(env, 0);
    IdsAdvance(env, 1);
  }

  lemma DeviceStartsReading(env: Env, k: nat, rest: Stream)
    requires WellFormed(env) && k < PREFIX && !FromDevice(env, k)
    ensures DeviceFollows(env, k, rest)
  {
    hide EncodePublish, EncodePuback, DeviceReadPublish, ServerReadPublish, ReadPuback, Server.ReadServerPuback,
      FormatBegin, FormatCommand, FormatAck, ParseBegin, ParseCommand, ParseAckUp, CString,
      Device.ReadSuback, Server.ReadSubscribe, Device.EncodeSubscribe, Server.EncodeSuback;
    BeginFacts(env);
    PlainTopic(TOPIC_CONTROL);
    SubackFacts(DeviceId(env, 0), rest);
    PubackFacts(DeviceId(env, 1), rest);
    PublishFacts(TOPIC_CONTROL, Server.WireId(Server.FIRST_ID), FormatBegin(|env.plan|), rest);
  }

  lemma ServerStartsWriting(env: Env, k: nat, rest: Stream)
    requires WellFormed(env) && k < PREFIX && !FromDevice(env, k)
    ensures ServerFollows(env, k, rest)
  {
    hide EncodePublish, EncodePuback, DeviceReadPublish, ServerReadPublish, ReadPuback, Server.ReadServerPuback,
      FormatBegin, FormatCommand, FormatAck, ParseBegin, ParseCommand, ParseAckUp, CString,
      Device.ReadSuback, Server.ReadSubscribe, Device.EncodeSubscribe, Server.EncodeSuback;
  }

  lemma ServerReadsSubscribe(env: Env, rest: Stream)
    requires WellFormed(env)
    ensures ServerFollows(env, 0, rest)
  {
    hide EncodePublish, EncodePuback, DeviceReadPublish, ServerReadPublish, ReadPuback, Server.ReadServerPuback,
      FormatBegin, FormatCommand, FormatAck, ParseBegin, ParseCommand, ParseAckUp, CString,
      Device.ReadSuback, Server.ReadSubscribe, Device.EncodeSubscribe, Server.EncodeSuback;
    SubscribeFacts(DeviceId(env, 0), rest);
  }

  lemma ServerReadsReady(env: Env, rest: Stream)
    requires WellFormed(env)
    ensures ServerFollows(env, 2, rest)
  {
    hide EncodePublish, EncodePuback, DeviceReadPublish, ServerReadPublish, ReadPuback, Server.ReadServerPuback,
      FormatBegin, FormatCommand, FormatAck, ParseBegin, ParseCommand, ParseAckUp, CString,
      Device.ReadSuback, Server.ReadSubscribe, Device.EncodeSubscribe, Server.EncodeSuback;
    PlainTopic(TOPIC_UP);
    PublishFacts(TOPIC_UP, DeviceId(env, 1), READY, rest);
  }

  lemma ServerReadsBeginAck(env: Env, rest: Stream)
    requires WellFormed(env)
    ensures ServerFollows(env, 5, rest)
  {
    hide EncodePublish, EncodePuback, DeviceReadPublish, ServerReadPublish, ReadPuback, Server.ReadServerPuback,
      FormatBegin, FormatCommand, FormatAck, ParseBegin, ParseCommand, ParseAckUp, CString,
      Device.ReadSuback, Server.ReadSubscribe, Device.EncodeSubscribe, Server.EncodeSuback;
    PubackFacts(Server.WireId(Server.FIRST_ID), rest);
  }

  // ----- every position

  lemma DeviceFollowsScript(env: Env, k: nat, rest: Stream)
    requires WellFormed(env) && k < Length(env) && Accepted(env, k) && (!FromDevice(env, k) ==> Readable(env, k))
    ensures DeviceFollows(env, k, rest)
  {
    if k < PREFIX {
      if FromDevice(env, k) { DeviceStartsWriting(env, k, rest); } else { DeviceStartsReading(env, k, rest); }
    } else {
      hide OperationMessage, DeviceIn, Device.Output, Device.Sent, Device.Received;
      var i, phase := OpAt(k), PhaseAt(k);
      NextPosition(env, k);
      assert DeviceAt(env, k + 1) == DeviceNext(env, i, phase);
      if Writes(env, i, phase) {
        DeviceOutputs(env, i, phase);
        DeviceSends(env, i, phase);
        DeviceDoesNotRead(env, i, phase, rest);
      } else {
        DeviceReads(env, i, phase, rest);
      }
    }
  }

  lemma DeviceDoesNotRead(env: Env, i: nat, phase: nat, rest: Stream)
    requires i < |env.plan| && phase < 8 && Writes(env, i, phase)
    ensures Device.Input(DeviceIn(env, i, phase).point, rest).Short?
  {
  }

  lemma ServerDoesNotRead(env: Env, i: nat, phase: nat, rest: Stream)
    requires i < |env.plan| && phase < 8 && !Writes(env, i, phase)
    ensures Server.Input(ServerIn(env, i, phase).point, rest).Short?
  {
  }

  lemma ServerFollowsScript(env: Env, k: nat, rest: Stream)
    requires WellFormed(env) && k < Length(env) && Accepted(env, k) && (FromDevice(env, k) ==> Readable(env, k))
    ensures ServerFollows(env, k, rest)
  {
    if k < PREFIX {
      if !FromDevice(env, k) {
        ServerStartsWriting(env, k, rest);
      } else if k == 0 {
        ServerReadsSubscribe(env, rest);
      } else if k == 2 {
        ServerReadsReady(env, rest);
      } else {
        ServerReadsBeginAck(env, rest);
      }
    } else {
      hide OperationMessage, ServerIn, Server.Output, Server.Sent, Server.Received;
      var i, phase := OpAt(k), PhaseAt(k);
      NextPosition(env, k);
      assert ServerAt(env, k + 1) == ServerNext(env, i, phase);
      if Writes(env, i, phase) {
        ServerReads(env, i, phase, rest);
      } else {
        ServerWrites(env, i, phase);
        ServerDoesNotRead(env, i, phase, rest);
      }
    }
  }

  // ----- who is silent

  /** The side that is to read does not write. */
  lemma DeviceIsSilent(env: Env, k: nat)
    requires WellFormed(env) && k < Length(env) && !FromDevice(env, k)
    ensures Device.Output(env, DeviceAt(env, k)) == None
  {
    if k >= PREFIX { NextPosition(env, k); }
  }

  lemma ServerIsSilent(env: Env, k: nat)
    requires WellFormed(env) && k < Length(env) && FromDevice(env, k)
    ensures Server.Output(env, ServerAt(env, k)) == None
  {
    if k >= PREFIX { NextPosition(env, k); }
  }
}
