/**
  The one conversation a transfer session can be: message by message, with the state each side is
  in before the message. Both machines follow it, whatever bytes are queued behind the message.
 */
module Script {
  import opened Bytes
  import opened Framing
  import opened Packets
  import opened Text
  import opened Protocol
  import Device
  import Server

  const PREFIX: int := 6
  const PER_OPERATION: int := 8

  function Length(env: Env): nat {
    PREFIX + PER_OPERATION * |env.plan|
  }

  /** The operation a position belongs to, and the position inside it. */
  function OpAt(k: nat): nat
    requires k >= PREFIX
  {
    (k - PREFIX) / PER_OPERATION
  }

  function PhaseAt(k: nat): nat
    requires k >= PREFIX
  {
    (k - PREFIX) % PER_OPERATION
  }

  predicate FromDevice(env: Env, k: nat)
    requires k < Length(env)
  {
    if k < PREFIX then k == 0 || k == 2 || k == 5 else Writes(env, OpAt(k), PhaseAt(k))
  }

  /** The device writes the message of this phase. */
  predicate Writes(env: Env, i: nat, phase: nat)
    requires i < |env.plan|
  {
    if phase == 2 || phase == 4 then env.plan[i].down <==> phase == 4
    else if phase == 3 || phase == 5 then env.plan[i].down <==> phase == 3
    else phase == 1 || phase == 6
  }

  /** The device goes on behind the announcement of the plan only if there are not too many operations. */
  predicate Accepted(env: Env, k: nat) {
    k < PREFIX - 1 || |env.plan| <= MAX_OPERATIONS
  }

  /** The message at this position can be read: it is not a data packet that is too long. */
  predicate Readable(env: Env, k: nat)
    requires k < Length(env)
  {
    k >= PREFIX && PhaseAt(k) == 2 ==> FitsPacket(env.plan[OpAt(k)])
  }

  // ----- packet identifiers

  function DeviceId(env: Env, published: nat): uint16 {
    (env.deviceId + published) % TWO_TO_THE_16
  }

  /** Identifiers of the packets an operation publishes, in the order they are drawn. */
  function DeviceIdIn(env: Env, op: nat, n: nat): uint16 {
    DeviceId(env, 2 + 2 * op + n)
  }

  function ServerIdIn(op: nat, n: nat): nat {
    Server.FIRST_ID + 1 + 2 * op + n
  }

  /** The server's counter is an `unsigned int`. */
  function Counter(id: nat): uint32 {
    id % TWO_TO_THE_32
  }

  // ----- messages

  function DownAck(env: Env, op: Operation): Stream {
    FormatAck(Ascii("ACK_DOWN"), op.order, 1, env.digest(PayloadOf(op)))
  }

  function UpAck(env: Env, op: Operation): Stream {
    FormatAck(Ascii("ACK_UP"), op.order, 1, env.digest(PayloadOf(op)))
  }

  function Message(env: Env, k: nat): Stream
    requires k < Length(env)
  {
    if k < PREFIX then PrefixMessage(env, k) else OperationMessage(env, OpAt(k), PhaseAt(k))
  }

  function PrefixMessage(env: Env, k: nat): Stream
    requires k < PREFIX
  {
    match k
    case 0 => Device.EncodeSubscribe(DeviceId(env, 0))
    case 1 => Server.EncodeSuback(DeviceId(env, 0))
    case 2 => EncodePublish(TOPIC_UP, DeviceId(env, 1), READY)
    case 3 => EncodePuback(DeviceId(env, 1))
    case 4 => EncodePublish(TOPIC_CONTROL, Server.WireId(Server.FIRST_ID), FormatBegin(|env.plan|))
    case _ => EncodePuback(Server.WireId(Server.FIRST_ID))
  }

  function OperationMessage(env: Env, i: nat, phase: nat): Stream
    requires i < |env.plan|
  {
    var op := env.plan[i];
    var serverId, serverId' := Server.WireId(ServerIdIn(i, 0)), Server.WireId(ServerIdIn(i, 1));
    var deviceId, deviceId' := DeviceIdIn(env, i, 0), DeviceIdIn(env, i, 1);
    match phase
    case 0 => EncodePublish(TOPIC_CONTROL, serverId, FormatCommand(CommandOf(env, op)))
    case 1 => EncodePuback(serverId)
    case 2 => if op.down then EncodePublish(TOPIC_DOWN, serverId', PayloadOf(op))
              else EncodePublish(TOPIC_UP, deviceId, PayloadOf(op))
    case 3 => if op.down then EncodePuback(serverId') else EncodePuback(deviceId)
    case 4 => if op.down then EncodePublish(TOPIC_DEVICE_ACK, deviceId, DownAck(env, op))
              else EncodePublish(TOPIC_CONTROL, serverId', UpAck(env, op))
    case 5 => if op.down then EncodePuback(deviceId) else EncodePuback(serverId')
    case 6 => EncodePublish(TOPIC_METRICS, deviceId', env.metrics(i))
    case _ => EncodePuback(deviceId')
  }

  // ----- states

  function DeviceAt(env: Env, k: nat): Device.State
    requires k <= Length(env)
  {
    if k < PREFIX then DevicePrefix(env, k)
    else if k == Length(env)
    then Device.State(Device.Done, DeviceIdIn(env, |env.plan|, 0), Transfers(env.plan, |env.plan|))
    else DeviceIn(env, OpAt(k), PhaseAt(k))
  }

  function DevicePrefix(env: Env, k: nat): Device.State
    requires k < PREFIX
  {
    match k
    case 0 => Device.State(Device.Subscribe, DeviceId(env, 0), [])
    case 1 => Device.State(Device.AwaitSuback, DeviceId(env, 1), [])
    case 2 => Device.State(Device.PublishReady, DeviceId(env, 1), [])
    case 3 => Device.State(Device.AwaitReadyAck(DeviceId(env, 1)), DeviceId(env, 2), [])
    case 4 => Device.State(Device.AwaitBegin, DeviceId(env, 2), [])
    case _ =>
      Device.State(Device.AckBegin(Server.WireId(Server.FIRST_ID), FormatBegin(|env.plan|)), DeviceId(env, 2), [])
  }

  function DeviceIn(env: Env, i: nat, phase: nat): Device.State
    requires i < |env.plan|
  {
    var op := env.plan[i];
    var c, loop := CommandOf(env, op), Device.Loop(|env.plan|, i);
    var serverId, serverId' := Server.WireId(ServerIdIn(i, 0)), Server.WireId(ServerIdIn(i, 1));
    var id, id', next := DeviceIdIn(env, i, 0), DeviceIdIn(env, i, 1), DeviceIdIn(env, i, 2);
    var before, after := Transfers(env.plan, i), Transfers(env.plan, i + 1);
    match phase
    case 0 => Device.State(Device.AwaitCommand(loop), id, before)
    case 1 => Device.State(Device.AckCommand(loop, serverId, FormatCommand(c)), id, before)
    case 2 => Device.State(if op.down then Device.AwaitDown(loop, c) else Device.PublishUp(loop, c), id, before)
    case 3 => if op.down then Device.State(Device.AckDown(loop, c, serverId', true, c.hash), id, after)
              else Device.State(Device.AwaitUpAck(loop, c, id, c.hash), id', after)
    case 4 => if op.down then Device.State(Device.PublishDownAck(loop, c, true, c.hash), id, after)
              else Device.State(Device.AwaitAckUp(loop, c, c.hash), id', after)
    case 5 => if op.down then Device.State(Device.AwaitDownAckAck(loop, c, id, true, c.hash), id', after)
              else Device.State(Device.AckAckUp(loop, c, c.hash, serverId', UpAck(env, op)), id', after)
    case 6 => Device.State(Device.PublishMetrics(loop, true), id', after)
    case _ => Device.State(Device.AwaitMetricsAck(loop, id', true), next, after)
  }

  function ServerAt(env: Env, k: nat): Server.State
    requires k <= Length(env)
  {
    if k < PREFIX then ServerPrefix(env, k)
    else if k == Length(env)
    then Server.State(Server.Done, Counter(ServerIdIn(|env.plan|, 0)), Transfers(env.plan, |env.plan|))
    else ServerIn(env, OpAt(k), PhaseAt(k))
  }

  function ServerPrefix(env: Env, k: nat): Server.State
    requires k < PREFIX
  {
    match k
    case 0 => Server.INIT
    case 1 => Server.State(Server.SendSuback(DeviceId(env, 0)), Server.FIRST_ID, [])
    case 2 => Server.State(Server.AwaitReady, Server.FIRST_ID, [])
    case 3 => Server.State(Server.AckReady(DeviceId(env, 1)), Server.FIRST_ID, [])
    case 4 => Server.State(Server.PublishBegin, Server.FIRST_ID, [])
    case _ => Server.State(Server.AwaitBeginAck(Server.FIRST_ID), Server.FIRST_ID + 1, [])
  }

  function ServerIn(env: Env, i: nat, phase: nat): Server.State
    requires i < |env.plan|
  {
    var op := env.plan[i];
    var id, id', next := Counter(ServerIdIn(i, 0)), Counter(ServerIdIn(i, 1)), Counter(ServerIdIn(i, 2));
    var deviceId, deviceId' := DeviceIdIn(env, i, 0), DeviceIdIn(env, i, 1);
    var before, after := Transfers(env.plan, i), Transfers(env.plan, i + 1);
    match phase
    case 0 => Server.State(Server.PublishCommand(i), id, before)
    case 1 => Server.State(Server.AwaitCommandAck(i, id), id', before)
    case 2 => Server.State(if op.down then Server.PublishDown(i) else Server.AwaitUp(i), id', before)
    case 3 => if op.down then Server.State(Server.AwaitDownAck(i, id'), next, after)
              else Server.State(Server.AckUp(i, deviceId), id', after)
    case 4 => if op.down then Server.State(Server.AwaitDeviceAck(i), next, after)
              else Server.State(Server.PublishAckUp(i), id', after)
    case 5 => if op.down then Server.State(Server.AckDeviceAck(i, deviceId, DownAck(env, op)), next, after)
              else Server.State(Server.AwaitAckUpAck(i, id'), next, after)
    case 6 => Server.State(Server.AwaitMetrics(i), next, after)
    case _ => Server.State(Server.AckMetrics(i, deviceId'), next, after)
  }

  // ----- each side follows the script

  ghost predicate DeviceFollows(env: Env, k: nat, rest: Stream)
    requires k < Length(env)
  {
    var d, next := DeviceAt(env, k), DeviceAt(env, k + 1);
    if FromDevice(env, k) then
      && Device.Output(env, d) == Some(Message(env, k)) && Device.Sent(env, d) == next
      && Device.Input(d.point, rest).Short?
    else
      && Device.Output(env, d) == None
      && (var r := Device.Input(d.point, Message(env, k) + rest);
          r.Got? && r.rest == rest && Device.Received(env, d, r.value) == next)
  }

  ghost predicate ServerFollows(env: Env, k: nat, rest: Stream)
    requires k < Length(env)
  {
    var s, next := ServerAt(env, k), ServerAt(env, k + 1);
    if !FromDevice(env, k) then
      && Server.Output(env, s) == Some(Message(env, k)) && Server.Sent(env, s) == next
      && Server.Input(s.point, rest).Short?
    else
      && Server.Output(env, s) == None
      && (var r := Server.Input(s.point, Message(env, k) + rest);
          r.Got? && r.rest == rest && Server.Received(env, s, r.value) == next)
  }

  // ----- small facts about the messages

  lemma PlainTopic(topic: Stream)
    requires NoNul(topic)
    ensures TopicIs(topic, topic)
  {
    CStringOfText(topic);
  }

  lemma CommandFacts(env: Env, op: Operation)
    requires IsDigest(env.digest(PayloadOf(op)))
    ensures ParseCommand(FormatCommand(CommandOf(env, op))) == Some(CommandOf(env, op))
    ensures |FormatCommand(CommandOf(env, op))| < Device.CONTROL_CAPACITY
  {
    CommandRoundTrip(CommandOf(env, op));
    Uint32Digits(op.order);
    Uint32Digits(op.size);
    Uint32Digits(op.seed);
  }

  lemma AckFacts(env: Env, op: Operation)
    requires IsDigest(env.digest(PayloadOf(op)))
    ensures ParseAckUp(UpAck(env, op)) == Some(Ack(op.order, 1, env.digest(PayloadOf(op))))
    ensures CString(DownAck(env, op)) == DownAck(env, op)
    ensures |UpAck(env, op)| < Device.CONTROL_CAPACITY
    ensures |DownAck(env, op)| < Server.COMMAND_CAPACITY
  {
    AckUpRoundTrip(op.order, 1, env.digest(PayloadOf(op)));
    AckNoNul(Ascii("ACK_DOWN"), op.order, 1, env.digest(PayloadOf(op)));
    CStringOfText(DownAck(env, op));
    Uint32Digits(op.order);
    Uint32Digits(1);
  }

  /** Both readers get a published packet back, and the bytes behind it. */
  lemma PublishFacts(topic: Stream, id: uint16, payload: Stream, rest: Stream)
    requires |topic| + 1 <= Device.TOPIC_CAPACITY && Fits(topic, |payload|)
    ensures DeviceReadPublish(EncodePublish(topic, id, payload) + rest, Device.TOPIC_CAPACITY)
         == Got(Publication(topic, id, payload), rest)
    ensures ServerReadPublish(EncodePublish(topic, id, payload) + rest, Server.TOPIC_CAPACITY)
         == Got(Publication(topic, id, payload), rest)
  {
    PublishRoundTrip(topic, id, payload, rest, Device.TOPIC_CAPACITY);
    ServerPublishRoundTrip(topic, id, payload, rest, Server.TOPIC_CAPACITY);
  }

  lemma PubackFacts(id: uint16, rest: Stream)
    ensures ReadPuback(EncodePuback(id) + rest) == Got(id, rest)
    ensures Server.ReadServerPuback(EncodePuback(id) + rest) == Got(PubackPacket(id), rest)
  {
    PubackRoundTrip(id, rest);
    FixedHeader(0x40, 2, Big16(id) + rest);
    assert EncodeRemaining(2) == [2];
    assert EncodePuback(id) + rest == [0x40] + EncodeRemaining(2) + (Big16(id) + rest);
    assert (Big16(id) + rest)[..2] == Big16(id);
    assert (Big16(id) + rest)[2..] == rest;
  }
}
