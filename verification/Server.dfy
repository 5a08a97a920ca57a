/** The server side of a transfer session: `handle_subscribe_and_ready` and `run_transfers`, cut the same way. */
module Server {
  import opened Bytes
  import opened Framing
  import opened Packets
  import opened Text
  import opened Protocol

  const TOPIC_CAPACITY: nat := 64
  const COMMAND_CAPACITY: nat := 192
  const FIRST_ID: nat := 100

  datatype Point =
    | AwaitSubscribe
    | SendSuback(id: uint16)
    | AwaitReady
    | AckReady(id: uint16)
    | PublishBegin
    | AwaitBeginAck(waitId: nat)
    | PublishCommand(op: nat)
    | AwaitCommandAck(op: nat, waitId: nat)
    | PublishDown(op: nat)
    | AwaitDownAck(op: nat, waitId: nat)
    | AwaitDeviceAck(op: nat)
    | AckDeviceAck(op: nat, id: uint16, text: Stream)
    | AwaitUp(op: nat)
    | AckUp(op: nat, id: uint16)
    | PublishAckUp(op: nat)
    | AwaitAckUpAck(op: nat, waitId: nat)
    | AwaitMetrics(op: nat)
    | AckMetrics(op: nat, id: uint16)
    | Done
    | Failed

  /** `nextId` is the server's `unsigned int` counter; it is written to the wire as 16 bits. */
  datatype State = State(point: Point, nextId: uint32, log: seq<Transfer>)

  const INIT: State := State(AwaitSubscribe, FIRST_ID, [])

  function Go(s: State, p: Point): State {
    s.(point := p)
  }

  function WireId(id: nat): uint16 {
    id % TWO_TO_THE_16
  }

  function PublishBytes(topic: Stream, s: State, payload: Stream): Option<Stream> {
    Some(EncodePublish(topic, WireId(s.nextId), payload))
  }

  function EncodeSuback(id: uint16): Stream {
    [0x90, 0x04] + Big16(id) + [1, 1]
  }

  function CurrentOp(env: Env, p: Point): Option<Operation> {
    if (p.PublishCommand? || p.AwaitCommandAck? || p.PublishDown? || p.AwaitDownAck? || p.AwaitDeviceAck?
        || p.AckDeviceAck? || p.AwaitUp? || p.AckUp? || p.PublishAckUp? || p.AwaitAckUpAck?
        || p.AwaitMetrics? || p.AckMetrics?) && p.op < |env.plan|
    then Some(env.plan[p.op]) else None
  }

  /** The packet written at a writing point, if this is one. */
  function Output(env: Env, s: State): Option<Stream> {
    var current := CurrentOp(env, s.point);
    match s.point
    case SendSuback(id) => Some(EncodeSuback(id))
    case AckReady(id) => Some(EncodePuback(id))
    case PublishBegin => PublishBytes(TOPIC_CONTROL, s, FormatBegin(|env.plan|))
    case PublishCommand(_) =>
      if current.None? then None
      else PublishBytes(TOPIC_CONTROL, s, FormatCommand(CommandOf(env, current.value)))
    case PublishDown(_) => if current.None? then None else PublishBytes(TOPIC_DOWN, s, PayloadOf(current.value))
    case AckDeviceAck(_, id, _) => Some(EncodePuback(id))
    case AckUp(_, id) => Some(EncodePuback(id))
    case PublishAckUp(_) =>
      if current.None? then None else PublishBytes(TOPIC_CONTROL, s, ExpectedAck(env, "ACK_UP", current.value))
    case AckMetrics(_, id) => Some(EncodePuback(id))
    case _ => None
  }

  /** "ACK_DOWN" or "ACK_UP", the order, a 1 and the hash of the payload. */
  function ExpectedAck(env: Env, tag: string, op: Operation): Stream
    requires forall i :: 0 <= i < |tag| ==> tag[i] as int < 128
  {
    FormatAck(Ascii(tag), op.order, 1, env.digest(PayloadOf(op)))
  }

  /** Where the code goes once the packet is written. */
  function Sent(env: Env, s: State): State {
    var current := CurrentOp(env, s.point);
    var numbered := s.(nextId := (s.nextId + 1) % TWO_TO_THE_32);
    match s.point
    case SendSuback(_) => Go(s, AwaitReady)
    case AckReady(_) => Go(s, PublishBegin)
    case PublishBegin => Go(numbered, AwaitBeginAck(s.nextId))
    case PublishCommand(op) => Go(numbered, AwaitCommandAck(op, s.nextId))
    case PublishDown(op) =>
      if current.None? then s
      else Go(numbered.(log := s.log + [TransferOf(current.value)]), AwaitDownAck(op, s.nextId))
    case AckDeviceAck(op, _, text) =>
      if current.Some? && CString(text) == ExpectedAck(env, "ACK_DOWN", current.value) then Go(s, AwaitMetrics(op))
      else Go(s, Failed)
    case AckUp(op, _) => Go(s, PublishAckUp(op))
    case PublishAckUp(op) => Go(numbered, AwaitAckUpAck(op, s.nextId))
    case AckMetrics(op, _) => if op + 1 == |env.plan| then Go(s, Done) else Go(s, PublishCommand(op + 1))
    case _ => s
  }

  predicate AwaitsPuback(p: Point) {
    p.AwaitBeginAck? || p.AwaitCommandAck? || p.AwaitDownAck? || p.AwaitAckUpAck?
  }

  predicate AwaitsPublish(p: Point) {
    p.AwaitReady? || p.AwaitDeviceAck? || p.AwaitUp? || p.AwaitMetrics?
  }

  function ReadSubscribe(s: Stream): Read<Packet> {
    match ReadPacket(s)
    case Got(packet, rest) =>
      if packet.kind != 0x82 || |packet.body| < 2 then Bad
      else Got(SubscribePacket(FromBig16(packet.body)), rest)
    case Short => Short
    case Bad => Bad
  }

  /** `wait_puback` of the server reads a whole packet before it looks at it. */
  function ReadServerPuback(s: Stream): Read<Packet> {
    match ReadPacket(s)
    case Got(packet, rest) =>
      if packet.kind != 0x40 || |packet.body| != 2 then Bad
      else Got(PubackPacket(FromBig16(packet.body)), rest)
    case Short => Short
    case Bad => Bad
  }

  /** The one packet the server accepts at this point; `Short` also where it is not reading. */
  function Input(p: Point, s: Stream): Read<Packet> {
    if p.AwaitSubscribe? then ReadSubscribe(s)
    else if AwaitsPuback(p) then ReadServerPuback(s)
    else if AwaitsPublish(p) then
      (match ServerReadPublish(s, TOPIC_CAPACITY)
       case Got(publication, rest) => Got(PublishPacket(publication), rest)
       case Short => Short
       case Bad => Bad)
    else Short
  }

  /** Where the code goes once the packet is read; an acknowledgement is compared without truncation. */
  function Received(env: Env, s: State, packet: Packet): State {
    var current := CurrentOp(env, s.point);
    match (s.point, packet)
    case (AwaitSubscribe, SubscribePacket(id)) => Go(s, SendSuback(id))
    case (AwaitReady, PublishPacket(p)) =>
      if TopicIs(p.topic, TOPIC_UP) && p.payload == READY then Go(s, AckReady(p.id)) else Go(s, Failed)
    case (AwaitBeginAck(waitId), PubackPacket(id)) => if id == waitId then Go(s, PublishCommand(0)) else Go(s, Failed)
    case (AwaitCommandAck(op, waitId), PubackPacket(id)) =>
      if id != waitId || current.None? then Go(s, Failed)
      else if current.value.down then Go(s, PublishDown(op)) else Go(s, AwaitUp(op))
    case (AwaitDownAck(op, waitId), PubackPacket(id)) =>
      if id == waitId then Go(s, AwaitDeviceAck(op)) else Go(s, Failed)
    case (AwaitDeviceAck(op), PublishPacket(p)) =>
      if TopicIs(p.topic, TOPIC_DEVICE_ACK) && |p.payload| < COMMAND_CAPACITY
      then Go(s, AckDeviceAck(op, p.id, p.payload))
      else Go(s, Failed)
    case (AwaitUp(op), PublishPacket(p)) =>
      if TopicIs(p.topic, TOPIC_UP) && current.Some? && p.payload == PayloadOf(current.value)
      then Go(s.(log := s.log + [Transfer(current.value.order, false, p.payload)]), AckUp(op, p.id))
      else Go(s, Failed)
    case (AwaitAckUpAck(op, waitId), PubackPacket(id)) =>
      if id == waitId then Go(s, AwaitMetrics(op)) else Go(s, Failed)
    case (AwaitMetrics(op), PublishPacket(p)) =>
      if TopicIs(p.topic, TOPIC_METRICS) then Go(s, AckMetrics(op, p.id)) else Go(s, Failed)
    case _ => Go(s, Failed)
  }

  function Refused(s: State): State {
    Go(s, Failed)
  }

  /** More bytes never change what the server has already read. */
  lemma InputStable(p: Point, s: Stream, more: Stream)
    requires !Input(p, s).Short?
    ensures Input(p, s + more) == Extend(Input(p, s), more)
  {
    if p.AwaitSubscribe? || AwaitsPuback(p) {
      PacketStable(s, more);
    } else {
      ServerPublishStable(s, more, TOPIC_CAPACITY);
    }
  }
}
