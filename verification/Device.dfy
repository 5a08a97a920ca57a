/**
  The device side of a transfer session, cut at the points where it writes a packet or waits for
  one. Each constructor carries the locals of the firmware that are live at that point.
 */
module Device {
  import opened Bytes
  import opened Framing
  import opened Packets
  import opened Text
  import opened Protocol
  import Payload

  const TOPIC_CAPACITY: nat := 32
  const BEGIN_CAPACITY: nat := 64
  const CONTROL_CAPACITY: nat := 192
  const METRICS_CAPACITY: nat := 1024

  /** The loop variables of the session: how many operations there are and which one is running. */
  datatype Loop = Loop(count: nat, operation: nat)

  datatype Point =
    | Subscribe
    | AwaitSuback
    | PublishReady
    | AwaitReadyAck(id: uint16)
    | AwaitBegin
    | AckBegin(id: uint16, text: Stream)
    | AwaitCommand(loop: Loop)
    | AckCommand(loop: Loop, id: uint16, text: Stream)
    | AwaitDown(loop: Loop, c: Command)
    | AckDown(loop: Loop, c: Command, id: uint16, valid: bool, actual: Stream)
    | PublishDownAck(loop: Loop, c: Command, valid: bool, actual: Stream)
    | AwaitDownAckAck(loop: Loop, c: Command, id: uint16, valid: bool, actual: Stream)
    | PublishUp(loop: Loop, c: Command)
    | AwaitUpAck(loop: Loop, c: Command, id: uint16, actual: Stream)
    | AwaitAckUp(loop: Loop, c: Command, actual: Stream)
    | AckAckUp(loop: Loop, c: Command, actual: Stream, id: uint16, text: Stream)
    | PublishMetrics(loop: Loop, valid: bool)
    | AwaitMetricsAck(loop: Loop, id: uint16, valid: bool)
    | Done
    | Failed

  datatype State = State(point: Point, nextId: uint16, log: seq<Transfer>)

  function Init(env: Env): State {
    State(Subscribe, env.deviceId, [])
  }

  /** `next_packet_id++` on a `uint16_t`. */
  function Increment(id: uint16): uint16 {
    (id + 1) % TWO_TO_THE_16
  }

  function Go(d: State, p: Point): State {
    d.(point := p)
  }

  // ----- writing

  function EncodeSubscribe(id: uint16): Stream {
    var body := Big16(id) + Big16(|TOPIC_CONTROL|) + TOPIC_CONTROL + [1] + Big16(|TOPIC_DOWN|) + TOPIC_DOWN + [1];
    [0x82] + EncodeRemaining(2 + (3 + |TOPIC_CONTROL|) + (3 + |TOPIC_DOWN|)) + body
  }

  /** The packet written at a writing point, if this is one. */
  function Output(env: Env, d: State): Option<Stream> {
    match d.point
    case Subscribe => Some(EncodeSubscribe(d.nextId))
    case PublishReady => Some(EncodePublish(TOPIC_UP, d.nextId, READY))
    case AckBegin(id, _) => Some(EncodePuback(id))
    case AckCommand(_, id, _) => Some(EncodePuback(id))
    case AckDown(_, _, id, _, _) => Some(EncodePuback(id))
    case PublishDownAck(_, c, valid, actual) =>
      Some(EncodePublish(TOPIC_DEVICE_ACK, d.nextId,
                         FormatAck(Ascii("ACK_DOWN"), c.order, if valid then 1 else 0, actual)))
    case PublishUp(_, c) => Some(EncodePublish(TOPIC_UP, d.nextId, Payload.Pattern(c.seed, 0, c.size)))
    case AckAckUp(_, _, _, id, _) => Some(EncodePuback(id))
    case PublishMetrics(loop, _) =>
      if 0 < |env.metrics(loop.operation)| < METRICS_CAPACITY
      then Some(EncodePublish(TOPIC_METRICS, d.nextId, env.metrics(loop.operation)))
      else Some([])
    case _ => None
  }

  /** Where the code goes once the packet is written. */
  function Sent(env: Env, d: State): State {
    var numbered := d.(nextId := Increment(d.nextId));
    match d.point
    case Subscribe => Go(numbered, AwaitSuback)
    case PublishReady => Go(numbered, AwaitReadyAck(d.nextId))
    case AckBegin(_, text) =>
      (match ParseBegin(text)
       case Some(count) => if 1 <= count <= MAX_OPERATIONS then Go(d, AwaitCommand(Loop(count, 0))) else Go(d, Failed)
       case None => Go(d, Failed))
    case AckCommand(loop, _, text) =>
      (match ParseCommand(text)
       case Some(c) =>
         if c.direction == Ascii("DOWN") then Go(d, AwaitDown(loop, c))
         else if c.direction == Ascii("UP") then Go(d, PublishUp(loop, c))
         else Go(d, Failed)
       case None => Go(d, Failed))
    case AckDown(loop, c, _, valid, actual) => Go(d, PublishDownAck(loop, c, valid, actual))
    case PublishDownAck(loop, c, valid, actual) => Go(numbered, AwaitDownAckAck(loop, c, d.nextId, valid, actual))
    case PublishUp(loop, c) =>
      var payload := Payload.Pattern(c.seed, 0, c.size);
      Go(numbered.(log := d.log + [Transfer(c.order, false, payload)]),
         AwaitUpAck(loop, c, d.nextId, env.digest(payload)))
    case AckAckUp(loop, c, actual, _, text) =>
      var valid := ParseAckUp(text) == Some(Ack(c.order, 1, actual));
      Go(d, PublishMetrics(loop, valid && actual == c.hash))
    case PublishMetrics(loop, valid) =>
      if 0 < |env.metrics(loop.operation)| < METRICS_CAPACITY
      then Go(numbered, AwaitMetricsAck(loop, d.nextId, valid))
      else Go(d, Failed)
    case _ => d
  }

  // ----- reading

  predicate AwaitsPuback(p: Point) {
    p.AwaitReadyAck? || p.AwaitDownAckAck? || p.AwaitUpAck? || p.AwaitMetricsAck?
  }

  predicate AwaitsPublish(p: Point) {
    p.AwaitBegin? || p.AwaitCommand? || p.AwaitDown? || p.AwaitAckUp?
  }

  /** `read_packet_header` and the body of the SUBACK, which is read into four bytes. */
  function ReadSuback(s: Stream): Read<Packet> {
    match ReadHeader(s)
    case Got(header, rest) =>
      if header.kind != 0x90 || header.remaining > 4 then Bad
      else if |rest| < header.remaining then Short
      else Got(SubackPacket, rest[header.remaining..])
    case Short => Short
    case Bad => Bad
  }

  /** The one packet the device accepts at this point; `Short` also where it is not reading. */
  function Input(p: Point, s: Stream): Read<Packet> {
    if p.AwaitSuback? then ReadSuback(s)
    else if AwaitsPuback(p) then
      (match ReadPuback(s)
       case Got(id, rest) => Got(PubackPacket(id), rest)
       case Short => Short
       case Bad => Bad)
    else if AwaitsPublish(p) then
      (match DeviceReadPublish(s, TOPIC_CAPACITY)
       case Got(publication, rest) => Got(PublishPacket(publication), rest)
       case Short => Short
       case Bad => Bad)
    else Short
  }

  /** Where the code goes once the packet is read. */
  function Received(env: Env, d: State, packet: Packet): State {
    match (d.point, packet)
    case (AwaitSuback, SubackPacket) => Go(d, PublishReady)
    case (AwaitReadyAck(id), PubackPacket(got)) => if got == id then Go(d, AwaitBegin) else Go(d, Failed)
    case (AwaitBegin, PublishPacket(p)) =>
      if TopicIs(p.topic, TOPIC_CONTROL) && |p.payload| < BEGIN_CAPACITY then Go(d, AckBegin(p.id, p.payload))
      else Go(d, Failed)
    case (AwaitCommand(loop), PublishPacket(p)) =>
      if TopicIs(p.topic, TOPIC_CONTROL) && |p.payload| < CONTROL_CAPACITY then Go(d, AckCommand(loop, p.id, p.payload))
      else Go(d, Failed)
    case (AwaitDown(loop, c), PublishPacket(p)) =>
      var valid := c.size == 0 || p.payload == Payload.Pattern(c.seed, 0, c.size);
      Go(d.(log := d.log + [Transfer(c.order, true, p.payload)]),
         AckDown(loop, c, p.id, valid, env.digest(p.payload)))
    case (AwaitDownAckAck(loop, c, id, valid, actual), PubackPacket(got)) =>
      Go(d, PublishMetrics(loop, got == id && valid && actual == c.hash))
    case (AwaitUpAck(loop, c, id, actual), PubackPacket(got)) =>
      if got == id then Go(d, AwaitAckUp(loop, c, actual)) else Go(d, PublishMetrics(loop, false))
    case (AwaitAckUp(loop, c, actual), PublishPacket(p)) =>
      if |p.payload| < CONTROL_CAPACITY then Go(d, AckAckUp(loop, c, actual, p.id, p.payload))
      else Go(d, AckAckUp(loop, c, actual, p.id, []))
    case (AwaitMetricsAck(loop, id, valid), PubackPacket(got)) =>
      if got != id || !valid then Go(d, Failed)
      else if loop.operation + 1 == loop.count then Go(d, Done)
      else Go(d, AwaitCommand(Loop(loop.count, loop.operation + 1)))
    case _ => Go(d, Failed)
  }

  /** A refused packet ends the session, except inside an operation, where the metrics still report it. */
  function Refused(d: State): State {
    match d.point
    case AwaitDown(loop, _) => Go(d, PublishMetrics(loop, false))
    case AwaitDownAckAck(loop, _, _, _, _) => Go(d, PublishMetrics(loop, false))
    case AwaitUpAck(loop, _, _, _) => Go(d, PublishMetrics(loop, false))
    case AwaitAckUp(loop, _, _) => Go(d, PublishMetrics(loop, false))
    case _ => Go(d, Failed)
  }

  /** More bytes never change what the device has already read. */
  lemma InputStable(p: Point, s: Stream, more: Stream)
    requires !Input(p, s).Short?
    ensures Input(p, s + more) == Extend(Input(p, s), more)
  {
    if p.AwaitSuback? {
      HeaderStable(s, more);
      if ReadHeader(s).Got? {
        var header, rest := ReadHeader(s).value, ReadHeader(s).rest;
        if header.remaining <= |rest| {
          assert (rest + more)[header.remaining..] == rest[header.remaining..] + more;
        }
      }
    } else if AwaitsPuback(p) {
      PubackStable(s, more);
    } else {
      DevicePublishStable(s, more, TOPIC_CAPACITY);
    }
  }
}
