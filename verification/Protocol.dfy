/** What the device and the server agree on before a transfer session: topics, packets and the plan. */
module Protocol {
  import opened Bytes
  import opened Framing
  import opened Packets
  import opened Text
  import Payload

  const MAX_OPERATIONS: int := 4096

  const TOPIC_CONTROL: Stream := Ascii("bench/control")
  const TOPIC_DOWN: Stream := Ascii("bench/down")
  const TOPIC_UP: Stream := Ascii("bench/up")
  const TOPIC_DEVICE_ACK: Stream := Ascii("bench/device_ack")
  const TOPIC_METRICS: Stream := Ascii("bench/metrics")
  const READY: Stream := Ascii("READY")

  /** One row of the transfer plan; `down` is the direction "server_to_device". */
  datatype Operation = Operation(order: uint32, down: bool, size: uint32, seed: uint32)

  /**
    Everything the two programs do not compute themselves: the plan, the SHA-256 hex digest, the
    metrics text of each operation, and the value the device's static packet counter has when the
    session starts (10 after a boot).
   */
  datatype Env = Env(plan: seq<Operation>, digest: Stream -> Stream, metrics: nat -> Stream, deviceId: uint16)

  /** What a reader hands to the session code. */
  datatype Packet =
    | SubscribePacket(id: uint16)
    | SubackPacket
    | PubackPacket(id: uint16)
    | PublishPacket(publication: Publication)

  /** A payload that passed: which operation it belongs to and the bytes. */
  datatype Transfer = Transfer(order: nat, down: bool, payload: Stream)

  function PayloadOf(op: Operation): Stream {
    Payload.Pattern(op.seed, 0, op.size)
  }

  function TransferOf(op: Operation): Transfer {
    Transfer(op.order, op.down, PayloadOf(op))
  }

  function Transfers(plan: seq<Operation>, count: nat): seq<Transfer>
    requires count <= |plan|
  {
    seq(count, i requires 0 <= i < count => TransferOf(plan[i]))
  }

  function CommandOf(env: Env, op: Operation): Command {
    Command(if op.down then Ascii("DOWN") else Ascii("UP"), op.order, op.size, op.seed, env.digest(PayloadOf(op)))
  }

  /** Topic comparison by `strcmp` on the terminated buffer. */
  predicate TopicIs(topic: Stream, name: Stream) {
    CString(topic) == name
  }

  /** The data packet of the operation fits MQTT's Remaining Length. */
  predicate FitsPacket(op: Operation) {
    Fits(if op.down then TOPIC_DOWN else TOPIC_UP, op.size)
  }

  /** A plan of operations that carry something, and texts of the shapes `printf` produces. */
  ghost predicate WellFormed(env: Env) {
    && 1 <= |env.plan| < TWO_TO_THE_32
    && (forall i :: 0 <= i < |env.plan| ==> env.plan[i].size >= 1)
    && (forall s :: IsDigest(env.digest(s)))
    && (forall i :: 0 <= i < |env.plan| ==> 0 < |env.metrics(i)| < 1024)
  }

  /** The plans the session is meant for. */
  ghost predicate Proper(env: Env) {
    WellFormed(env) && |env.plan| <= MAX_OPERATIONS
  }

  /** Plans all of whose data packets fit. */
  ghost predicate Runnable(env: Env) {
    Proper(env) && forall i :: 0 <= i < |env.plan| ==> FitsPacket(env.plan[i])
  }
}
