/**
  Each side of a transfer session on its own, against a peer that may send anything: which arrivals
  let it report success, in the packets themselves.
 */
module AnyPeer {
  import opened Bytes
  import opened Framing
  import opened Packets
  import opened Text
  import opened Protocol
  import opened Script
  import Device
  import Follows
  import Payload
  import Server

  /** What a peer's bytes come to where they are read: a packet, or bytes that are refused. */
  type Arrival = Option<Packet>

  /** A PUBLISH on this topic, compared as `strcmp` does. */
  predicate IsPublishOn(a: Arrival, name: Stream) {
    a.Some? && a.value.PublishPacket? && CString(a.value.publication.topic) == name
  }

  // ----- the server

  predicate ServerReads(p: Server.Point) {
    p.AwaitSubscribe? || Server.AwaitsPuback(p) || Server.AwaitsPublish(p)
  }

  /** How many packets the server writes at most before it reads again. */
  function ServerRank(p: Server.Point): nat {
    if ServerReads(p) || p.Done? || p.Failed? then 0
    else if p.AckReady? || p.AckUp? || p.AckMetrics? then 2 else 1
  }

  /** The server where it reads next or has ended. */
  function ServerWritten(env: Env, s: Server.State): Server.State
    decreases ServerRank(s.point)
  {
    if Server.Output(env, s).None? then s else ServerWritten(env, Server.Sent(env, s))
  }

  function ServerTakes(env: Env, s: Server.State, a: Arrival): Server.State {
    match a
    case Some(packet) => Server.Received(env, s, packet)
    case None => Server.Refused(s)
  }

  /** The server on arrivals; once it has ended it reads no more of them. */
  function ServerOn(env: Env, s: Server.State, arrivals: seq<Arrival>): Server.State
    decreases |arrivals|
  {
    var now := ServerWritten(env, s);
    if arrivals == [] || !ServerReads(now.point) then now
    else ServerOn(env, ServerTakes(env, now, arrivals[0]), arrivals[1..])
  }

  /** How many packets the server reads in all. */
  function ServerLength(env: Env): nat {
    3 + 4 * |env.plan|
  }

  /** The packet the server wants as its `k`-th: identifiers run from 100 on. */
  predicate ServerExpects(env: Env, k: nat, a: Arrival)
    requires k < ServerLength(env)
  {
    if k == 0 then a.Some? && a.value.SubscribePacket?
    else if k == 1 then IsPublishOn(a, Ascii("bench/up")) && a.value.publication.payload == Ascii("READY")
    else if k == 2 then a == Some(PubackPacket(100))
    else OperationExpects(env, (k - 3) / 4, (k - 3) % 4, a)
  }

  /** Command acknowledged; payload acknowledged and confirmed, or received and confirmation acknowledged; metrics. */
  predicate OperationExpects(env: Env, i: nat, q: nat, a: Arrival)
    requires i < |env.plan|
  {
    var op := env.plan[i];
    match q
    case 0 => IsPubackOf(a, 101 + 2 * i)
    case 1 =>
      if op.down then IsPubackOf(a, 102 + 2 * i)
      else IsPublishOn(a, Ascii("bench/up")) && a.value.publication.payload == Payload.Pattern(op.seed, 0, op.size)
    case 2 =>
      if op.down then
        && IsPublishOn(a, Ascii("bench/device_ack")) && |a.value.publication.payload| < 192
        && CString(a.value.publication.payload)
           == FormatAck(Ascii("ACK_DOWN"), op.order, 1, env.digest(Payload.Pattern(op.seed, 0, op.size)))
      else IsPubackOf(a, 102 + 2 * i)
    case _ => IsPublishOn(a, Ascii("bench/metrics"))
  }

  /** The 16 bits of the packet are compared with the 32 of the counter. */
  predicate IsPubackOf(a: Arrival, counter: nat) {
    a.Some? && a.value.PubackPacket? && a.value.id == counter % TWO_TO_THE_32
  }

  /** The phase of the conversation in which the server reads its packet `q` of an operation. */
  function ServerPhase(down: bool, q: nat): nat {
    match q
    case 0 => 1
    case 1 => if down then 3 else 2
    case 2 => if down then 4 else 5
    case _ => 6
  }

  /** The server before its `k`-th packet. */
  function ServerBefore(env: Env, k: nat): Server.State
    requires 1 <= |env.plan| && k <= ServerLength(env)
  {
    if k == ServerLength(env) then Follows.ServerNext(env, |env.plan| - 1, 7)
    else if k < 3 then ServerPrefix(env, if k == 0 then 0 else if k == 1 then 2 else 5)
    else ServerIn(env, (k - 3) / 4, ServerPhase(env.plan[(k - 3) / 4].down, (k - 3) % 4))
  }

  /** The server goes on from `s` at `a` to `next` if `a` is what it wants, and else its session fails. */
  ghost predicate ServerMoves(env: Env, s: Server.State, a: Arrival, wanted: bool, next: Server.State) {
    && ServerReads(s.point)
    && var after := ServerWritten(env, ServerTakes(env, s, a));
    if wanted then after == next else after.point.Failed?
  }

  lemma ServerStep(env: Env, k: nat, a: Arrival)
    requires 1 <= |env.plan| && k < ServerLength(env)
    ensures ServerMoves(env, ServerBefore(env, k), a, ServerExpects(env, k, a), ServerBefore(env, k + 1))
  {
    hide ServerMoves, OperationExpects, ServerIn, ServerPrefix, Follows.ServerNext;
    if k < 3 {
      ServerPrefixStep(env, k, a);
    } else {
      var i, q := (k - 3) / 4, (k - 3) % 4;
      ServerOperationStep(env, i, q, a);
      if q == 3 {
        assert (k - 2) / 4 == i + 1 && (k - 2) % 4 == 0;
        assert i + 1 == |env.plan| <==> k + 1 == ServerLength(env);
      } else {
        assert (k - 2) / 4 == i && (k - 2) % 4 == q + 1;
      }
    }
  }

  /** At most two packets are written between two reads. */
  lemma ServerWrites(env: Env, s: Server.State)
    ensures var s1 := Server.Sent(env, s);
            var s2 := Server.Sent(env, s1);
            var written := ServerWritten(env, s);
            && (Server.Output(env, s).None? ==> written == s)
            && (Server.Output(env, s).Some? && Server.Output(env, s1).None? ==> written == s1)
            && (Server.Output(env, s).Some? && Server.Output(env, s1).Some? ==> written == s2)
  {
    hide Server.Sent, Server.Output;
    ServerWritesOne(env, s);
    ServerWritesOne(env, Server.Sent(env, s));
    ServerWritesOne(env, Server.Sent(env, Server.Sent(env, s)));
    TwoWrites(env, s);
  }

  lemma ServerWritesOne(env: Env, s: Server.State)
    ensures ServerWritten(env, s) == if Server.Output(env, s).None? then s else ServerWritten(env, Server.Sent(env, s))
  {
    hide Server.Sent, Server.Output;
  }

  lemma TwoWrites(env: Env, s: Server.State)
    ensures Server.Output(env, s).Some? && Server.Output(env, Server.Sent(env, s)).Some? ==>
              Server.Output(env, Server.Sent(env, Server.Sent(env, s))).None?
  {
    hide Ascii, FormatBegin, FormatCommand, FormatAck, CString, EncodePublish, EncodePuback, Server.EncodeSuback;
  }

  lemma ServerPrefixStep(env: Env, k: nat, a: Arrival)
    requires 1 <= |env.plan| && k < 3
    ensures ServerMoves(env, ServerBefore(env, k), a, ServerExpects(env, k, a), ServerBefore(env, k + 1))
  {
    hide Ascii, FormatBegin, FormatCommand, CString, EncodePublish, EncodePuback, Server.EncodeSuback, ServerWritten;
    ServerWrites(env, ServerTakes(env, ServerBefore(env, k), a));
    assert Transfers(env.plan, 0) == [];
  }

  lemma ServerOperationStep(env: Env, i: nat, q: nat, a: Arrival)
    requires i < |env.plan| && q < 4
    ensures var down := env.plan[i].down;
            var next := if q < 3 then ServerIn(env, i, ServerPhase(down, q + 1))
                        else if i + 1 < |env.plan| then ServerIn(env, i + 1, 1)
                        else Follows.ServerNext(env, i, 7);
            ServerMoves(env, ServerIn(env, i, ServerPhase(down, q)), a, OperationExpects(env, i, q, a), next)
  {
    hide ServerMoves, OperationExpects, ServerIn, Follows.ServerNext;
    var down := env.plan[i].down;
    if q == 0 {
      CommandAcknowledged(env, i, a);
    } else if q == 1 {
      if down { DownAcknowledged(env, i, a); } else { UpArrives(env, i, a); }
    } else if q == 2 {
      if down { DownConfirmed(env, i, a); } else { UpConfirmed(env, i, a); }
    } else {
      MetricsArrive(env, i, a);
    }
  }

  lemma CommandAcknowledged(env: Env, i: nat, a: Arrival)
    requires i < |env.plan|
    ensures ServerMoves(env, ServerIn(env, i, 1), a, OperationExpects(env, i, 0, a),
                        ServerIn(env, i, if env.plan[i].down then 3 else 2))
  {
    hide Ascii, Counter, FormatBegin, FormatCommand, FormatAck, CString, EncodePublish, EncodePuback,
      Payload.Pattern, ServerWritten;
    ServerWrites(env, ServerTakes(env, ServerIn(env, i, 1), a));
    CountersAre(i);
    Follows.TransfersGrow(env.plan, i);
  }

  lemma DownAcknowledged(env: Env, i: nat, a: Arrival)
    requires i < |env.plan| && env.plan[i].down
    ensures ServerMoves(env, ServerIn(env, i, 3), a, OperationExpects(env, i, 1, a),
                        ServerIn(env, i, 4))
  {
    hide Ascii, Counter, FormatBegin, FormatCommand, FormatAck, CString, EncodePublish, EncodePuback,
      Payload.Pattern, ServerWritten;
    ServerWrites(env, ServerTakes(env, ServerIn(env, i, 3), a));
    CountersAre(i);
  }

  lemma UpArrives(env: Env, i: nat, a: Arrival)
    requires i < |env.plan| && !env.plan[i].down
    ensures ServerMoves(env, ServerIn(env, i, 2), a, OperationExpects(env, i, 1, a),
                        ServerIn(env, i, 5))
  {
    hide Ascii, Counter, FormatBegin, FormatCommand, FormatAck, CString, EncodePublish, EncodePuback,
      Payload.Pattern, ServerWritten;
    ServerWrites(env, ServerTakes(env, ServerIn(env, i, 2), a));
    CountersAre(i);
    Follows.TransfersGrow(env.plan, i);
  }

  lemma DownConfirmed(env: Env, i: nat, a: Arrival)
    requires i < |env.plan| && env.plan[i].down
    ensures ServerMoves(env, ServerIn(env, i, 4), a, OperationExpects(env, i, 2, a),
                        ServerIn(env, i, 6))
  {
    hide Ascii, Counter, FormatBegin, FormatCommand, FormatAck, CString, EncodePublish, EncodePuback,
      Payload.Pattern, ServerWritten;
    ServerWrites(env, ServerTakes(env, ServerIn(env, i, 4), a));
  }

  lemma UpConfirmed(env: Env, i: nat, a: Arrival)
    requires i < |env.plan| && !env.plan[i].down
    ensures ServerMoves(env, ServerIn(env, i, 5), a, OperationExpects(env, i, 2, a),
                        ServerIn(env, i, 6))
  {
    hide Ascii, Counter, FormatBegin, FormatCommand, FormatAck, CString, EncodePublish, EncodePuback,
      Payload.Pattern, ServerWritten;
    ServerWrites(env, ServerTakes(env, ServerIn(env, i, 5), a));
    CountersAre(i);
  }

  lemma MetricsArrive(env: Env, i: nat, a: Arrival)
    requires i < |env.plan|
    ensures ServerMoves(env, ServerIn(env, i, 6), a, OperationExpects(env, i, 3, a),
                        if i + 1 < |env.plan| then ServerIn(env, i + 1, 1) else Follows.ServerNext(env, i, 7))
  {
    hide Ascii, Counter, FormatBegin, FormatCommand, FormatAck, CString, EncodePublish, EncodePuback,
      Payload.Pattern, ServerWritten;
    ServerWrites(env, ServerTakes(env, ServerIn(env, i, 6), a));
    CountersAre(i + 1);
    assert ServerIdIn(i + 1, 0) == ServerIdIn(i, 2);
  }

  lemma CountersAre(i: nat)
    ensures Counter(ServerIdIn(i, 0)) == (101 + 2 * i) % TWO_TO_THE_32
    ensures Counter(ServerIdIn(i, 1)) == (102 + 2 * i) % TWO_TO_THE_32
    ensures Counter(ServerIdIn(i, 1)) == (Counter(ServerIdIn(i, 0)) + 1) % TWO_TO_THE_32
    ensures Counter(ServerIdIn(i, 2)) == (Counter(ServerIdIn(i, 1)) + 1) % TWO_TO_THE_32
  {
    Follows.NextCounter(i, 0);
    Follows.NextCounter(i, 1);
  }

  lemma ServerOnStep(env: Env, s: Server.State, arrivals: seq<Arrival>)
    requires ServerReads(s.point)
    ensures ServerOn(env, s, arrivals) == if arrivals == [] then s
                                          else ServerOn(env, ServerTakes(env, s, arrivals[0]), arrivals[1..])
    ensures ServerOn(env, s, arrivals) == ServerOn(env, ServerWritten(env, s), arrivals)
  {
    hide Server.Received;
    ReadingWritesNothing(env, s);
  }

  lemma ReadingWritesNothing(env: Env, s: Server.State)
    ensures ServerReads(s.point) || s.point.Done? || s.point.Failed? ==> ServerWritten(env, s) == s
  {}

  lemma {:induction false} WrittenOnce(env: Env, s: Server.State)
    ensures ServerWritten(env, ServerWritten(env, s)) == ServerWritten(env, s)
    decreases ServerRank(s.point)
  {
    hide Server.Output, Server.Sent;
    ServerWritesOne(env, s);
    ServerWrites(env, s);
    TwoWrites(env, s);
    ServerWritesOne(env, ServerWritten(env, s));
  }

  /** What the server has written before it reads does not matter to what it makes of arrivals. */
  lemma OnWritten(env: Env, s: Server.State, arrivals: seq<Arrival>)
    ensures ServerOn(env, s, arrivals) == ServerOn(env, ServerWritten(env, s), arrivals)
  {
    hide ServerWritten, ServerTakes;
    WrittenOnce(env, s);
  }

  /** The server has ended. */
  lemma ServerEnded(env: Env, s: Server.State, arrivals: seq<Arrival>)
    requires s.point.Done? || s.point.Failed?
    ensures ServerOn(env, s, arrivals) == s
  {
    ReadingWritesNothing(env, s);
  }

  /** All packets from the `k`-th on are what the server wants. */
  predicate ServerWants(env: Env, k: nat, arrivals: seq<Arrival>)
    requires k <= ServerLength(env)
  {
    && |arrivals| >= ServerLength(env) - k
    && forall j :: 0 <= j < ServerLength(env) - k ==> ServerExpects(env, k + j, arrivals[j])
  }

  lemma ServerWantsStep(env: Env, k: nat, arrivals: seq<Arrival>)
    requires k < ServerLength(env)
    ensures ServerWants(env, k, arrivals) <==>
            arrivals != [] && ServerExpects(env, k, arrivals[0]) && ServerWants(env, k + 1, arrivals[1..])
  {
    hide ServerExpects;
    if arrivals != [] {
      var rest := arrivals[1..];
      if ServerWants(env, k, arrivals) {
        forall j | 0 <= j < ServerLength(env) - (k + 1)
          ensures ServerExpects(env, k + 1 + j, rest[j])
        {
          assert ServerExpects(env, k + (j + 1), arrivals[j + 1]);
        }
      }
      if ServerExpects(env, k, arrivals[0]) && ServerWants(env, k + 1, rest) {
        forall j | 0 <= j < ServerLength(env) - k
          ensures ServerExpects(env, k + j, arrivals[j])
        {
          if j > 0 { assert ServerExpects(env, k + 1 + (j - 1), rest[j - 1]); }
        }
      }
    }
  }

  lemma {:induction false} ServerFrom(env: Env, k: nat, arrivals: seq<Arrival>)
    requires 1 <= |env.plan| && k <= ServerLength(env)
    ensures var last := ServerOn(env, ServerBefore(env, k), arrivals);
            && (last.point.Done? <==> ServerWants(env, k, arrivals))
            && (last.point.Done? ==> last.log == Transfers(env.plan, |env.plan|))
    decreases ServerLength(env) - k
  {
    hide ServerBefore, ServerExpects, ServerWants, ServerTakes, ServerWritten, ServerOn;
    if k == ServerLength(env) {
      ServerIsDone(env);
      ServerEnded(env, ServerBefore(env, k), arrivals);
      assert ServerWants(env, k, arrivals) by { NothingWanted(env, arrivals); }
    } else {
      var s := ServerBefore(env, k);
      ServerWantsStep(env, k, arrivals);
      NotDone(env, k);
      ServerOnStep(env, s, arrivals);
      if arrivals != [] {
        ServerStep(env, k, arrivals[0]);
        var after := ServerTakes(env, s, arrivals[0]);
        OnWritten(env, after, arrivals[1..]);
        if ServerExpects(env, k, arrivals[0]) {
          ServerFrom(env, k + 1, arrivals[1..]);
        } else {
          ServerEnded(env, ServerWritten(env, after), arrivals[1..]);
        }
      }
    }
  }

  lemma NothingWanted(env: Env, arrivals: seq<Arrival>)
    ensures ServerWants(env, ServerLength(env), arrivals)
  {}

  lemma ServerIsDone(env: Env)
    requires 1 <= |env.plan|
    ensures ServerBefore(env, ServerLength(env)).point.Done?
    ensures ServerBefore(env, ServerLength(env)).log == Transfers(env.plan, |env.plan|)
  {}

  lemma NotDone(env: Env, k: nat)
    requires 1 <= |env.plan| && k < ServerLength(env)
    ensures ServerReads(ServerBefore(env, k).point)
  {
    ServerStep(env, k, None);
  }

  /**
    Whatever a peer sends, the server reports success exactly if the packets are the ones it wants,
    one after the other; and then it has transferred the plan, byte by byte.
   */
  lemma ServerDoneIff(env: Env, arrivals: seq<Arrival>)
    requires env.plan != []
    ensures var last := ServerOn(env, Server.INIT, arrivals);
            && (last.point.Done? <==>
                  && |arrivals| >= ServerLength(env)
                  && forall k :: 0 <= k < ServerLength(env) ==> ServerExpects(env, k, arrivals[k]))
            && (last.point.Done? ==> last.log == Transfers(env.plan, |env.plan|))
  {
    hide ServerExpects, ServerOn;
    ServerFrom(env, 0, arrivals);
    assert ServerBefore(env, 0) == Server.INIT;
  }

  // ----- the device

  predicate DeviceReads(p: Device.Point) {
    p.AwaitSuback? || Device.AwaitsPuback(p) || Device.AwaitsPublish(p)
  }

  /** How many packets the device writes at most before it reads again. */
  function DeviceRank(p: Device.Point): nat {
    if DeviceReads(p) || p.Done? || p.Failed? then 0
    else if p.AckCommand? || p.AckDown? || p.AckAckUp? then 2 else 1
  }

  /** The device where it reads next or has ended. */
  function DeviceWritten(env: Env, d: Device.State): Device.State
    decreases DeviceRank(d.point)
  {
    if Device.Output(env, d).None? then d else DeviceWritten(env, Device.Sent(env, d))
  }

  function DeviceTakes(env: Env, d: Device.State, a: Arrival): Device.State {
    match a
    case Some(packet) => Device.Received(env, d, packet)
    case None => Device.Refused(d)
  }

  /** The device on arrivals; once it has ended it reads no more of them. */
  function DeviceOn(env: Env, d: Device.State, arrivals: seq<Arrival>): Device.State
    decreases |arrivals|
  {
    var now := DeviceWritten(env, d);
    if arrivals == [] || !DeviceReads(now.point) then now
    else DeviceOn(env, DeviceTakes(env, now, arrivals[0]), arrivals[1..])
  }

  predicate IsPubackOnly(a: Arrival, id: int) {
    a == Some(PubackPacket(id % TWO_TO_THE_16))
  }

  /** A text message: short enough to be scanned. */
  predicate IsText(a: Arrival, capacity: nat) {
    a.Some? && a.value.PublishPacket? && |a.value.publication.payload| < capacity
  }

  /** The command a message on the control topic carries, if it is one. */
  function CommandIn(a: Arrival): Option<Command> {
    if IsPublishOn(a, Ascii("bench/control")) && IsText(a, 192) then ParseCommand(a.value.publication.payload) else None
  }

  function CountIn(a: Arrival): Option<nat> {
    if IsPublishOn(a, Ascii("bench/control")) && IsText(a, 64) then ParseBegin(a.value.publication.payload) else None
  }

  /** A download that passes: the pattern, unless no size is expected, and the hash that was announced. */
  predicate IsDownload(env: Env, c: Command, a: Arrival) {
    && a.Some? && a.value.PublishPacket?
    && (c.size == 0 || a.value.publication.payload == Payload.Pattern(c.seed, 0, c.size))
    && env.digest(a.value.publication.payload) == c.hash
  }

  /** The confirmation of an upload: order, 1 and the hash of what was sent, which is the hash announced. */
  predicate IsConfirmation(env: Env, c: Command, a: Arrival) {
    var hash := env.digest(Payload.Pattern(c.seed, 0, c.size));
    IsText(a, 192) && ParseAckUp(a.value.publication.payload) == Some(Ack(c.order, 1, hash)) && hash == c.hash
  }

  predicate HasMetrics(env: Env, operation: nat) {
    0 < |env.metrics(operation)| < 1024
  }

  /** The four packets of an operation whose first identifier is `id`, and the metrics the device can send. */
  predicate IsOperation(env: Env, operation: nat, id: nat, four: seq<Arrival>)
    requires |four| == 4
  {
    match CommandIn(four[0])
    case None => false
    case Some(c) =>
      && (if c.direction == Ascii("DOWN") then IsDownload(env, c, four[1]) && IsPubackOnly(four[2], id)
          else c.direction == Ascii("UP") && IsPubackOnly(four[1], id) && IsConfirmation(env, c, four[2]))
      && HasMetrics(env, operation) && IsPubackOnly(four[3], id + 1)
  }

  /** The operations from `i` on, four packets and two identifiers each. */
  predicate AreOperations(env: Env, i: nat, count: nat, id: nat, arrivals: seq<Arrival>)
    requires i <= count
    decreases count - i
  {
    i == count ||
    (&& |arrivals| >= 4 && IsOperation(env, i, id, arrivals[..4])
     && AreOperations(env, i + 1, count, id + 2, arrivals[4..]))
  }

  lemma DeviceWritesOne(env: Env, d: Device.State)
    ensures DeviceWritten(env, d) == if Device.Output(env, d).None? then d else DeviceWritten(env, Device.Sent(env, d))
  {
    hide Device.Sent, Device.Output;
  }

  /** A write does not matter to what the device makes of arrivals. */
  lemma DeviceOnWrite(env: Env, d: Device.State, arrivals: seq<Arrival>)
    ensures Device.Output(env, d).Some? ==> DeviceOn(env, d, arrivals) == DeviceOn(env, Device.Sent(env, d), arrivals)
  {
    hide DeviceWritten, DeviceTakes, Device.Sent, Device.Output;
    DeviceWritesOne(env, d);
  }

  lemma DeviceOnRead(env: Env, d: Device.State, arrivals: seq<Arrival>)
    requires DeviceReads(d.point)
    ensures DeviceOn(env, d, arrivals) == if arrivals == [] then d
                                          else DeviceOn(env, DeviceTakes(env, d, arrivals[0]), arrivals[1..])
  {
    hide DeviceTakes;
    DeviceWritesOne(env, d);
    DeviceSilent(env, d);
  }

  lemma DeviceSilent(env: Env, d: Device.State)
    ensures DeviceReads(d.point) || d.point.Done? || d.point.Failed? ==> Device.Output(env, d).None?
  {}

  lemma DeviceEnded(env: Env, d: Device.State, arrivals: seq<Arrival>)
    requires d.point.Done? || d.point.Failed?
    ensures DeviceOn(env, d, arrivals) == d
  {
    DeviceWritesOne(env, d);
    DeviceSilent(env, d);
  }

  /** If the arrivals are `wanted` the device goes on from `next` at `rest`, and else it never succeeds. */
  ghost predicate DeviceMoves(
    env: Env, d: Device.State, arrivals: seq<Arrival>, wanted: bool, next: Device.State, rest: seq<Arrival>)
  {
    if wanted then DeviceOn(env, d, arrivals) == DeviceOn(env, next, rest)
    else !DeviceOn(env, d, arrivals).point.Done?
  }

  function Behind(arrivals: seq<Arrival>, n: nat): seq<Arrival> {
    if |arrivals| < n then [] else arrivals[n..]
  }

  function PayloadIn(a: Arrival): Stream {
    if a.Some? && a.value.PublishPacket? then a.value.publication.payload else []
  }

  /** Behind an operation: the next one, or the end. */
  function Onwards(d: Device.State, loop: Device.Loop): Device.State {
    Device.State(
      if loop.operation + 1 == loop.count then Device.Done
      else Device.AwaitCommand(Device.Loop(loop.count, loop.operation + 1)),
      Device.Increment(d.nextId), d.log)
  }

  lemma MetricsMove(env: Env, d: Device.State, arrivals: seq<Arrival>)
    requires d.point.PublishMetrics?
    ensures var wanted := && d.point.valid && HasMetrics(env, d.point.loop.operation)
                          && arrivals != [] && IsPubackOnly(arrivals[0], d.nextId);
            DeviceMoves(env, d, arrivals, wanted, Onwards(d, d.point.loop), Behind(arrivals, 1))
  {
    hide DeviceOn, EncodePublish, EncodePuback, DeviceWritten;
    var sent := Device.Sent(env, d);
    DeviceOnWrite(env, d, arrivals);
    if HasMetrics(env, d.point.loop.operation) {
      DeviceOnRead(env, sent, arrivals);
      if arrivals != [] {
        var next := DeviceTakes(env, sent, arrivals[0]);
        if next.point.Failed? { DeviceEnded(env, next, arrivals[1..]); }
      }
    } else {
      DeviceEnded(env, sent, arrivals);
    }
  }

  /** An operation that has gone wrong is reported as such, and the session ends with it. */
  lemma WrongNeverSucceeds(env: Env, d: Device.State, arrivals: seq<Arrival>)
    requires d.point.Failed? || (d.point.PublishMetrics? && !d.point.valid)
    ensures !DeviceOn(env, d, arrivals).point.Done?
  {
    hide DeviceOn;
    if d.point.Failed? { DeviceEnded(env, d, arrivals); } else { MetricsMove(env, d, arrivals); }
  }

  /** The download has been checked and waits for the acknowledgement of its report. */
  lemma ReportMoves(env: Env, d: Device.State, arrivals: seq<Arrival>)
    requires d.point.AwaitDownAckAck?
    ensures var p := d.point;
            var wanted := p.valid && p.actual == p.c.hash && arrivals != [] && IsPubackOnly(arrivals[0], p.id);
            DeviceMoves(env, d, arrivals, wanted, d.(point := Device.PublishMetrics(p.loop, true)), Behind(arrivals, 1))
  {
    hide DeviceOn;
    DeviceOnRead(env, d, arrivals);
    if arrivals != [] {
      var next := DeviceTakes(env, d, arrivals[0]);
      if next.point.Failed? || !next.point.valid { WrongNeverSucceeds(env, next, arrivals[1..]); }
    }
  }

  /** Where the device reports an operation that has gone well. */
  function Passed(d: Device.State, loop: Device.Loop, t: Transfer): Device.State {
    Device.State(Device.PublishMetrics(loop, true), Device.Increment(d.nextId), d.log + [t])
  }

  lemma DownMoves(env: Env, d: Device.State, arrivals: seq<Arrival>)
    requires d.point.AwaitDown?
    ensures var p := d.point;
            var wanted := |arrivals| >= 2 && IsDownload(env, p.c, arrivals[0]) && IsPubackOnly(arrivals[1], d.nextId);
            var t := Transfer(p.c.order, true, if arrivals == [] then [] else PayloadIn(arrivals[0]));
            DeviceMoves(env, d, arrivals, wanted, Passed(d, p.loop, t), Behind(arrivals, 2))
  {
    hide DeviceOn, EncodePublish, EncodePuback, FormatAck, Payload.Pattern, Ascii;
    DeviceOnRead(env, d, arrivals);
    if arrivals != [] {
      var next, rest := DeviceTakes(env, d, arrivals[0]), arrivals[1..];
      if !next.point.AckDown? {
        WrongNeverSucceeds(env, next, rest);
      } else {
        DeviceOnWrite(env, next, rest);
        var report := Device.Sent(env, next);
        DeviceOnWrite(env, report, rest);
        ReportMoves(env, Device.Sent(env, report), rest);
        assert rest != [] ==> rest[0] == arrivals[1] && rest[1..] == arrivals[2..];
      }
    }
  }

  /** The upload has been sent and acknowledged, and waits to be confirmed. */
  lemma ConfirmationMoves(env: Env, d: Device.State, arrivals: seq<Arrival>)
    requires d.point.AwaitAckUp?
    requires d.point.actual == env.digest(Payload.Pattern(d.point.c.seed, 0, d.point.c.size))
    ensures var wanted := arrivals != [] && IsConfirmation(env, d.point.c, arrivals[0]);
            DeviceMoves(env, d, arrivals, wanted, d.(point := Device.PublishMetrics(d.point.loop, true)),
                        Behind(arrivals, 1))
  {
    hide DeviceOn, EncodePublish, EncodePuback, Payload.Pattern, ParseAckUp;
    DeviceOnRead(env, d, arrivals);
    NothingConfirms();
    if arrivals != [] {
      var next, rest := DeviceTakes(env, d, arrivals[0]), arrivals[1..];
      if !next.point.AckAckUp? {
        WrongNeverSucceeds(env, next, rest);
      } else {
        DeviceOnWrite(env, next, rest);
        var metrics := Device.Sent(env, next);
        if !metrics.point.valid { WrongNeverSucceeds(env, metrics, rest); }
      }
    }
  }

  lemma NothingConfirms()
    ensures ParseAckUp([]) == None
  {}

  lemma UpMoves(env: Env, d: Device.State, arrivals: seq<Arrival>)
    requires d.point.PublishUp?
    ensures var p := d.point;
            var wanted := && |arrivals| >= 2 && IsPubackOnly(arrivals[0], d.nextId)
                          && IsConfirmation(env, p.c, arrivals[1]);
            var t := Transfer(p.c.order, false, Payload.Pattern(p.c.seed, 0, p.c.size));
            DeviceMoves(env, d, arrivals, wanted, Passed(d, p.loop, t), Behind(arrivals, 2))
  {
    hide DeviceOn, EncodePublish, EncodePuback, Payload.Pattern, IsConfirmation;
    DeviceOnWrite(env, d, arrivals);
    var sent := Device.Sent(env, d);
    DeviceOnRead(env, sent, arrivals);
    if arrivals != [] {
      var next, rest := DeviceTakes(env, sent, arrivals[0]), arrivals[1..];
      if !next.point.AwaitAckUp? {
        WrongNeverSucceeds(env, next, rest);
      } else {
        ConfirmationMoves(env, next, rest);
        assert rest != [] ==> rest[0] == arrivals[1] && rest[1..] == arrivals[2..];
      }
    }
  }

  /** Where the device goes on with a command. */
  function Commanded(d: Device.State, loop: Device.Loop, c: Command): Device.State {
    d.(point := if c.direction == Ascii("DOWN") then Device.AwaitDown(loop, c) else Device.PublishUp(loop, c))
  }

  predicate IsCommand(c: Option<Command>) {
    c.Some? && (c.value.direction == Ascii("DOWN") || c.value.direction == Ascii("UP"))
  }

  lemma CommandMoves(env: Env, d: Device.State, arrivals: seq<Arrival>)
    requires d.point.AwaitCommand?
    ensures var c := if arrivals == [] then None else CommandIn(arrivals[0]);
            if IsCommand(c) then
              DeviceMoves(env, d, arrivals, true, Commanded(d, d.point.loop, c.value), Behind(arrivals, 1))
            else !DeviceOn(env, d, arrivals).point.Done?
  {
    hide DeviceOn, EncodePublish, EncodePuback, Ascii, ParseCommand, CString;
    DeviceOnRead(env, d, arrivals);
    if arrivals != [] {
      var next, rest := DeviceTakes(env, d, arrivals[0]), arrivals[1..];
      if !next.point.AckCommand? {
        WrongNeverSucceeds(env, next, rest);
      } else {
        DeviceOnWrite(env, next, rest);
        if Device.Sent(env, next).point.Failed? { WrongNeverSucceeds(env, Device.Sent(env, next), rest); }
      }
    }
  }

  /** What an operation transfers: what was received, or the pattern that was sent. */
  function Moved(four: seq<Arrival>): Transfer
    requires |four| == 4
  {
    match CommandIn(four[0])
    case None => Transfer(0, false, [])
    case Some(c) =>
      if c.direction == Ascii("DOWN") then Transfer(c.order, true, PayloadIn(four[1]))
      else Transfer(c.order, false, Payload.Pattern(c.seed, 0, c.size))
  }

  function AllMoved(count: nat, arrivals: seq<Arrival>): seq<Transfer> {
    if count == 0 || |arrivals| < 4 then [] else [Moved(arrivals[..4])] + AllMoved(count - 1, arrivals[4..])
  }

  /** The three packets behind a command. */
  predicate IsServed(env: Env, operation: nat, c: Command, id: nat, three: seq<Arrival>)
    requires |three| == 3
  {
    && (if c.direction == Ascii("DOWN") then IsDownload(env, c, three[0]) && IsPubackOnly(three[1], id)
        else IsPubackOnly(three[0], id) && IsConfirmation(env, c, three[1]))
    && HasMetrics(env, operation) && IsPubackOnly(three[2], id + 1)
  }

  lemma ServedMoves(env: Env, d: Device.State, loop: Device.Loop, c: Command, id: nat, arrivals: seq<Arrival>)
    requires d.nextId == id % TWO_TO_THE_16
    ensures var wanted := |arrivals| >= 3 && IsServed(env, loop.operation, c, id, arrivals[..3]);
            var t := if c.direction == Ascii("DOWN")
                     then Transfer(c.order, true, if arrivals == [] then [] else PayloadIn(arrivals[0]))
                     else Transfer(c.order, false, Payload.Pattern(c.seed, 0, c.size));
            DeviceMoves(env, Commanded(d, loop, c), arrivals, wanted, Onwards(Passed(d, loop, t), loop),
                        Behind(arrivals, 3))
  {
    hide DeviceOn, Ascii, IsDownload, IsConfirmation, Payload.Pattern, PayloadIn, HasMetrics;
    var next := Commanded(d, loop, c);
    var t := if c.direction == Ascii("DOWN")
             then Transfer(c.order, true, if arrivals == [] then [] else PayloadIn(arrivals[0]))
             else Transfer(c.order, false, Payload.Pattern(c.seed, 0, c.size));
    if next.point.AwaitDown? { DownMoves(env, next, arrivals); } else { UpMoves(env, next, arrivals); }
    MetricsMove(env, Passed(d, loop, t), Behind(arrivals, 2));
    if |arrivals| >= 3 { assert arrivals[2..][1..] == arrivals[3..]; }
    NextId(id);
  }

  lemma NextId(id: nat)
    ensures Device.Increment(id % TWO_TO_THE_16) == (id + 1) % TWO_TO_THE_16
  {}

  lemma OperationIsServed(env: Env, operation: nat, id: nat, arrivals: seq<Arrival>)
    requires |arrivals| >= 4
    ensures var c := CommandIn(arrivals[0]);
            IsOperation(env, operation, id, arrivals[..4]) <==>
              IsCommand(c) && IsServed(env, operation, c.value, id, arrivals[1..][..3])
  {
    hide Ascii, CommandIn, IsDownload, IsConfirmation, HasMetrics, IsPubackOnly;
  }

  /** Two identifiers are drawn for each operation; they wrap at 16 bits. */
  lemma OperationMoves(env: Env, i: nat, count: nat, id: nat, log: seq<Transfer>, arrivals: seq<Arrival>)
    requires i < count
    ensures var loop := Device.Loop(count, i);
            var d := Device.State(Device.AwaitCommand(loop), id % TWO_TO_THE_16, log);
            var wanted := |arrivals| >= 4 && IsOperation(env, i, id, arrivals[..4]);
            var moved := if |arrivals| < 4 then [] else [Moved(arrivals[..4])];
            DeviceMoves(env, d, arrivals, wanted,
                        Onwards(Device.State(d.point, (id + 1) % TWO_TO_THE_16, log + moved), loop),
                        Behind(arrivals, 4))
  {
    hide DeviceOn, Ascii, CommandIn, PayloadIn, IsOperation, IsServed, Commanded, Device.Increment;
    var loop := Device.Loop(count, i);
    var d := Device.State(Device.AwaitCommand(loop), id % TWO_TO_THE_16, log);
    NextId(id);
    CommandMoves(env, d, arrivals);
    if |arrivals| >= 4 { OperationIsServed(env, i, id, arrivals); }
    if arrivals != [] && IsCommand(CommandIn(arrivals[0])) {
      var rest := arrivals[1..];
      ServedMoves(env, d, loop, CommandIn(arrivals[0]).value, id, rest);
      if |arrivals| >= 4 { assert rest[3..] == arrivals[4..] && rest[0] == arrivals[1]; }
    }
  }

  lemma {:induction false} OperationsFrom(
    env: Env, i: nat, count: nat, id: nat, log: seq<Transfer>, arrivals: seq<Arrival>)
    requires i < count
    ensures var last := DeviceOn(env, Device.State(Device.AwaitCommand(Device.Loop(count, i)), id % TWO_TO_THE_16, log),
                                 arrivals);
            && (last.point.Done? <==> AreOperations(env, i, count, id, arrivals))
            && (last.point.Done? ==> last.log == log + AllMoved(count - i, arrivals))
    decreases count - i
  {
    hide DeviceOn, IsOperation, Moved;
    OperationMoves(env, i, count, id, log, arrivals);
    if |arrivals| >= 4 && IsOperation(env, i, id, arrivals[..4]) {
      var moved, rest := [Moved(arrivals[..4])], arrivals[4..];
      assert ((id + 1) % TWO_TO_THE_16 + 1) % TWO_TO_THE_16 == (id + 2) % TWO_TO_THE_16;
      if i + 1 < count {
        OperationsFrom(env, i + 1, count, id + 2, log + moved, rest);
        assert (log + moved) + AllMoved(count - i - 1, rest) == log + (moved + AllMoved(count - i - 1, rest));
      } else {
        var done := Device.State(Device.Done, (id + 2) % TWO_TO_THE_16, log + moved);
        DeviceEnded(env, done, rest);
        assert AllMoved(1, arrivals) == moved + AllMoved(0, rest) == moved;
      }
    }
  }

  /** Behind the announcement there are as many operations as it says. */
  predicate IsSession(env: Env, arrivals: seq<Arrival>) {
    && |arrivals| >= 3
    && arrivals[0] == Some(SubackPacket)
    && IsPubackOnly(arrivals[1], env.deviceId + 1)
    && CountIn(arrivals[2]).Some? && 1 <= CountIn(arrivals[2]).value <= 4096
    && AreOperations(env, 0, CountIn(arrivals[2]).value, env.deviceId + 2, arrivals[3..])
  }

  /** Up to the announcement. */
  lemma BeginMoves(env: Env, d: Device.State, arrivals: seq<Arrival>)
    requires d.point.AwaitBegin?
    ensures var count := if arrivals == [] then None else CountIn(arrivals[0]);
            if count.Some? && 1 <= count.value <= 4096 then
              DeviceMoves(env, d, arrivals, true, d.(point := Device.AwaitCommand(Device.Loop(count.value, 0))),
                          Behind(arrivals, 1))
            else !DeviceOn(env, d, arrivals).point.Done?
  {
    hide DeviceOn, EncodePublish, EncodePuback, Ascii, ParseBegin, CString;
    DeviceOnRead(env, d, arrivals);
    if arrivals != [] {
      var next, rest := DeviceTakes(env, d, arrivals[0]), arrivals[1..];
      if !next.point.AckBegin? {
        WrongNeverSucceeds(env, next, rest);
      } else {
        DeviceOnWrite(env, next, rest);
        if Device.Sent(env, next).point.Failed? { WrongNeverSucceeds(env, Device.Sent(env, next), rest); }
      }
    }
  }

  lemma ReadyMoves(env: Env, arrivals: seq<Arrival>)
    ensures var wanted := && |arrivals| >= 2 && arrivals[0] == Some(SubackPacket)
                          && IsPubackOnly(arrivals[1], env.deviceId + 1);
            DeviceMoves(env, Device.Init(env), arrivals, wanted,
                        Device.State(Device.AwaitBegin, (env.deviceId + 2) % TWO_TO_THE_16, []), Behind(arrivals, 2))
  {
    hide DeviceOn, EncodePublish, EncodePuback, Device.EncodeSubscribe, Ascii;
    var d := Device.Init(env);
    var waiting := Device.Sent(env, d);
    DeviceOnWrite(env, d, arrivals);
    DeviceOnRead(env, waiting, arrivals);
    if arrivals != [] {
      var next, rest := DeviceTakes(env, waiting, arrivals[0]), arrivals[1..];
      if next.point.Failed? {
        WrongNeverSucceeds(env, next, rest);
      } else {
        DeviceOnWrite(env, next, rest);
        var ready := Device.Sent(env, next);
        DeviceOnRead(env, ready, rest);
        if rest != [] {
          var begin := DeviceTakes(env, ready, rest[0]);
          assert rest[0] == arrivals[1] && rest[1..] == arrivals[2..];
          if begin.point.Failed? { WrongNeverSucceeds(env, begin, rest[1..]); }
        }
      }
    }
  }

  /**
    Whatever a peer sends, the device reports success exactly if the packets are a session: the
    announced number of commands, each served as it says; and then it has transferred what they say.
   */
  lemma DeviceDoneIff(env: Env, arrivals: seq<Arrival>)
    ensures var last := DeviceOn(env, Device.Init(env), arrivals);
            && (last.point.Done? <==> IsSession(env, arrivals))
            && (last.point.Done? ==> last.log == AllMoved(CountIn(arrivals[2]).value, arrivals[3..]))
  {
    hide DeviceOn, CountIn, AreOperations, AllMoved;
    ReadyMoves(env, arrivals);
    if |arrivals| >= 2 && arrivals[0] == Some(SubackPacket) && IsPubackOnly(arrivals[1], env.deviceId + 1) {
      var d := Device.State(Device.AwaitBegin, (env.deviceId + 2) % TWO_TO_THE_16, []);
      var rest := arrivals[2..];
      BeginMoves(env, d, rest);
      if rest != [] && CountIn(rest[0]).Some? && 1 <= CountIn(rest[0]).value <= 4096 {
        assert rest[1..] == arrivals[3..];
        OperationsFrom(env, 0, CountIn(rest[0]).value, env.deviceId + 2, [], arrivals[3..]);
      }
    }
  }

  /** Each download of at least one byte that a successful session has received is the pattern it was announced as. */
  lemma {:induction false} DownloadsArePatterns(env: Env, i: nat, count: nat, id: nat, arrivals: seq<Arrival>)
    requires i <= count && AreOperations(env, i, count, id, arrivals)
    ensures |arrivals| >= 4 * (count - i) && |AllMoved(count - i, arrivals)| == count - i
    ensures forall k :: 0 <= k < count - i ==>
              var c, t := CommandIn(arrivals[4 * k]), AllMoved(count - i, arrivals)[k];
              && c.Some? && t.order == c.value.order && (t.down <==> c.value.direction == Ascii("DOWN"))
              && (c.value.size > 0 ==> t.payload == Payload.Pattern(c.value.seed, 0, c.value.size))
              && env.digest(t.payload) == c.value.hash
    decreases count - i
  {
    hide CommandIn, Ascii, Payload.Pattern, HasMetrics;
    if i < count {
      var rest, all := arrivals[4..], AllMoved(count - i, arrivals);
      DownloadsArePatterns(env, i + 1, count, id + 2, rest);
      forall k | 0 <= k < count - i
        ensures var c, t := CommandIn(arrivals[4 * k]), all[k];
                && c.Some? && t.order == c.value.order && (t.down <==> c.value.direction == Ascii("DOWN"))
                && (c.value.size > 0 ==> t.payload == Payload.Pattern(c.value.seed, 0, c.value.size))
                && env.digest(t.payload) == c.value.hash
      {
        if k > 0 { assert arrivals[4 * k] == rest[4 * (k - 1)] && all[k] == AllMoved(count - i - 1, rest)[k - 1]; }
      }
    }
  }

  // ----- bytes and reports

  /** What is read of a short packet where an acknowledgement or a subscription is wanted. */
  lemma ShortPackets(kind: byte, body: Stream, rest: Stream)
    requires |body| < 128
    ensures var s := [kind, |body|] + body + rest;
            && ReadPuback(s) == (if kind == 64 && |body| == 2 then Got(FromBig16(body), rest) else Bad)
            && Server.ReadServerPuback(s)
               == (if kind == 64 && |body| == 2 then Got(PubackPacket(FromBig16(body)), rest) else Bad)
            && Device.ReadSuback(s) == (if kind == 144 && |body| <= 4 then Got(SubackPacket, rest) else Bad)
            && Server.ReadSubscribe(s)
               == (if kind == 130 && |body| >= 2 then Got(SubscribePacket(FromBig16(body)), rest) else Bad)
  {
    hide ReadHeader;
    ShortHeader(kind, body, rest);
    assert (body + rest)[..|body|] == body && (body + rest)[|body|..] == rest;
    if |body| >= 2 { assert FromBig16(body + rest) == FromBig16(body); }
  }

  lemma ShortHeader(kind: byte, body: Stream, rest: Stream)
    requires |body| < 128
    ensures ReadHeader([kind, |body|] + body + rest) == Got(Header(kind, |body|), body + rest)
  {
    var s := [kind, |body|] + body + rest;
    assert s[1..] == [|body|] + (body + rest) && s[1..][1..] == body + rest;
  }

  /** The buffers for topics: 31 bytes on the board and 63 on the server, and what is longer is refused. */
  lemma TopicLimits(topic: Stream, id: uint16, payload: Stream, rest: Stream)
    requires |topic| < TWO_TO_THE_16 && Fits(topic, |payload|)
    ensures var s := EncodePublish(topic, id, payload) + rest;
            && Device.Input(Device.AwaitBegin, s)
               == (if |topic| <= 31 then Got(PublishPacket(Publication(topic, id, payload)), rest) else Bad)
            && Server.Input(Server.AwaitReady, s)
               == (if |topic| <= 63 then Got(PublishPacket(Publication(topic, id, payload)), rest) else Bad)
  {
    hide EncodePublish, DeviceReadPublish, ServerReadPublish;
    if |topic| <= 31 {
      PublishRoundTrip(topic, id, payload, rest, 32);
    } else {
      LongTopic(topic, id, payload, rest, 32);
    }
    if |topic| <= 63 {
      ServerPublishRoundTrip(topic, id, payload, rest, 64);
    } else {
      LongTopic(topic, id, payload, rest, 64);
    }
  }

  lemma LongTopic(topic: Stream, id: uint16, payload: Stream, rest: Stream, capacity: nat)
    requires |topic| < TWO_TO_THE_16 && Fits(topic, |payload|) && |topic| + 1 > capacity
    ensures DeviceReadPublish(EncodePublish(topic, id, payload) + rest, capacity) == Bad
    ensures ServerReadPublish(EncodePublish(topic, id, payload) + rest, capacity) == Bad
  {
    hide EncodeRemaining, ReadHeader;
    var body := VariableHeader(topic, id) + payload;
    var s := EncodePublish(topic, id, payload) + rest;
    FixedHeader(PUBLISH_QOS1, |body|, body + rest);
    assert s == [PUBLISH_QOS1] + EncodeRemaining(|body|) + (body + rest);
    assert FromBig16(body) == FromBig16(Big16(|topic|)) && FromBig16(body + rest) == FromBig16(body);
    assert (body + rest)[..|body|] == body;
  }

  lemma {:induction false} CStringIsPrefix(s: Stream)
    ensures CString(s) <= s
  {
    if s != [] && s[0] != 0 { CStringIsPrefix(s[1..]); }
  }

  lemma ReportsDiffer(tag: Stream, order: nat, hash: Stream, other: Stream)
    ensures CString(FormatAck(tag, order, 0, hash)) != FormatAck(tag, order, 1, other)
  {
    var k := |tag| + 1 + |Decimal(order)| + 1;
    CStringIsPrefix(FormatAck(tag, order, 0, hash));
    assert FormatAck(tag, order, 0, hash)[k] == 48;
    assert FormatAck(tag, order, 1, other)[k] == 49;
  }

  /** The device's report of a download that has failed is one that no server takes for a success. */
  lemma FailureIsReported(env: Env, d: Device.State, i: nat, id: uint16)
    requires d.point.PublishDownAck? && !d.point.valid
    requires i < |env.plan| && env.plan[i].down && env.plan[i].order == d.point.c.order
    ensures exists text ::
              && Device.Output(env, d) == Some(EncodePublish(Ascii("bench/device_ack"), d.nextId, text))
              && !OperationExpects(env, i, 2,
                                   Some(PublishPacket(Publication(Ascii("bench/device_ack"), id, text))))
  {
    hide Ascii, Payload.Pattern, EncodePublish, FormatAck;
    var c, hash := d.point.c, env.digest(Payload.Pattern(env.plan[i].seed, 0, env.plan[i].size));
    ReportsDiffer(Ascii("ACK_DOWN"), c.order, d.point.actual, hash);
    var text := FormatAck(Ascii("ACK_DOWN"), c.order, 0, d.point.actual);
    assert Device.Output(env, d) == Some(EncodePublish(Ascii("bench/device_ack"), d.nextId, text));
  }
}
