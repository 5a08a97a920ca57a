/** The packet identifiers of a transfer session, and when one of them is the forbidden zero. */
module Identifiers {
  import opened Bytes
  import opened Protocol
  import opened Script
  import opened Session
  import Device
  import Server
  import Follows

  /** The device is about to write a packet it draws an identifier for. */
  predicate DrawsId(p: Device.Point) {
    p.Subscribe? || p.PublishReady? || p.PublishDownAck? || p.PublishUp? || p.PublishMetrics?
  }

  /** How many packets with an identifier of its own the device has written in a run. */
  function Published(env: Env, s: System, events: seq<Event>): nat
    requires IsRun(env, s, events)
    decreases |events|
  {
    if events == [] then 0
    else (if events[0].DeviceWrites? && DrawsId(s.device.point) then 1 else 0)
         + Published(env, Step(env, s, events[0]), events[1..])
  }

  /** How many of them the conversation has before a position. */
  function DrawnBy(env: Env, k: nat): nat
    requires k <= Length(env)
  {
    if k < PREFIX then if k == 0 then 0 else if k <= 2 then 1 else 2
    else if k == Length(env) then 2 + 2 * |env.plan|
    else
      var data := if env.plan[OpAt(k)].down then 4 else 2;
      2 + 2 * OpAt(k) + (if PhaseAt(k) > data then 1 else 0) + (if PhaseAt(k) > 6 then 1 else 0)
  }

  lemma DrawnStep(env: Env, k: nat)
    requires k < Length(env) && |env.plan| >= 1
    ensures DrawnBy(env, k + 1) == DrawnBy(env, k) + if DrawsId(DeviceAt(env, k).point) then 1 else 0
  {
    if k >= PREFIX { Follows.NextPosition(env, k); }
  }

  lemma DrawnIds(env: Env, k: nat)
    requires k <= Length(env)
    ensures DeviceAt(env, k).nextId == DeviceId(env, DrawnBy(env, k))
    ensures DrawnBy(env, k) <= 2 + 2 * |env.plan|
    ensures DrawsId(DeviceAt(env, k).point) ==> DrawnBy(env, k) < 2 + 2 * |env.plan|
  {
    if PREFIX <= k < Length(env) { Follows.NextPosition(env, k); }
  }

  lemma WriteDraws(env: Env, s: System, e: Event, i: nat, j: nat, i': nat)
    requires Runnable(env) && Inv(env, s, i, j) && Enabled(env, s, e)
    requires i' == i + (if e.DeviceWrites? || e.DeviceReads? then 1 else 0) <= Length(env)
    ensures DrawnBy(env, i') == DrawnBy(env, i) + if e.DeviceWrites? && DrawsId(s.device.point) then 1 else 0
  {
    hide DeviceAt, ServerAt, Message, FromDevice, DrawsId, DrawnBy, Pending;
    if i' > i { DrawnStep(env, i); }
    if e.DeviceReads? { ReadersDrawNothing(s.device.point, s.down.ready); }
  }

  lemma ReadersDrawNothing(p: Device.Point, s: Stream)
    ensures !Device.Input(p, s).Short? ==> !DrawsId(p)
  {}

  lemma {:induction false} RunDraws(env: Env, s: System, events: seq<Event>, i: nat, j: nat) returns (i': nat, j': nat)
    requires Runnable(env) && Inv(env, s, i, j) && IsRun(env, s, events)
    ensures Inv(env, After(env, s, events), i', j') && i' <= Length(env)
    ensures DrawnBy(env, i') == DrawnBy(env, i) + Published(env, s, events)
    decreases |events|
  {
    hide Inv, Step, Enabled, DrawnBy, DrawsId, Readable;
    InvBounds(env, s, i, j);
    if events == [] {
      i', j' := i, j;
    } else {
      AllReadable(env);
      var a, b := StepKeeps(env, s, events[0], i, j);
      InvBounds(env, Step(env, s, events[0]), a, b);
      WriteDraws(env, s, events[0], i, j, a);
      i', j' := RunDraws(env, Step(env, s, events[0]), events[1..], a, b);
    }
  }

  /**
    The device's counter is its start value and one more for each packet published in the run: at
    most two before the operations and two in each.
   */
  lemma DrawnId(env: Env, events: seq<Event>)
    requires Runnable(env) && IsRun(env, Init(env), events)
    ensures var s, drawn := After(env, Init(env), events), Published(env, Init(env), events);
            && s.device.nextId == DeviceId(env, drawn)
            && drawn <= 2 + 2 * |env.plan|
            && (DrawsId(s.device.point) ==> drawn < 2 + 2 * |env.plan|)
  {
    hide IsRun, After, Published, DrawsId, DeviceAt, ServerAt, FromDevice, Message;
    InitInv(env);
    var i, j := RunDraws(env, Init(env), events, 0, 0);
    DrawnIds(env, i);
  }

  lemma ServerIdAt(env: Env, j: nat)
    requires |env.plan| <= MAX_OPERATIONS && j <= Length(env)
    ensures Server.FIRST_ID <= ServerAt(env, j).nextId <= Server.FIRST_ID + 1 + 2 * |env.plan|
  {
    hide ServerIn, ServerPrefix;
    if j < PREFIX {
      ServerIdBefore(env, j);
    } else if j < Length(env) {
      Follows.NextPosition(env, j);
      ServerIdDuring(env, OpAt(j), PhaseAt(j));
    }
  }

  lemma ServerIdBefore(env: Env, j: nat)
    requires j < PREFIX
    ensures Server.FIRST_ID <= ServerPrefix(env, j).nextId <= Server.FIRST_ID + 1
  {}

  lemma ServerIdDuring(env: Env, i: nat, phase: nat)
    requires |env.plan| <= MAX_OPERATIONS && i < |env.plan|
    ensures Server.FIRST_ID <= ServerIn(env, i, phase).nextId <= Server.FIRST_ID + 1 + 2 * |env.plan|
  {
    hide Transfers, CommandOf, DownAck, DeviceIdIn;
    assert forall n: nat :: n <= 2 ==> Counter(ServerIdIn(i, n)) == Server.FIRST_ID + 1 + 2 * i + n;
  }

  /** The server's untruncated counter stays far below 65536, so its comparison with 16 bits from the wire is sound. */
  lemma ServerIdInRange(env: Env, s: System)
    requires Runnable(env) && Reachable(env, s)
    ensures Server.FIRST_ID <= s.server.nextId <= Server.FIRST_ID + 1 + 2 * |env.plan| < TWO_TO_THE_16
  {
    var i, j := ReachableInv(env, s);
    hide Reachable, DeviceAt, ServerAt;
    ServerIdAt(env, j);
  }

  // ----- every position is reached

  lemma ReachableStep(env: Env, s: System, e: Event)
    requires Reachable(env, s) && Enabled(env, s, e)
    ensures Reachable(env, Step(env, s, e))
  {
    hide IsRun, After, Step, Enabled;
    var events :| IsRun(env, Init(env), events) && After(env, Init(env), events) == s;
    RunsExtend(env, Init(env), events, e);
  }

  /** A message goes all the way: written, delivered and read. */
  lemma Exchange(env: Env, s: System, k: nat) returns (after: System)
    requires Runnable(env) && Reachable(env, s) && Inv(env, s, k, k) && k < Length(env)
    ensures Reachable(env, after) && Inv(env, after, k + 1, k + 1)
  {
    hide Reachable, Inv, Step, Enabled, Readable, FromDevice;
    AllReadable(env);
    SomeoneCanWrite(env, s, k);
    if Enabled(env, s, DeviceWrites) {
      ReachableStep(env, s, DeviceWrites);
      DeviceWriteKeeps(env, s, k, k);
      var sent := DeliverAll(env, Step(env, s, DeviceWrites), k + 1, k);
      ServerCanRead(env, sent, k + 1, k);
      ReachableStep(env, sent, ServerReads);
      ServerReadKeeps(env, sent, k + 1, k);
      after := Step(env, sent, ServerReads);
    } else {
      ReachableStep(env, s, ServerWrites);
      ServerWriteKeeps(env, s, k, k);
      var sent := DeliverAll(env, Step(env, s, ServerWrites), k, k + 1);
      DeviceCanRead(env, sent, k, k + 1);
      ReachableStep(env, sent, DeviceReads);
      DeviceReadKeeps(env, sent, k, k + 1);
      after := Step(env, sent, DeviceReads);
    }
  }

  lemma DeliverAll(env: Env, s: System, i: nat, j: nat) returns (after: System)
    requires Runnable(env) && Reachable(env, s) && Inv(env, s, i, j)
    ensures Reachable(env, after) && Inv(env, after, i, j) && after.up.wire == after.down.wire == []
  {
    hide Reachable, Inv;
    after := s;
    if after.up.wire != [] {
      ReachableStep(env, after, UpDelivers(|after.up.wire|));
      DeliveryKeeps(env, after, UpDelivers(|after.up.wire|), i, j);
      after := Step(env, after, UpDelivers(|after.up.wire|));
    }
    if after.down.wire != [] {
      ReachableStep(env, after, DownDelivers(|after.down.wire|));
      DeliveryKeeps(env, after, DownDelivers(|after.down.wire|), i, j);
      after := Step(env, after, DownDelivers(|after.down.wire|));
    }
  }

  lemma {:induction false} PositionReached(env: Env, k: nat) returns (s: System)
    requires Runnable(env) && k <= Length(env)
    ensures Reachable(env, s) && Inv(env, s, k, k)
  {
    hide Inv;
    if k == 0 {
      InitInv(env);
      NothingRun(env);
      s := Init(env);
    } else {
      var before := PositionReached(env, k - 1);
      s := Exchange(env, before, k - 1);
    }
  }

  /** Where the device draws its identifiers. */
  function DrawingAt(env: Env, drawn: nat): (k: nat)
    requires drawn < 2 + 2 * |env.plan|
    ensures k < Length(env)
  {
    if drawn < 2 then 2 * drawn
    else
      var op, second := (drawn - 2) / 2, drawn % 2 == 1;
      PREFIX + PER_OPERATION * op + if second then 6 else if env.plan[op].down then 4 else 2
  }

  lemma DrawsThere(env: Env, drawn: nat)
    requires drawn < 2 + 2 * |env.plan|
    ensures DrawsId(DeviceAt(env, DrawingAt(env, drawn)).point)
    ensures DrawnBy(env, DrawingAt(env, drawn)) == drawn
  {
    if drawn >= 2 {
      var k, op := DrawingAt(env, drawn), (drawn - 2) / 2;
      assert OpAt(k) == op;
      assert PhaseAt(k) == if drawn % 2 == 1 then 6 else if env.plan[op].down then 4 else 2;
    }
  }

  /** Each of the identifiers is drawn. */
  lemma EveryIdIsDrawn(env: Env, drawn: nat) returns (s: System)
    requires Runnable(env) && drawn < 2 + 2 * |env.plan|
    ensures Reachable(env, s) && DrawsId(s.device.point) && s.device.nextId == DeviceId(env, drawn)
  {
    var k := DrawingAt(env, drawn);
    hide Reachable, DeviceAt, ServerAt, FromDevice, Message, DrawsId, DrawnBy, DrawingAt;
    s := PositionReached(env, k);
    DrawsThere(env, drawn);
    DrawnIds(env, k);
  }

  lemma ZeroAmongIds(env: Env)
    ensures (exists drawn: nat :: drawn < 2 + 2 * |env.plan| && DeviceId(env, drawn) == 0)
       <==> env.deviceId == 0 || env.deviceId + 1 + 2 * |env.plan| >= TWO_TO_THE_16
  {
    if env.deviceId == 0 {
      assert DeviceId(env, 0) == 0;
    } else if env.deviceId + 1 + 2 * |env.plan| >= TWO_TO_THE_16 {
      assert DeviceId(env, TWO_TO_THE_16 - env.deviceId) == 0;
    }
  }

  /**
    A session draws the identifier zero, which MQTT forbids (section 2.3.1), exactly if the static
    counter starts at zero or passes 65535; after a boot it starts at 10.
   */
  lemma ZeroIdentifierIffWrap(env: Env)
    requires Runnable(env)
    ensures (exists s :: Reachable(env, s) && DrawsId(s.device.point) && s.device.nextId == 0)
       <==> env.deviceId == 0 || env.deviceId + 1 + 2 * |env.plan| >= TWO_TO_THE_16
  {
    hide IsRun, After, Published, DrawsId, DeviceId;
    ZeroAmongIds(env);
    if drawn: nat :| drawn < 2 + 2 * |env.plan| && DeviceId(env, drawn) == 0 {
      var s := EveryIdIsDrawn(env, drawn);
    } else if s :| Reachable(env, s) && DrawsId(s.device.point) && s.device.nextId == 0 {
      var events :| IsRun(env, Init(env), events) && After(env, Init(env), events) == s;
      DrawnId(env, events);
    }
  }

  /** Every identifier either side is about to write is in 1..65535, when the device's counter starts low enough. */
  lemma IdentifiersInRange(env: Env, s: System)
    requires Runnable(env) && Reachable(env, s)
    ensures Server.FIRST_ID <= s.server.nextId <= Server.FIRST_ID + 1 + 2 * |env.plan| < TWO_TO_THE_16
    ensures env.deviceId >= 1 && env.deviceId + 1 + 2 * |env.plan| < TWO_TO_THE_16 && DrawsId(s.device.point)
        ==> 1 <= s.device.nextId < TWO_TO_THE_16
  {
    hide Reachable, DrawsId;
    ServerIdInRange(env, s);
    ZeroIdentifierIffWrap(env);
  }
}
