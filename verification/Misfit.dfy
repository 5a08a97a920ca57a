/**
  Transfer sessions that never complete: with a payload that is too long for an MQTT packet, whose
  broken Remaining Length the reader refuses, and with more operations than the device accepts.
 */
module Misfit {
  import opened Bytes
  import opened Framing
  import opened Text
  import opened Packets
  import opened Protocol
  import opened Script
  import opened Session
  import Device
  import Server
  import Follows

  /** The largest payload each direction can carry. */
  lemma FitsBySize(op: Operation)
    ensures FitsPacket(op) <==> op.size <= if op.down then 268_435_441 else 268_435_443
  {
  }

  /** No reader gets a packet that is too long, also where its length wraps at 32 bits. */
  lemma MisfitIsRefused(topic: Stream, id: uint16, payload: Stream, rest: Stream, capacity: nat)
    requires |topic| + 1 <= capacity && |topic| < TWO_TO_THE_16 && |payload| < TWO_TO_THE_32 && !Fits(topic, |payload|)
    ensures DeviceReadPublish(EncodePublish(topic, id, payload) + rest, capacity) == Bad
    ensures !ServerReadPublish(EncodePublish(topic, id, payload) + rest, capacity).Got?
  {
    hide EncodePublish, DeviceReadPublish, ServerReadPublish;
    var s := EncodePublish(topic, id, payload) + rest;
    EmittedIsRead(topic, id, payload, rest, capacity, (2 + |topic| + 2 + |payload|) % TWO_TO_THE_32);
    if ServerReadPublish(s, capacity).Got? {
      ReadersAgree(s, capacity, ServerReadPublish(s, capacity).value, ServerReadPublish(s, capacity).rest);
    }
  }

  // ----- sessions that cannot end well

  predicate DeviceDoomed(p: Device.Point) {
    p.Failed? || (p.PublishMetrics? && !p.valid) || (p.AwaitMetricsAck? && !p.valid)
  }

  predicate Doomed(s: System) {
    s.server.point.Failed? || DeviceDoomed(s.device.point)
  }

  /** Whatever arrives, a doomed session stays doomed. */
  lemma DoomedStays(env: Env, s: System, e: Event)
    requires Doomed(s) && Enabled(env, s, e)
    ensures Doomed(Step(env, s, e))
  {
    hide Device.Input, Server.Input;
  }

  ghost predicate FirstMisfit(env: Env, f: nat) {
    && f < |env.plan| && !FitsPacket(env.plan[f])
    && forall i :: 0 <= i < f ==> FitsPacket(env.plan[i])
  }

  lemma {:induction false} SomeFirst(env: Env, n: nat) returns (f: nat)
    requires n <= |env.plan| && exists i :: 0 <= i < n && !FitsPacket(env.plan[i])
    ensures FirstMisfit(env, f)
  {
    if i: nat :| i < n - 1 && !FitsPacket(env.plan[i]) {
      f := SomeFirst(env, n - 1);
    } else {
      f := n - 1;
    }
  }

  /** The position of the packet that is too long. */
  function MisfitAt(f: nat): nat {
    PREFIX + PER_OPERATION * f + 2
  }

  lemma AroundMisfit(env: Env, f: nat)
    requires FirstMisfit(env, f)
    ensures MisfitAt(f) + 1 < Length(env)
    ensures forall k :: 0 <= k <= MisfitAt(f) + 1 && k != MisfitAt(f) ==> Readable(env, k)
    ensures FromDevice(env, MisfitAt(f)) <==> !FromDevice(env, MisfitAt(f) + 1)
    ensures FromDevice(env, MisfitAt(f)) <==> !env.plan[f].down
    ensures Message(env, MisfitAt(f)) == OperationMessage(env, f, 2)
    ensures DeviceAt(env, MisfitAt(f)) == DeviceIn(env, f, 2)
    ensures ServerAt(env, MisfitAt(f)) == ServerIn(env, f, 2)
  {
    hide OperationMessage, DeviceIn, ServerIn;
    var m := MisfitAt(f);
    assert OpAt(m) == f && PhaseAt(m) == 2 && OpAt(m + 1) == f && PhaseAt(m + 1) == 3;
  }

  /** Both sides are on the script, and at most the writer is past the packet that is too long. */
  ghost predicate OnTrack(env: Env, s: System, f: nat, i: nat, j: nat)
    requires Proper(env)
  {
    var m := MisfitAt(f);
    Inv(env, s, i, j) && i <= m + 1 && j <= m + 1 && (i <= m || j <= m)
  }

  lemma NothingToRead(env: Env, s: System, i: nat, j: nat)
    requires WellFormed(env) && Inv(env, s, i, j)
    ensures i >= j ==> Device.Input(s.device.point, s.down.ready).Short?
    ensures j >= i ==> Server.Input(s.server.point, s.up.ready).Short?
  {
    hide Message, DeviceAt, ServerAt, FromDevice;
    if i >= j { assert s.down.ready == []; }
    if j >= i { assert s.up.ready == []; }
  }

  lemma DeviceRefuses(env: Env, s: System, f: nat, i: nat, j: nat)
    requires Proper(env) && FirstMisfit(env, f) && i == MisfitAt(f) < j
    ensures OnTrack(env, s, f, i, j) && Enabled(env, s, DeviceReads) ==> Doomed(Step(env, s, DeviceReads))
  {
    hide Device.Input, EncodePublish, Inv, Pending, FromDevice;
    if OnTrack(env, s, f, i, j) && Enabled(env, s, DeviceReads) {
      AroundMisfit(env, f);
      DownQueue(env, s, i, j);
      Device.InputStable(s.device.point, s.down.ready, s.down.wire);
      DownMisfit(env, f);
    }
  }

  lemma DownQueue(env: Env, s: System, i: nat, j: nat)
    requires Proper(env) && j == i + 1 <= Length(env)
    ensures Inv(env, s, i, j) ==>
      !FromDevice(env, i) && s.device == DeviceAt(env, i) && s.down.ready + s.down.wire == Message(env, i)
  {
    hide Message, DeviceAt, ServerAt, FromDevice;
    assert Pending(env, j, j) == [];
  }

  lemma UpQueue(env: Env, s: System, i: nat, j: nat)
    requires Proper(env) && i == j + 1 <= Length(env)
    ensures Inv(env, s, i, j) ==>
      FromDevice(env, j) && s.server == ServerAt(env, j) && s.up.ready + s.up.wire == Message(env, j)
  {
    hide Message, DeviceAt, ServerAt, FromDevice;
    assert Pending(env, i, i) == [];
  }

  lemma DownMisfit(env: Env, f: nat)
    requires FirstMisfit(env, f) && env.plan[f].down
    ensures DeviceIn(env, f, 2).point.AwaitDown?
    ensures Device.Input(DeviceIn(env, f, 2).point, OperationMessage(env, f, 2)) == Bad
  {
    hide EncodePublish, DeviceReadPublish;
    var m := OperationMessage(env, f, 2);
    MisfitIsRefused(TOPIC_DOWN, Server.WireId(ServerIdIn(f, 1)), PayloadOf(env.plan[f]), [], Device.TOPIC_CAPACITY);
    assert m + [] == m;
  }

  lemma UpMisfit(env: Env, f: nat)
    requires FirstMisfit(env, f) && !env.plan[f].down
    ensures !Server.Input(ServerIn(env, f, 2).point, OperationMessage(env, f, 2)).Got?
  {
    hide EncodePublish, ServerReadPublish;
    var m := OperationMessage(env, f, 2);
    MisfitIsRefused(TOPIC_UP, DeviceIdIn(env, f, 0), PayloadOf(env.plan[f]), [], Server.TOPIC_CAPACITY);
    assert m + [] == m;
  }

  lemma ServerRefuses(env: Env, s: System, f: nat, i: nat, j: nat)
    requires Proper(env) && FirstMisfit(env, f) && j == MisfitAt(f) < i
    ensures OnTrack(env, s, f, i, j) && Enabled(env, s, ServerReads) ==> Doomed(Step(env, s, ServerReads))
  {
    hide Server.Input, EncodePublish, Inv, Pending, FromDevice;
    if OnTrack(env, s, f, i, j) && Enabled(env, s, ServerReads) {
      AroundMisfit(env, f);
      UpQueue(env, s, i, j);
      Server.InputStable(s.server.point, s.up.ready, s.up.wire);
      UpMisfit(env, f);
    }
  }

  /** A session on the script stays on it up to the packet that is too long, and there it is doomed. */
  lemma TrackStep(env: Env, s: System, f: nat, e: Event, i: nat, j: nat) returns (i': nat, j': nat)
    requires Proper(env) && FirstMisfit(env, f) && OnTrack(env, s, f, i, j) && Enabled(env, s, e)
    ensures Doomed(Step(env, s, e)) || OnTrack(env, Step(env, s, e), f, i', j')
  {
    hide *;
    i', j' := i, j;
    match e {
      case DeviceWrites =>
        DeviceWrote(env, s, f, i, j);
        i' := i + 1;
      case ServerWrites =>
        ServerWrote(env, s, f, i, j);
        j' := j + 1;
      case DeviceReads =>
        DeviceRead(env, s, f, i, j);
        i' := i + 1;
      case ServerReads =>
        ServerRead(env, s, f, i, j);
        j' := j + 1;
      case UpDelivers(_) =>
        Delivered(env, s, f, e, i, j);
      case DownDelivers(_) =>
        Delivered(env, s, f, e, i, j);
    }
  }

  lemma Delivered(env: Env, s: System, f: nat, e: Event, i: nat, j: nat)
    requires Proper(env) && OnTrack(env, s, f, i, j) && Enabled(env, s, e) && (e.UpDelivers? || e.DownDelivers?)
    ensures OnTrack(env, Step(env, s, e), f, i, j)
  {
    hide Inv, Step, Enabled;
    DeliveryKeeps(env, s, e, i, j);
  }

  lemma DeviceWrote(env: Env, s: System, f: nat, i: nat, j: nat)
    requires Proper(env) && FirstMisfit(env, f) && OnTrack(env, s, f, i, j) && Enabled(env, s, DeviceWrites)
    ensures OnTrack(env, Step(env, s, DeviceWrites), f, i + 1, j)
  {
    hide Message, DeviceAt, ServerAt, Device.Output, Server.Output, Device.Sent, FromDevice,
      Pending, Step, FirstMisfit, Readable;
    AroundMisfit(env, f);
    DeviceTurn(env, i, j);
    DeviceWriteKeeps(env, s, i, j);
  }

  lemma ServerWrote(env: Env, s: System, f: nat, i: nat, j: nat)
    requires Proper(env) && FirstMisfit(env, f) && OnTrack(env, s, f, i, j) && Enabled(env, s, ServerWrites)
    ensures OnTrack(env, Step(env, s, ServerWrites), f, i, j + 1)
  {
    hide Message, DeviceAt, ServerAt, Device.Output, Server.Output, Server.Sent, FromDevice,
      Pending, Step, FirstMisfit, Readable;
    AroundMisfit(env, f);
    ServerTurn(env, i, j);
    ServerWriteKeeps(env, s, i, j);
  }

  lemma DeviceRead(env: Env, s: System, f: nat, i: nat, j: nat)
    requires Proper(env) && FirstMisfit(env, f) && OnTrack(env, s, f, i, j) && Enabled(env, s, DeviceReads)
    ensures Doomed(Step(env, s, DeviceReads)) || OnTrack(env, Step(env, s, DeviceReads), f, i + 1, j)
  {
    hide Message, DeviceAt, ServerAt, Device.Input, FromDevice, Pending, Step, FirstMisfit, Readable, Doomed, Inv;
    AroundMisfit(env, f);
    NothingToRead(env, s, i, j);
    if i == MisfitAt(f) {
      DeviceRefuses(env, s, f, i, j);
    } else {
      DeviceReadKeeps(env, s, i, j);
    }
  }

  lemma ServerRead(env: Env, s: System, f: nat, i: nat, j: nat)
    requires Proper(env) && FirstMisfit(env, f) && OnTrack(env, s, f, i, j) && Enabled(env, s, ServerReads)
    ensures Doomed(Step(env, s, ServerReads)) || OnTrack(env, Step(env, s, ServerReads), f, i, j + 1)
  {
    hide Message, DeviceAt, ServerAt, Server.Input, FromDevice, Pending, Step, FirstMisfit, Readable, Doomed, Inv;
    AroundMisfit(env, f);
    NothingToRead(env, s, i, j);
    if j == MisfitAt(f) {
      ServerRefuses(env, s, f, i, j);
    } else {
      ServerReadKeeps(env, s, i, j);
    }
  }

  lemma {:induction false} MisfitRun(env: Env, s: System, events: seq<Event>, f: nat, i: nat, j: nat)
    requires Proper(env) && FirstMisfit(env, f) && IsRun(env, s, events)
    requires Doomed(s) || OnTrack(env, s, f, i, j)
    ensures !Completed(env, After(env, s, events))
    decreases |events|
  {
    if events == [] {
      if !Doomed(s) { NotDone(env, f, i, j); }
    } else {
      hide Step, Enabled, Doomed, OnTrack, FirstMisfit, Completed;
      if Doomed(s) {
        DoomedStays(env, s, events[0]);
        MisfitRun(env, Step(env, s, events[0]), events[1..], f, i, j);
      } else {
        var i', j' := TrackStep(env, s, f, events[0], i, j);
        MisfitRun(env, Step(env, s, events[0]), events[1..], f, i', j');
      }
    }
  }

  lemma NotDone(env: Env, f: nat, i: nat, j: nat)
    requires Proper(env) && FirstMisfit(env, f) && i <= MisfitAt(f) + 1 && j <= MisfitAt(f) + 1
    ensures i < Length(env) && j < Length(env)
    ensures !DeviceAt(env, i).point.Done? && !ServerAt(env, j).point.Done?
  {
    AroundMisfit(env, f);
    if i >= PREFIX { Follows.NextPosition(env, i); }
    if j >= PREFIX { Follows.NextPosition(env, j); }
  }

  // ----- sessions with too many operations

  /** Both sides are on the script, and the device has at most read how many operations there are. */
  ghost predicate BeforePlan(env: Env, s: System, i: nat, j: nat)
    requires WellFormed(env)
  {
    Inv(env, s, i, j) && i < PREFIX && j < PREFIX
  }

  /** The device that has read of too many operations acknowledges it and gives up. */
  lemma DeviceGivesUp(env: Env, s: System)
    requires WellFormed(env) && |env.plan| > MAX_OPERATIONS && s.device == DeviceAt(env, PREFIX - 1)
    ensures Enabled(env, s, DeviceWrites) && Doomed(Step(env, s, DeviceWrites))
  {
    hide FormatBegin, ParseBegin, EncodePuback;
    Follows.BeginFacts(env);
  }

  /** Behind the announcement of the plan the server only waits. */
  lemma ServerWaits(env: Env, s: System, i: nat)
    requires WellFormed(env) && i < PREFIX
    ensures Inv(env, s, i, PREFIX - 1) ==> !Enabled(env, s, ServerWrites) && !Enabled(env, s, ServerReads)
  {
    hide Message, DeviceAt, FromDevice, Pending, Server.Input;
    if Inv(env, s, i, PREFIX - 1) { NothingToRead(env, s, i, PREFIX - 1); }
  }

  lemma TooManyStep(env: Env, s: System, e: Event, i: nat, j: nat) returns (i': nat, j': nat)
    requires WellFormed(env) && |env.plan| > MAX_OPERATIONS && BeforePlan(env, s, i, j) && Enabled(env, s, e)
    ensures Doomed(Step(env, s, e)) || BeforePlan(env, Step(env, s, e), i', j')
  {
    hide Step, Enabled, Inv, DeviceAt, ServerAt, Doomed, Readable;
    i', j' := i, j;
    NothingToRead(env, s, i, j);
    InvStates(env, s, i, j);
    if e.UpDelivers? || e.DownDelivers? {
      DeliveryKeeps(env, s, e, i, j);
    } else if e.DeviceWrites? {
      if i == PREFIX - 1 {
        DeviceGivesUp(env, s);
      } else {
        DeviceWriteKeeps(env, s, i, j);
        i' := i + 1;
      }
    } else if e.DeviceReads? {
      DeviceReadsBefore(env, s, i, j);
      i' := i + 1;
    } else if j == PREFIX - 1 {
      ServerWaits(env, s, i);
    } else if e.ServerWrites? {
      ServerWriteKeeps(env, s, i, j);
      j' := j + 1;
    } else {
      PrefixReadable(env, j);
      ServerReadKeeps(env, s, i, j);
      j' := j + 1;
    }
  }

  lemma DeviceReadsBefore(env: Env, s: System, i: nat, j: nat)
    requires WellFormed(env) && i < PREFIX && j < PREFIX
    ensures Inv(env, s, i, j) && Enabled(env, s, DeviceReads) ==>
      i + 1 < PREFIX && Inv(env, Step(env, s, DeviceReads), i + 1, j)
  {
    hide Message, DeviceAt, ServerAt, FromDevice, Pending, Step, Inv, Device.Input, Readable;
    if Inv(env, s, i, j) && Enabled(env, s, DeviceReads) {
      NothingToRead(env, s, i, j);
      PrefixReadable(env, i);
      DeviceReadKeeps(env, s, i, j);
    }
  }

  lemma PrefixReadable(env: Env, k: nat)
    requires WellFormed(env) && k < PREFIX
    ensures k < Length(env) && Readable(env, k)
  {}

  lemma InvStates(env: Env, s: System, i: nat, j: nat)
    requires WellFormed(env) && i < PREFIX && j < PREFIX
    ensures Inv(env, s, i, j) ==> s.device == DeviceAt(env, i) && s.server == ServerAt(env, j)
  {}

  lemma {:induction false} TooManyRun(env: Env, s: System, events: seq<Event>, i: nat, j: nat)
    requires WellFormed(env) && |env.plan| > MAX_OPERATIONS && IsRun(env, s, events)
    requires Doomed(s) || BeforePlan(env, s, i, j)
    ensures !Completed(env, After(env, s, events))
    decreases |events|
  {
    if events != [] {
      hide Step, Enabled, Doomed, BeforePlan, Completed;
      if Doomed(s) {
        DoomedStays(env, s, events[0]);
        TooManyRun(env, Step(env, s, events[0]), events[1..], i, j);
      } else {
        var i', j' := TooManyStep(env, s, events[0], i, j);
        TooManyRun(env, Step(env, s, events[0]), events[1..], i', j');
      }
    }
  }

  // ----- which sessions complete

  lemma {:induction false} RunToEnd(env: Env, events: seq<Event>, i: nat, j: nat) returns (all: seq<Event>)
    requires Runnable(env) && IsRun(env, Init(env), events) && Inv(env, After(env, Init(env), events), i, j)
    ensures IsRun(env, Init(env), all) && Completed(env, After(env, Init(env), all))
    decreases Cost(env, After(env, Init(env), events), i, j)
  {
    hide Inv, Completed, Enabled, Step, After, IsRun, Cost, Readable;
    var s := After(env, Init(env), events);
    if Completed(env, s) {
      all := events;
    } else {
      assert Reachable(env, s);
      NoDeadlock(env, s);
      var e :| Enabled(env, s, e);
      AllReadable(env);
      InvBounds(env, s, i, j);
      var i', j' := StepKeeps(env, s, e, i, j);
      RunsExtend(env, Init(env), events, e);
      all := RunToEnd(env, events + [e], i', j');
    }
  }

  /**
    A session can complete exactly for the plans of at most 4096 operations whose packets all fit;
    and for those every run does.
   */
  lemma CompletesIffFits(env: Env)
    requires WellFormed(env)
    ensures (exists s :: Reachable(env, s) && Completed(env, s))
       <==> |env.plan| <= MAX_OPERATIONS && forall i :: 0 <= i < |env.plan| ==> FitsPacket(env.plan[i])
  {
    hide Completed, Inv, After, IsRun;
    InitInv(env);
    if Runnable(env) {
      NothingRun(env);
      var events := RunToEnd(env, [], 0, 0);
      assert Reachable(env, After(env, Init(env), events));
    } else if s :| Reachable(env, s) && Completed(env, s) {
      var events :| IsRun(env, Init(env), events) && After(env, Init(env), events) == s;
      if |env.plan| > MAX_OPERATIONS {
        TooManyRun(env, Init(env), events, 0, 0);
      } else {
        var f := SomeFirst(env, |env.plan|);
        MisfitRun(env, Init(env), events, f, 0, 0);
      }
    }
  }

  /** One byte too many in a single down-link operation. */
  function TooLong(): Env {
    Env([Operation(1, true, 268_435_442, 0)], _ => seq(64, _ => 48), _ => [48], 10)
  }

  lemma TooLongNeverCompletes()
    ensures Proper(TooLong()) && !exists s :: Reachable(TooLong(), s) && Completed(TooLong(), s)
  {
    hide Reachable, Completed;
    var env := TooLong();
    assert env.plan == [Operation(1, true, 268_435_442, 0)];
    FitsBySize(env.plan[0]);
    CompletesIffFits(env);
  }
}
