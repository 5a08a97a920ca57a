/**
  A transfer session as a whole: the two machines, and between them two lossless byte streams that
  hand over any number of bytes at a time. Every interleaving of writes, reads and deliveries is a
  run.
 */
module Session {
  import opened Bytes
  import opened Framing
  import opened Text
  import opened Protocol
  import opened Script
  import Device
  import Server
  import Follows

  /** Bytes still on their way, and bytes the reader can already see. */
  datatype Channel = Channel(wire: Stream, ready: Stream)

  datatype System = System(device: Device.State, server: Server.State, up: Channel, down: Channel)

  datatype Event =
    | DeviceWrites
    | DeviceReads
    | ServerWrites
    | ServerReads
    | UpDelivers(count: nat)
    | DownDelivers(count: nat)

  const EMPTY: Channel := Channel([], [])

  function Init(env: Env): System {
    System(Device.Init(env), Server.INIT, EMPTY, EMPTY)
  }

  predicate Enabled(env: Env, s: System, e: Event) {
    match e
    case DeviceWrites => Device.Output(env, s.device).Some?
    case DeviceReads => !Device.Input(s.device.point, s.down.ready).Short?
    case ServerWrites => Server.Output(env, s.server).Some?
    case ServerReads => !Server.Input(s.server.point, s.up.ready).Short?
    case UpDelivers(count) => 1 <= count <= |s.up.wire|
    case DownDelivers(count) => 1 <= count <= |s.down.wire|
  }

  function Push(c: Channel, bytes: Stream): Channel {
    c.(wire := c.wire + bytes)
  }

  function Deliver(c: Channel, count: nat): Channel
    requires count <= |c.wire|
  {
    Channel(c.wire[count..], c.ready + c.wire[..count])
  }

  function Step(env: Env, s: System, e: Event): System
    requires Enabled(env, s, e)
  {
    match e
    case DeviceWrites =>
      s.(device := Device.Sent(env, s.device), up := Push(s.up, Device.Output(env, s.device).value))
    case ServerWrites =>
      s.(server := Server.Sent(env, s.server), down := Push(s.down, Server.Output(env, s.server).value))
    case DeviceReads =>
      var r := Device.Input(s.device.point, s.down.ready);
      if r.Bad? then s.(device := Device.Refused(s.device))
      else s.(device := Device.Received(env, s.device, r.value), down := s.down.(ready := r.rest))
    case ServerReads =>
      var r := Server.Input(s.server.point, s.up.ready);
      if r.Bad? then s.(server := Server.Refused(s.server))
      else s.(server := Server.Received(env, s.server, r.value), up := s.up.(ready := r.rest))
    case UpDelivers(count) => s.(up := Deliver(s.up, count))
    case DownDelivers(count) => s.(down := Deliver(s.down, count))
  }

  predicate IsRun(env: Env, s: System, events: seq<Event>)
    decreases |events|
  {
    events == [] || (Enabled(env, s, events[0]) && IsRun(env, Step(env, s, events[0]), events[1..]))
  }

  function After(env: Env, s: System, events: seq<Event>): System
    requires IsRun(env, s, events)
    decreases |events|
  {
    if events == [] then s else After(env, Step(env, s, events[0]), events[1..])
  }

  // ----- the invariant: both sides are on the script, and what lies between them is in the channel

  /** The messages from one position up to another. */
  function Pending(env: Env, from: nat, to: nat): Stream
    requires from <= Length(env) && to <= Length(env)
    decreases Length(env) - from
  {
    if from >= to then [] else Message(env, from) + Pending(env, from + 1, to)
  }

  function Queue(c: Channel): Stream {
    c.ready + c.wire
  }

  /** The device is at position `i`, the server at position `j`. */
  ghost predicate Inv(env: Env, s: System, i: nat, j: nat)
    requires WellFormed(env)
  {
    && i <= Length(env) && j <= Length(env)
    && s.device == DeviceAt(env, i)
    && s.server == ServerAt(env, j)
    && Queue(s.up) == Pending(env, j, i)
    && Queue(s.down) == Pending(env, i, j)
    && (forall k :: j <= k < i ==> FromDevice(env, k))
    && (forall k :: i <= k < j ==> !FromDevice(env, k))
  }

  /** What a run still has to do: positions to pass and bytes to write and deliver. */
  function Cost(env: Env, s: System, i: nat, j: nat): nat
    requires i <= Length(env) && j <= Length(env)
  {
    (Length(env) - i) + (Length(env) - j) + |s.up.wire| + |s.down.wire|
    + |Pending(env, if i < j then j else i, Length(env))|
  }

  lemma {:induction false} PendingGrows(env: Env, from: nat, to: nat)
    requires from <= to < Length(env)
    ensures Pending(env, from, to + 1) == Pending(env, from, to) + Message(env, to)
    decreases Length(env) - from
  {
    hide Message;
    if from == to {
      assert Pending(env, to + 1, to + 1) == [];
    } else {
      PendingGrows(env, from + 1, to);
    }
  }

  lemma InitInv(env: Env)
    requires WellFormed(env)
    ensures Inv(env, Init(env), 0, 0)
  {
  }

  /** A side writes only where the script has it write. */
  lemma DeviceTurn(env: Env, i: nat, j: nat)
    requires WellFormed(env) && i <= Length(env) && Accepted(env, i)
    requires forall k :: i <= k < j ==> k < Length(env) && !FromDevice(env, k)
    requires Device.Output(env, DeviceAt(env, i)).Some?
    ensures j <= i < Length(env) && FromDevice(env, i)
    ensures Device.Output(env, DeviceAt(env, i)) == Some(Message(env, i))
    ensures Device.Sent(env, DeviceAt(env, i)) == DeviceAt(env, i + 1)
  {
    if i == Length(env) { assert false; }
    hide Message, DeviceAt, Device.Output, Device.Sent, Device.Input, Device.Received, FromDevice, Readable;
    if !FromDevice(env, i) { Follows.DeviceIsSilent(env, i); }
    Follows.DeviceFollowsScript(env, i, []);
  }

  lemma ServerTurn(env: Env, i: nat, j: nat)
    requires WellFormed(env) && j <= Length(env) && Accepted(env, j)
    requires forall k :: j <= k < i ==> k < Length(env) && FromDevice(env, k)
    requires Server.Output(env, ServerAt(env, j)).Some?
    ensures i <= j < Length(env) && !FromDevice(env, j)
    ensures Server.Output(env, ServerAt(env, j)) == Some(Message(env, j))
    ensures Server.Sent(env, ServerAt(env, j)) == ServerAt(env, j + 1)
  {
    if j == Length(env) { assert false; }
    hide Message, ServerAt, Server.Output, Server.Sent, Server.Input, Server.Received, FromDevice, Readable;
    if FromDevice(env, j) { Follows.ServerIsSilent(env, j); }
    Follows.ServerFollowsScript(env, j, []);
  }

  lemma DeviceWriteKeeps(env: Env, s: System, i: nat, j: nat)
    requires WellFormed(env) && Inv(env, s, i, j) && Accepted(env, i) && Enabled(env, s, DeviceWrites)
    ensures i < Length(env) && Inv(env, Step(env, s, DeviceWrites), i + 1, j)
    ensures Cost(env, Step(env, s, DeviceWrites), i + 1, j) < Cost(env, s, i, j)
  {
    hide Message, DeviceAt, ServerAt, Device.Output, Device.Sent, FromDevice, Device.Input, Server.Input, Server.Output;
    DeviceTurn(env, i, j);
    PendingGrows(env, j, i);
    assert Queue(Push(s.up, Message(env, i))) == Queue(s.up) + Message(env, i);
    assert Pending(env, i + 1, j) == [] == Pending(env, i, j);
  }

  lemma ServerWriteKeeps(env: Env, s: System, i: nat, j: nat)
    requires WellFormed(env) && Inv(env, s, i, j) && Accepted(env, j) && Enabled(env, s, ServerWrites)
    ensures j < Length(env) && Inv(env, Step(env, s, ServerWrites), i, j + 1)
    ensures Cost(env, Step(env, s, ServerWrites), i, j + 1) < Cost(env, s, i, j)
  {
    hide Message, DeviceAt, ServerAt, Server.Output, Server.Sent, FromDevice, Device.Input, Server.Input, Device.Output;
    ServerTurn(env, i, j);
    PendingGrows(env, i, j);
    assert Queue(Push(s.down, Message(env, j))) == Queue(s.down) + Message(env, j);
    assert Pending(env, j + 1, i) == [] == Pending(env, j, i);
  }

  /** What a reader sees is the message the script has for it, as far as it has arrived. */
  lemma DeviceSees(env: Env, s: System, i: nat, j: nat)
    requires WellFormed(env) && Inv(env, s, i, j) && Accepted(env, i)
    requires i < Length(env) ==> Readable(env, i)
    requires !Device.Input(s.device.point, s.down.ready).Short?
    ensures i < j
    ensures var r := Device.Input(s.device.point, s.down.ready);
            && r.Got? && Device.Received(env, s.device, r.value) == DeviceAt(env, i + 1)
            && r.rest + s.down.wire == Pending(env, i + 1, j)
  {
    if i == Length(env) { assert false; }
    hide Message, DeviceAt, ServerAt, Device.Output, Device.Sent, Device.Received, FromDevice;
    Device.InputStable(s.device.point, s.down.ready, s.down.wire);
    if i < j {
      assert !FromDevice(env, i);
      Follows.DeviceFollowsScript(env, i, Pending(env, i + 1, j));
    } else {
      assert false;
    }
  }

  lemma ServerSees(env: Env, s: System, i: nat, j: nat)
    requires WellFormed(env) && Inv(env, s, i, j) && Accepted(env, j)
    requires j < Length(env) ==> Readable(env, j)
    requires !Server.Input(s.server.point, s.up.ready).Short?
    ensures j < i
    ensures var r := Server.Input(s.server.point, s.up.ready);
            && r.Got? && Server.Received(env, s.server, r.value) == ServerAt(env, j + 1)
            && r.rest + s.up.wire == Pending(env, j + 1, i)
  {
    if j == Length(env) { assert false; }
    hide Message, DeviceAt, ServerAt, Server.Output, Server.Sent, Server.Received, FromDevice;
    Server.InputStable(s.server.point, s.up.ready, s.up.wire);
    if j < i {
      assert FromDevice(env, j);
      Follows.ServerFollowsScript(env, j, Pending(env, j + 1, i));
    } else {
      assert false;
    }
  }

  lemma DeviceReadKeeps(env: Env, s: System, i: nat, j: nat)
    requires WellFormed(env) && Inv(env, s, i, j) && Accepted(env, i) && Enabled(env, s, DeviceReads)
    requires i < Length(env) ==> Readable(env, i)
    ensures i < Length(env) && Inv(env, Step(env, s, DeviceReads), i + 1, j)
    ensures Cost(env, Step(env, s, DeviceReads), i + 1, j) < Cost(env, s, i, j)
  {
    hide Message, DeviceAt, ServerAt, Device.Input, Device.Received, FromDevice;
    DeviceSees(env, s, i, j);
    assert Pending(env, j, i + 1) == [] == Pending(env, j, i);
  }

  lemma ServerReadKeeps(env: Env, s: System, i: nat, j: nat)
    requires WellFormed(env) && Inv(env, s, i, j) && Accepted(env, j) && Enabled(env, s, ServerReads)
    requires j < Length(env) ==> Readable(env, j)
    ensures j < Length(env) && Inv(env, Step(env, s, ServerReads), i, j + 1)
    ensures Cost(env, Step(env, s, ServerReads), i, j + 1) < Cost(env, s, i, j)
  {
    hide Message, DeviceAt, ServerAt, Server.Input, Server.Received, FromDevice;
    ServerSees(env, s, i, j);
    assert Pending(env, i, j + 1) == [] == Pending(env, i, j);
  }

  lemma DeliveryKeeps(env: Env, s: System, e: Event, i: nat, j: nat)
    requires WellFormed(env) && Inv(env, s, i, j) && Enabled(env, s, e) && (e.UpDelivers? || e.DownDelivers?)
    ensures Inv(env, Step(env, s, e), i, j)
    ensures Cost(env, Step(env, s, e), i, j) < Cost(env, s, i, j)
  {
    hide Message, DeviceAt, ServerAt, FromDevice, Device.Input, Server.Input, Device.Output, Server.Output;
    var c := if e.UpDelivers? then s.up else s.down;
    assert Queue(Deliver(c, e.count)) == Queue(c);
  }

  lemma StepKeeps(env: Env, s: System, e: Event, i: nat, j: nat) returns (i': nat, j': nat)
    requires WellFormed(env) && Inv(env, s, i, j) && Accepted(env, i) && Accepted(env, j) && Enabled(env, s, e)
    requires (i < Length(env) ==> Readable(env, i)) && (j < Length(env) ==> Readable(env, j))
    ensures Inv(env, Step(env, s, e), i', j')
    ensures i' == i + (if e.DeviceWrites? || e.DeviceReads? then 1 else 0)
    ensures j' == j + (if e.ServerWrites? || e.ServerReads? then 1 else 0)
    ensures Cost(env, Step(env, s, e), i', j') < Cost(env, s, i, j)
  {
    hide *;
    i', j' := i, j;
    match e {
      case DeviceWrites =>
        DeviceWriteKeeps(env, s, i, j);
        i' := i + 1;
      case ServerWrites =>
        ServerWriteKeeps(env, s, i, j);
        j' := j + 1;
      case DeviceReads =>
        DeviceReadKeeps(env, s, i, j);
        i' := i + 1;
      case ServerReads =>
        ServerReadKeeps(env, s, i, j);
        j' := j + 1;
      case UpDelivers(_) =>
        DeliveryKeeps(env, s, e, i, j);
      case DownDelivers(_) =>
        DeliveryKeeps(env, s, e, i, j);
    }
  }

  // ----- whole runs

  lemma AllReadable(env: Env)
    requires Runnable(env)
    ensures forall k :: 0 <= k < Length(env) ==> Readable(env, k)
  {
  }

  lemma {:induction false} RunKeeps(env: Env, s: System, events: seq<Event>, i: nat, j: nat) returns (i': nat, j': nat)
    requires Runnable(env) && Inv(env, s, i, j) && IsRun(env, s, events)
    decreases |events|
    ensures Inv(env, After(env, s, events), i', j')
    ensures |events| <= Cost(env, s, i, j)
  {
    if events == [] {
      i', j' := i, j;
    } else {
      AllReadable(env);
      var a, b := StepKeeps(env, s, events[0], i, j);
      i', j' := RunKeeps(env, Step(env, s, events[0]), events[1..], a, b);
    }
  }

  lemma NothingRun(env: Env)
    ensures IsRun(env, Init(env), []) && After(env, Init(env), []) == Init(env)
  {}

  lemma {:induction false} RunsExtend(env: Env, s: System, events: seq<Event>, e: Event)
    requires IsRun(env, s, events) && Enabled(env, After(env, s, events), e)
    ensures IsRun(env, s, events + [e]) && After(env, s, events + [e]) == Step(env, After(env, s, events), e)
    decreases |events|
  {
    hide Step, Enabled;
    if events == [] {
      assert [e][1..] == [];
    } else {
      assert (events + [e])[1..] == events[1..] + [e];
      RunsExtend(env, Step(env, s, events[0]), events[1..], e);
    }
  }

  lemma InvBounds(env: Env, s: System, i: nat, j: nat)
    requires WellFormed(env)
    ensures Inv(env, s, i, j) ==> i <= Length(env) && j <= Length(env)
  {}

  ghost predicate Reachable(env: Env, s: System) {
    exists events :: IsRun(env, Init(env), events) && After(env, Init(env), events) == s
  }

  lemma ReachableInv(env: Env, s: System) returns (i: nat, j: nat)
    requires Runnable(env) && Reachable(env, s)
    ensures Inv(env, s, i, j)
    ensures i <= Length(env) && j <= Length(env) && s.device == DeviceAt(env, i) && s.server == ServerAt(env, j)
  {
    hide Message, DeviceAt, ServerAt, Device.Input, Server.Input, Device.Output, Server.Output;
    var events :| IsRun(env, Init(env), events) && After(env, Init(env), events) == s;
    InitInv(env);
    i, j := RunKeeps(env, Init(env), events, 0, 0);
  }

  /** Both sides are through the whole plan, in plan order, and nothing is left on the way. */
  predicate Completed(env: Env, s: System) {
    && s.device.point == Device.Done && s.server.point == Server.Done
    && s.device.log == s.server.log == Transfers(env.plan, |env.plan|)
    && Queue(s.up) == Queue(s.down) == []
  }

  lemma NeverFailed(env: Env, i: nat, j: nat)
    requires Runnable(env) && i <= Length(env) && j <= Length(env)
    ensures !DeviceAt(env, i).point.Failed? && !ServerAt(env, j).point.Failed?
  {
    if PREFIX <= i < Length(env) { Follows.NextPosition(env, i); }
    if PREFIX <= j < Length(env) { Follows.NextPosition(env, j); }
  }

  /** In every reachable state, a reader that can read gets the packet it expects, and neither side has failed. */
  lemma ReadersGetWhatTheyExpect(env: Env, s: System)
    requires Runnable(env) && Reachable(env, s)
    ensures !Device.Input(s.device.point, s.down.ready).Bad? && !s.device.point.Failed?
    ensures !Server.Input(s.server.point, s.up.ready).Bad? && !s.server.point.Failed?
  {
    var i, j := ReachableInv(env, s);
    NeverFailed(env, i, j);
    AllReadable(env);
    hide Device.Input, Server.Input, Reachable, DeviceAt, ServerAt, Device.Received, Server.Received, Readable;
    if Device.Input(s.device.point, s.down.ready).Bad? { DeviceSees(env, s, i, j); }
    if Server.Input(s.server.point, s.up.ready).Bad? { ServerSees(env, s, i, j); }
  }

  /** No reachable state is stuck before both sides are done. */
  lemma NoDeadlock(env: Env, s: System)
    requires Runnable(env) && Reachable(env, s)
    ensures Completed(env, s) || exists e :: Enabled(env, s, e)
  {
    hide Message, FromDevice, Reachable;
    var i, j := ReachableInv(env, s);
    if |s.up.wire| > 0 {
      assert Enabled(env, s, UpDelivers(1));
    } else if |s.down.wire| > 0 {
      assert Enabled(env, s, DownDelivers(1));
    } else if i < j {
      DeviceCanRead(env, s, i, j);
    } else if j < i {
      ServerCanRead(env, s, i, j);
    } else if i < Length(env) {
      SomeoneCanWrite(env, s, i);
    }
  }

  lemma DeviceCanRead(env: Env, s: System, i: nat, j: nat)
    requires Runnable(env) && Inv(env, s, i, j) && i < j && s.down.wire == []
    ensures Enabled(env, s, DeviceReads)
  {
    hide Message, DeviceAt, ServerAt, Device.Output, Device.Sent, Device.Input, Device.Received, FromDevice;
    assert s.down.ready == Pending(env, i, j);
    assert !FromDevice(env, i);
    AllReadable(env);
    Follows.DeviceFollowsScript(env, i, Pending(env, i + 1, j));
  }

  lemma ServerCanRead(env: Env, s: System, i: nat, j: nat)
    requires Runnable(env) && Inv(env, s, i, j) && j < i && s.up.wire == []
    ensures Enabled(env, s, ServerReads)
  {
    hide Message, DeviceAt, ServerAt, Server.Output, Server.Sent, Server.Input, Server.Received, FromDevice;
    assert s.up.ready == Pending(env, j, i);
    assert FromDevice(env, j);
    AllReadable(env);
    Follows.ServerFollowsScript(env, j, Pending(env, j + 1, i));
  }

  lemma SomeoneCanWrite(env: Env, s: System, i: nat)
    requires Runnable(env) && Inv(env, s, i, i) && i < Length(env)
    ensures Enabled(env, s, DeviceWrites) || Enabled(env, s, ServerWrites)
  {
    hide Message, DeviceAt, ServerAt, Device.Output, Server.Output, Device.Input, Server.Input, FromDevice;
    AllReadable(env);
    Follows.DeviceFollowsScript(env, i, []);
    Follows.ServerFollowsScript(env, i, []);
  }

  /** Every run ends after a bounded number of events, and one that cannot go on has completed. */
  lemma RunsComplete(env: Env, events: seq<Event>)
    requires Runnable(env) && IsRun(env, Init(env), events)
    ensures |events| <= 2 * Length(env) + |Pending(env, 0, Length(env))|
    ensures (forall e :: !Enabled(env, After(env, Init(env), events), e))
        ==> Completed(env, After(env, Init(env), events))
  {
    InitInv(env);
    var _, _ := RunKeeps(env, Init(env), events, 0, 0);
    NoDeadlock(env, After(env, Init(env), events));
  }

  // ----- what is in flight

  lemma NoThreeInARow(env: Env, k: nat)
    requires k + 2 < Length(env)
    ensures !(FromDevice(env, k) == FromDevice(env, k + 1) == FromDevice(env, k + 2))
  {
    if k >= PREFIX { Follows.NextPosition(env, k); }
    if k + 1 >= PREFIX { Follows.NextPosition(env, k + 1); }
    if k + 2 >= PREFIX { Follows.NextPosition(env, k + 2); }
  }

  /** At most two packets are ever unread, and never in both directions at once. */
  lemma InFlight(env: Env, s: System)
    requires Runnable(env) && Reachable(env, s)
    ensures Queue(s.up) == [] || Queue(s.down) == []
    ensures exists i: nat, j: nat :: Inv(env, s, i, j) && i <= j + 2 && j <= i + 2
  {
    var i, j := ReachableInv(env, s);
    hide FromDevice;
    if i > j + 2 {
      NoThreeInARow(env, j);
      assert false;
    }
    if j > i + 2 {
      NoThreeInARow(env, i);
      assert false;
    }
  }
}
