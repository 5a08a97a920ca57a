/**
  Server bytes on their way down: the bridge cuts its TCP reads into SDUs, the link delivers them in
  order while the device has receive buffers, and wolfSSL reads the queued bytes in pieces of any
  size. A buffer goes back to the pool, and its credit to the bridge, only when it is used up.
 */
module Downlink {
  import opened Bytes
  import opened Text
  import opened Uplink

  // ----- the device's receive queue as a value

  datatype Queue = Queue(fifo: seq<Stream>, current: Option<Stream>, queuedBytes: int, free: nat, returned: nat)

  function NewQueue(pool: nat): Queue {
    Queue([], None, 0, pool, 0)
  }

  function CurrentBytes(q: Queue): Stream {
    if q.current.Some? then q.current.value else []
  }

  /** What has been received and not read yet. */
  function Unread(q: Queue): Stream {
    CurrentBytes(q) + Concat(q.fifo)
  }

  function Held(q: Queue): nat {
    |q.fifo| + if q.current.Some? then 1 else 0
  }

  /** `l2cap_recv` on a buffer taken from the pool: control frames give it back at once. */
  function Recv(q: Queue, sdu: Stream): Queue
    requires q.free >= 1
  {
    if HasMagicAt(sdu, 0) then q.(returned := q.returned + 1)
    else q.(fifo := q.fifo + [sdu], queuedBytes := q.queuedBytes + |sdu|, free := q.free - 1)
  }

  /** The queue with a current SDU, if there is any. */
  function Fetch(q: Queue): Queue {
    if q.current.None? && q.fifo != [] then q.(current := Some(q.fifo[0]), fifo := q.fifo[1..]) else q
  }

  /** `l2cap_wolfssl_recv` when there is something queued: the bytes and the queue afterwards. */
  function Take(q: Queue, size: nat): (Queue, Stream)
    requires Fetch(q).current.Some?
  {
    var f := Fetch(q);
    var count := Min(size, |f.current.value|);
    var data, left := f.current.value[..count], f.current.value[count..];
    var read := f.(queuedBytes := f.queuedBytes - count);
    if left == [] then (read.(current := None, free := f.free + 1, returned := f.returned + 1), data)
    else (read.(current := Some(left)), data)
  }

  /** The drain at the start of a session. */
  function Reset(q: Queue): Queue {
    Queue([], None, 0, q.free + Held(q), q.returned + Held(q))
  }

  // ----- the same queue, mutated by the callbacks

  datatype RecvResult = Data(bytes: Stream) | WantRead | ConnClose

  class L2capReceiver {
    var fifo: seq<Stream>
    var current: Option<Stream>
    var queuedBytes: int
    var free: nat
    var returned: nat

    ghost function Value(): Queue
      reads this
    {
      Queue(fifo, current, queuedBytes, free, returned)
    }

    constructor (pool: nat)
      ensures Value() == NewQueue(pool)
    {
      fifo, current, queuedBytes, free, returned := [], None, 0, pool, 0;
    }

    /** Allocation from the pool and `l2cap_recv`; without a buffer nothing is received. */
    method OnSdu(sdu: Stream) returns (received: bool)
      modifies this
      ensures received <==> old(free) >= 1
      ensures Value() == if received then Recv(old(Value()), sdu) else old(Value())
    {
      if free == 0 { return false; }
      free := free - 1;
      if |sdu| >= HEADER_SIZE && sdu[..5] == MAGIC {
        free, returned := free + 1, returned + 1;
        return true;
      }
      queuedBytes := queuedBytes + |sdu|;
      fifo := fifo + [sdu];
      return true;
    }

    /** `l2cap_wolfssl_recv`: queued data goes before a closed connection. */
    method WolfsslRecv(size: nat, connected: bool) returns (r: RecvResult)
      modifies this
      ensures if Fetch(old(Value())).current.Some? then
                (Value(), r) == (Take(old(Value()), size).0, Data(Take(old(Value()), size).1))
              else Value() == old(Value()) && r == if connected then WantRead else ConnClose
    {
      if current.None? && fifo != [] {
        current, fifo := Some(fifo[0]), fifo[1..];
      }
      if current.Some? {
        var readBytes := if size < |current.value| then size else |current.value|;
        var data := current.value[..readBytes];
        current := Some(current.value[readBytes..]);
        queuedBytes := queuedBytes - readBytes;
        if |current.value| == 0 {
          current, free, returned := None, free + 1, returned + 1;
        }
        return Data(data);
      }
      if !connected { return ConnClose; }
      return WantRead;
    }

    /** What `main` does before it accepts the next session. */
    method StartSession()
      modifies this
      ensures Value() == Reset(old(Value()))
    {
      if current.Some? {
        current, free, returned := None, free + 1, returned + 1;
      }
      while fifo != []
        invariant Reset(Value()) == Reset(old(Value())) && current.None?
        decreases |fifo|
      {
        fifo, free, returned := fifo[1..], free + 1, returned + 1;
      }
      queuedBytes := 0;
    }
  }

  // ----- the whole path

  /**
    `sent` is every SDU the bridge has cut in this session, `arrived` of them have reached the device;
    `received` counts the arrivals of all sessions.
   */
  datatype Path = Path(sent: seq<Stream>, arrived: nat, queue: Queue, delivered: Stream, received: nat)

  datatype Event =
    | Relay(data: Stream)
    | Arrive
    | Read(size: nat)
    | Restart  // the session has ended; what was still on its way is gone with the link

  function Start(pool: nat): Path {
    Path([], 0, NewQueue(pool), [], 0)
  }

  predicate Enabled(p: Path, e: Event) {
    match e
    case Relay(data) => 1 <= |data|
    case Arrive => p.arrived < |p.sent| && p.queue.free >= 1
    case Read(size) => size >= 1 && Fetch(p.queue).current.Some?
    case Restart => true
  }

  function Step(p: Path, mtu: nat, e: Event): Path
    requires mtu >= 1 && Enabled(p, e)
  {
    match e
    case Relay(data) => p.(sent := p.sent + Chunks(data, mtu))
    case Arrive => p.(queue := Recv(p.queue, p.sent[p.arrived]), arrived := p.arrived + 1, received := p.received + 1)
    case Read(size) =>
      var (queue, data) := Take(p.queue, size);
      p.(queue := queue, delivered := p.delivered + data)
    case Restart => Path([], 0, Reset(p.queue), [], p.received)
  }

  predicate IsRun(p: Path, mtu: nat, events: seq<Event>)
    requires mtu >= 1
    decreases |events|
  {
    events == [] || (Enabled(p, events[0]) && IsRun(Step(p, mtu, events[0]), mtu, events[1..]))
  }

  function After(p: Path, mtu: nat, events: seq<Event>): Path
    requires mtu >= 1 && IsRun(p, mtu, events)
    decreases |events|
  {
    if events == [] then p else After(Step(p, mtu, events[0]), mtu, events[1..])
  }

  /** The bytes the bridge has read from TCP in the current session, after those in `before`. */
  function FromTcp(before: Stream, events: seq<Event>): Stream
    decreases |events|
  {
    if events == [] then before else
    var now := if events[0].Relay? then before + events[0].data else if events[0].Restart? then [] else before;
    FromTcp(now, events[1..])
  }

  /** The SDUs the device keeps: all but those that look like control frames to it. */
  function Kept(sdus: seq<Stream>): seq<Stream> {
    if sdus == [] then [] else (if HasMagicAt(sdus[0], 0) then [] else [sdus[0]]) + Kept(sdus[1..])
  }

  ghost predicate Inv(p: Path, pool: nat, mtu: nat) {
    && p.arrived <= |p.sent|
    && p.delivered + Unread(p.queue) == Concat(Kept(p.sent[..p.arrived]))
    && p.arrived <= p.received && Balanced(p.queue, pool, p.received)
    && (forall s <- p.sent :: 1 <= |s| <= mtu)
    && Sized(p.queue, mtu)
  }

  /** The counters of the queue: unread bytes, buffers and credits. */
  ghost predicate Balanced(q: Queue, pool: nat, arrived: nat) {
    q.queuedBytes == |Unread(q)| && q.free + Held(q) == pool && q.returned + Held(q) == arrived
  }

  ghost predicate Sized(q: Queue, mtu: nat) {
    (forall s <- q.fifo :: 1 <= |s| <= mtu) && (q.current.Some? ==> 1 <= |q.current.value| <= mtu)
  }

  lemma {:induction false} KeptAppend(a: seq<Stream>, b: seq<Stream>)
    ensures Kept(a + b) == Kept(a) + Kept(b)
  {
    hide HasMagicAt;
    if a == [] {
      assert a + b == b;
    } else {
      assert (a + b)[1..] == a[1..] + b;
      KeptAppend(a[1..], b);
    }
  }

  lemma KeptOne(s: Stream)
    ensures Kept([s]) == if HasMagicAt(s, 0) then [] else [s]
  {
    hide HasMagicAt;
    assert [s][1..] == [];
  }

  lemma RecvKeeps(q: Queue, s: Stream, pool: nat, arrived: nat, mtu: nat)
    requires q.free >= 1 && 1 <= |s| <= mtu && Balanced(q, pool, arrived) && Sized(q, mtu)
    ensures Balanced(Recv(q, s), pool, arrived + 1) && Sized(Recv(q, s), mtu)
    ensures Unread(Recv(q, s)) == Unread(q) + if HasMagicAt(s, 0) then [] else s
  {
    hide HasMagicAt;
    if HasMagicAt(s, 0) {
      assert Unread(q) + [] == Unread(q);
    } else {
      ConcatAppend(q.fifo, [s]);
      ConcatOne(s);
      assert CurrentBytes(q) + (Concat(q.fifo) + s) == Unread(q) + s;
    }
  }

  lemma KeptGrows(sent: seq<Stream>, n: nat)
    requires n < |sent|
    ensures Concat(Kept(sent[..n + 1])) == Concat(Kept(sent[..n])) + if HasMagicAt(sent[n], 0) then [] else sent[n]
  {
    hide HasMagicAt;
    assert sent[..n + 1] == sent[..n] + [sent[n]];
    KeptAppend(sent[..n], [sent[n]]);
    KeptOne(sent[n]);
    ConcatAppend(Kept(sent[..n]), Kept([sent[n]]));
    ConcatOne(sent[n]);
  }

  lemma ArriveKeeps(p: Path, pool: nat, mtu: nat)
    requires mtu >= 1 && Inv(p, pool, mtu) && Enabled(p, Arrive)
    ensures Inv(Step(p, mtu, Arrive), pool, mtu)
  {
    hide Recv, Unread, Balanced, Sized, HasMagicAt, Kept, Concat;
    var s := p.sent[p.arrived];
    assert s in p.sent;
    RecvKeeps(p.queue, s, pool, p.received, mtu);
    KeptGrows(p.sent, p.arrived);
    var more := if HasMagicAt(s, 0) then [] else s;
    assert p.delivered + (Unread(p.queue) + more) == (p.delivered + Unread(p.queue)) + more;
  }

  lemma FetchKeeps(q: Queue)
    ensures Unread(Fetch(q)) == Unread(q) && Held(Fetch(q)) == Held(q)
  {
    if q.current.None? && q.fifo != [] {
      assert [] + Concat(q.fifo) == Concat(q.fifo);
    }
  }

  lemma TakeKeeps(q: Queue, size: nat, pool: nat, arrived: nat, mtu: nat)
    requires size >= 1 && Fetch(q).current.Some? && Balanced(q, pool, arrived) && Sized(q, mtu)
    ensures var (q', data) := Take(q, size);
            && Balanced(q', pool, arrived) && Sized(q', mtu)
            && data + Unread(q') == Unread(q) && 1 <= |data| <= size
  {
    hide Concat;
    FetchKeeps(q);
    TakeSplits(Fetch(q), size);
  }

  /** Reading from a fetched SDU. */
  lemma TakeSplits(f: Queue, size: nat)
    requires f.current.Some?
    ensures Fetch(f) == f
    ensures var (q', data) := Take(f, size);
            && data + Unread(q') == Unread(f) && f.queuedBytes - q'.queuedBytes == |data|
            && q'.free - f.free == q'.returned - f.returned == Held(f) - Held(q')
  {
    var count := Min(size, |f.current.value|);
    var data, left := f.current.value[..count], f.current.value[count..];
    assert data + left == f.current.value;
    assert data + (left + Concat(f.fifo)) == f.current.value + Concat(f.fifo);
    assert [] + Concat(f.fifo) == Concat(f.fifo);
  }

  /** The drain gives back every buffer and credit, and counts nothing twice. */
  lemma ResetKeeps(q: Queue, pool: nat, received: nat, mtu: nat)
    requires Balanced(q, pool, received)
    ensures Balanced(Reset(q), pool, received) && Sized(Reset(q), mtu) && Unread(Reset(q)) == [] && Held(Reset(q)) == 0
  {}

  lemma StepKeeps(p: Path, pool: nat, mtu: nat, e: Event)
    requires mtu >= 1 && Inv(p, pool, mtu) && Enabled(p, e)
    ensures Inv(Step(p, mtu, e), pool, mtu)
  {
    hide Unread, Balanced, Sized, Take, Reset;
    match e {
      case Relay(data) =>
        assert (p.sent + Chunks(data, mtu))[..p.arrived] == p.sent[..p.arrived];
      case Arrive =>
        ArriveKeeps(p, pool, mtu);
      case Read(size) =>
        TakeKeeps(p.queue, size, pool, p.received, mtu);
        var (q, data) := Take(p.queue, size);
        assert (p.delivered + data) + Unread(q) == p.delivered + (data + Unread(q));
      case Restart =>
        ResetKeeps(p.queue, pool, p.received, mtu);
    }
  }

  lemma {:induction false} RunKeeps(p: Path, pool: nat, mtu: nat, events: seq<Event>)
    requires mtu >= 1 && Inv(p, pool, mtu) && IsRun(p, mtu, events)
    ensures Inv(After(p, mtu, events), pool, mtu)
    decreases |events|
  {
    hide Inv, Enabled, Step;
    if events != [] {
      StepKeeps(p, pool, mtu, events[0]);
      RunKeeps(Step(p, mtu, events[0]), pool, mtu, events[1..]);
    }
  }

  /** The SDUs the bridge has cut are the bytes it has read. */
  lemma {:induction false} SentIsRead(p: Path, mtu: nat, events: seq<Event>)
    requires mtu >= 1 && IsRun(p, mtu, events)
    ensures Concat(After(p, mtu, events).sent) == FromTcp(Concat(p.sent), events)
    decreases |events|
  {
    hide Step, Enabled;
    if events != [] {
      StepSends(p, mtu, events[0]);
      SentIsRead(Step(p, mtu, events[0]), mtu, events[1..]);
    }
  }

  lemma StepSends(p: Path, mtu: nat, e: Event)
    requires mtu >= 1 && Enabled(p, e)
    ensures Concat(Step(p, mtu, e).sent)
         == if e.Relay? then Concat(p.sent) + e.data else if e.Restart? then [] else Concat(p.sent)
  {
    hide Take, Recv, Chunks, Reset;
    if e.Relay? {
      ChunksConcat(e.data, mtu);
      ConcatAppend(p.sent, Chunks(e.data, mtu));
    }
  }

  lemma {:induction false} KeptLength(sdus: seq<Stream>)
    ensures |Concat(Kept(sdus))| <= |Concat(sdus)|
    ensures (forall s <- sdus :: !HasMagicAt(s, 0)) ==> Kept(sdus) == sdus
    ensures (exists s <- sdus :: HasMagicAt(s, 0)) ==> |Concat(Kept(sdus))| < |Concat(sdus)|
  {
    if sdus != [] {
      KeptLength(sdus[1..]);
      if HasMagicAt(sdus[0], 0) {
        assert Kept(sdus) == Kept(sdus[1..]);
      } else {
        assert Kept(sdus)[1..] == Kept(sdus[1..]) && Kept(sdus)[0] == sdus[0];
        assert forall s :: s in sdus ==> s == sdus[0] || s in sdus[1..];
      }
    }
  }

  lemma {:induction false} TotalBound(sdus: seq<Stream>, mtu: nat)
    requires forall s <- sdus :: |s| <= mtu
    ensures |Concat(sdus)| <= |sdus| * mtu
  {
    if sdus != [] {
      TotalBound(sdus[1..], mtu);
      OneMoreTimes(|sdus| - 1, mtu);
    }
  }

  /** Delivered, queued and on the way, in this order, with what the device takes for control left out. */
  function InOrder(p: Path): Stream
    requires p.arrived <= |p.sent|
  {
    p.delivered + Unread(p.queue) + Concat(Kept(p.sent[p.arrived..]))
  }

  /**
    In every reachable state: the bytes delivered, queued and in flight are the TCP bytes the bridge
    has read, in order and without loss, exactly when no SDU starts with the control magic; the
    queue counter is the number of unread bytes; every SDU received in this session or an earlier one
    is either still held or has had its credit returned, once; and the queue never holds more than
    the pool can.
   */
  lemma DownlinkIsExact(pool: nat, mtu: nat, events: seq<Event>)
    requires mtu >= 1 && IsRun(Start(pool), mtu, events)
    ensures var p := After(Start(pool), mtu, events);
            && p.arrived <= |p.sent|
            && (InOrder(p) == FromTcp([], events) <==> forall s <- p.sent :: !HasMagicAt(s, 0))
            && p.queue.queuedBytes == |Unread(p.queue)| <= pool * mtu
            && p.queue.returned + Held(p.queue) == p.received
            && p.queue.free + Held(p.queue) == pool
            && (Unread(p.queue) == [] ==> p.queue.returned == p.received)
  {
    var p := After(Start(pool), mtu, events);
    RunKeeps(Start(pool), pool, mtu, events);
    ExactIffPlain(p, pool, mtu, events);
    hide HasMagicAt, IsRun, After, Kept, Concat;
    TotalBound(p.queue.fifo, mtu);
    HeldBound(p.queue, mtu, pool);
    NothingHeld(p.queue, mtu);
  }

  lemma ExactIffPlain(p: Path, pool: nat, mtu: nat, events: seq<Event>)
    requires mtu >= 1 && IsRun(Start(pool), mtu, events) && p == After(Start(pool), mtu, events)
    requires Inv(p, pool, mtu)
    ensures InOrder(p) == FromTcp([], events) <==> forall s <- p.sent :: !HasMagicAt(s, 0)
  {
    hide HasMagicAt, IsRun, After, Inv;
    SentIsRead(Start(pool), mtu, events);
    ConcatNothing();
    InOrderIsKept(p, pool, mtu);
    KeptLength(p.sent);
  }

  lemma InOrderIsKept(p: Path, pool: nat, mtu: nat)
    requires Inv(p, pool, mtu)
    ensures InOrder(p) == Concat(Kept(p.sent))
  {
    hide HasMagicAt, Unread, Balanced, Sized;
    KeptAppend(p.sent[..p.arrived], p.sent[p.arrived..]);
    ConcatAppend(Kept(p.sent[..p.arrived]), Kept(p.sent[p.arrived..]));
    assert p.sent[..p.arrived] + p.sent[p.arrived..] == p.sent;
  }

  // ----- nothing stays behind

  /** Bytes not yet read and arrivals still to come. */
  function Todo(p: Path): nat
    requires p.arrived <= |p.sent|
  {
    |Concat(p.sent[p.arrived..])| + |p.sent| - p.arrived + |Unread(p.queue)|
  }

  /** A read hands over as many bytes as are asked for, or all that is left of the current SDU. */
  lemma ReadsAllItCan(q: Queue, size: nat)
    requires Fetch(q).current.Some?
    ensures var (after, data) := Take(q, size);
            && data <= Fetch(q).current.value
            && (|data| == size || data == Fetch(q).current.value)
            && (after.current.None? <==> data == Fetch(q).current.value)
  {}

  /** Every arrival and every read brings the end of the transfer closer. */
  lemma EventLowersTodo(p: Path, pool: nat, mtu: nat, e: Event)
    requires mtu >= 1 && Inv(p, pool, mtu) && Enabled(p, e) && (e.Arrive? || e.Read?)
    ensures var next := Step(p, mtu, e); next.arrived <= |next.sent| && Todo(next) < Todo(p)
  {
    hide Balanced, HasMagicAt;
    if e.Arrive? {
      var rest := p.sent[p.arrived..];
      assert rest[1..] == p.sent[p.arrived + 1..] && rest[0] == p.sent[p.arrived];
      ArriveReads(p.queue, p.sent[p.arrived]);
    } else {
      var f := Fetch(p.queue);
      FetchReads(p.queue, mtu);
      ReadsAllItCan(p.queue, e.size);
      TakeSplits(f, e.size);
    }
  }

  lemma ArriveReads(q: Queue, sdu: Stream)
    requires q.free >= 1
    ensures |Unread(Recv(q, sdu))| <= |Unread(q)| + |sdu|
  {
    ConcatAppend(q.fifo, [sdu]);
    ConcatOne(sdu);
  }

  lemma FetchReads(q: Queue, mtu: nat)
    requires Sized(q, mtu)
    ensures Unread(Fetch(q)) == Unread(q) && (Fetch(q).current.Some? ==> Fetch(q).current.value != [])
  {
    if q.current.None? && q.fifo != [] { assert [] + Concat(q.fifo) == q.fifo[0] + Concat(q.fifo[1..]); }
  }

  /**
    When neither an arrival nor a read of one byte is possible any more, everything has arrived and
    has been read: what wolfSSL got is what came from TCP, exactly when no SDU starts with the magic.
   */
  lemma NothingStays(pool: nat, mtu: nat, events: seq<Event>)
    requires mtu >= 1 && pool >= 1 && IsRun(Start(pool), mtu, events)
    ensures var p := After(Start(pool), mtu, events);
            !Enabled(p, Arrive) && !Enabled(p, Read(1)) ==>
              && p.arrived == |p.sent| && Unread(p.queue) == []
              && p.queue.free == pool && p.queue.returned == p.received
              && (p.delivered == FromTcp([], events) <==> forall s <- p.sent :: !HasMagicAt(s, 0))
  {
    var p := After(Start(pool), mtu, events);
    DownlinkIsExact(pool, mtu, events);
    RunKeeps(Start(pool), pool, mtu, events);
    hide HasMagicAt, IsRun, After, FromTcp, Sized, Take;
    if !Enabled(p, Arrive) && !Enabled(p, Read(1)) {
      assert p.queue.current.None? && p.queue.fifo == [];
      assert Unread(p.queue) == [];
      assert p.sent[p.arrived..] == [];
      assert p.delivered + [] + Concat(Kept([])) == p.delivered;
    }
  }

  lemma NothingHeld(q: Queue, mtu: nat)
    requires Sized(q, mtu)
    ensures Unread(q) == [] ==> Held(q) == 0
  {
    if q.fifo != [] {
      assert |Concat(q.fifo)| >= |q.fifo[0]|;
    }
  }

  lemma ConcatNothing()
    ensures Concat([]) == []
  {
  }

  lemma HeldBound(q: Queue, mtu: nat, pool: nat)
    requires Held(q) <= pool && |CurrentBytes(q)| <= mtu && |Concat(q.fifo)| <= |q.fifo| * mtu
    ensures |Unread(q)| <= pool * mtu
  {
    hide Concat;
    if q.current.Some? {
      Times(|q.fifo| + 1, pool, mtu);
      OneMoreTimes(|q.fifo|, mtu);
    } else {
      Times(|q.fifo|, pool, mtu);
    }
  }

  lemma Times(a: nat, b: nat, c: nat)
    requires a <= b
    ensures a * c <= b * c
  {}

  lemma OneMoreTimes(a: nat, c: nat)
    ensures (a + 1) * c == a * c + c
  {}
}
