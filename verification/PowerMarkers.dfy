/**
  Power markers: the firmware raises GPIO pins around cryptographic operations, counting how deep
  operations nest, and the host tells from the pins which kind of operation is running.
 */
module PowerMarkers {
  import opened Bytes

  datatype Operation =
    | KemKeygen | KemEncapsulate | KemDecapsulate
    | CertVerify
    | ClassicalKexKeygen | ClassicalKexSharedSecret
    | TlsCertVerify | MtlsSign

  datatype Class = MlKem | ClassicalKex | Signature

  function ClassOf(operation: Operation): Class {
    match operation
    case KemKeygen | KemEncapsulate | KemDecapsulate => MlKem
    case ClassicalKexKeygen | ClassicalKexSharedSecret => ClassicalKex
    case CertVerify | TlsCertVerify | MtlsSign => Signature
  }

  datatype Event =
    | Start(operation: Operation)
    | Stop(operation: Operation)
    | SetTotal(active: bool)
    | SetHandshake(active: bool)
    | Reset

  // ----- what the markers are for

  /** How many operations of a class are running: a reset forgets them, a stop without a start is ignored. */
  function Nesting(events: seq<Event>, c: Class): nat {
    if events == [] then 0 else NestingAfter(Nesting(events[..|events| - 1], c), c, events[|events| - 1])
  }

  function NestingAfter(n: nat, c: Class, e: Event): nat {
    match e
    case Start(op) => if ClassOf(op) == c then n + 1 else n
    case Stop(op) => if ClassOf(op) == c && n > 0 then n - 1 else n
    case Reset => 0
    case _ => n
  }

  /** The classes of which an operation is running. */
  function Running(events: seq<Event>): set<Class> {
    set c: Class | Nesting(events, c) > 0
  }

  // ----- the markers

  /** Pin D5 marks every key exchange, D4 a classical key exchange or a signature. */
  datatype Pins = Pins(d7: bool, d6: bool, d5: bool, d4: bool)

  datatype Markers = Markers(mlkem: uint32, classical: uint32, signature: uint32, pins: Pins) {
    function Depth(c: Class): uint32 {
      match c
      case MlKem => mlkem
      case ClassicalKex => classical
      case Signature => signature
    }

    predicate PinsMatch() {
      && (pins.d5 <==> mlkem > 0 || classical > 0)
      && (pins.d4 <==> classical > 0 || signature > 0)
    }
  }

  const Idle := Markers(0, 0, 0, Pins(false, false, false, false))

  /** `depth++` on an unsigned 32-bit counter. */
  function Increment(depth: uint32): uint32 {
    (depth + 1) % TWO_TO_THE_32
  }

  function Step(s: Markers, e: Event): Markers {
    match e
    case Reset => Idle
    case SetTotal(active) => s.(pins := s.pins.(d7 := active))
    case SetHandshake(active) => s.(pins := s.pins.(d6 := active))
    case Start(op) => Started(s, ClassOf(op))
    case Stop(op) => Stopped(s, ClassOf(op))
  }

  function Started(s: Markers, c: Class): Markers {
    var first := s.Depth(c) == 0;
    match c
    case MlKem => s.(mlkem := Increment(s.mlkem), pins := if first then s.pins.(d5 := true) else s.pins)
    case ClassicalKex =>
      s.(classical := Increment(s.classical), pins := if first then s.pins.(d5 := true, d4 := true) else s.pins)
    case Signature => s.(signature := Increment(s.signature), pins := if first then s.pins.(d4 := true) else s.pins)
  }

  function Stopped(s: Markers, c: Class): Markers {
    if s.Depth(c) == 0 then s else
    var last := s.Depth(c) == 1;
    match c
    case MlKem =>
      s.(mlkem := s.mlkem - 1, pins := if last && s.classical == 0 then s.pins.(d5 := false) else s.pins)
    case ClassicalKex =>
      s.(classical := s.classical - 1,
         pins := if last then s.pins.(d5 := s.pins.d5 && s.mlkem > 0, d4 := s.pins.d4 && s.signature > 0) else s.pins)
    case Signature =>
      s.(signature := s.signature - 1, pins := if last && s.classical == 0 then s.pins.(d4 := false) else s.pins)
  }

  function After(s: Markers, events: seq<Event>): Markers {
    if events == [] then s else Step(After(s, events[..|events| - 1]), events[|events| - 1])
  }

  /** The start that makes a depth counter wrap to zero while no other class holds its pins up. */
  predicate WrapsUncovered(s: Markers, e: Event) {
    && e.Start?
    && s.Depth(ClassOf(e.operation)) == TWO_TO_THE_32 - 1
    && match ClassOf(e.operation)
       case MlKem => s.classical == 0
       case ClassicalKex => s.mlkem == 0 || s.signature == 0
       case Signature => s.classical == 0
  }

  lemma StartKeepsPins(s: Markers, op: Operation)
    requires s.PinsMatch()
    ensures Started(s, ClassOf(op)).PinsMatch() <==> !WrapsUncovered(s, Start(op))
  {
    WrapsAtTop(s.Depth(ClassOf(op)));
    hide Increment;
    match ClassOf(op)
    case MlKem =>
    case ClassicalKex =>
    case Signature =>
  }

  lemma WrapsAtTop(depth: uint32)
    ensures Increment(depth) == if depth == TWO_TO_THE_32 - 1 then 0 else depth + 1
  {}

  lemma StopKeepsPins(s: Markers, c: Class)
    requires s.PinsMatch()
    ensures Stopped(s, c).PinsMatch()
  {
    match c
    case MlKem =>
    case ClassicalKex =>
    case Signature =>
  }

  /** One call keeps the pins in step with the depths unless a counter wraps, and exactly then not. */
  lemma StepKeepsPins(s: Markers, e: Event)
    requires s.PinsMatch()
    ensures Step(s, e).PinsMatch() <==> !WrapsUncovered(s, e)
  {
    hide Started, Stopped, ClassOf;
    match e
    case Start(op) => StartKeepsPins(s, op);
    case Stop(op) => StopKeepsPins(s, ClassOf(op));
    case _ =>
  }

  // ----- whole runs of calls

  /** After every call the pins follow the depth counters. */
  ghost predicate PinsFollow(events: seq<Event>) {
    forall k :: 0 <= k <= |events| ==> After(Idle, events[..k]).PinsMatch()
  }

  /** No call makes a counter wrap uncovered. */
  ghost predicate NeverWraps(events: seq<Event>) {
    forall k :: 0 <= k < |events| ==> !WrapsUncovered(After(Idle, events[..k]), events[k])
  }

  /** Over any run the pins follow the counters exactly if no call makes one wrap uncovered. */
  lemma {:induction false} PinsFollowUnlessWraps(events: seq<Event>)
    ensures PinsFollow(events) <==> NeverWraps(events)
  {
    hide WrapsUncovered, Step;
    if events != [] {
      var n := |events| - 1;
      PinsFollowUnlessWraps(events[..n]);
      PinsFollowStep(events);
      NeverWrapsStep(events);
      if PinsFollow(events[..n]) {
        assert events[..n][..n] == events[..n];
        StepKeepsPins(After(Idle, events[..n]), events[n]);
      }
    }
  }

  lemma PinsFollowStep(events: seq<Event>)
    requires events != []
    ensures PinsFollow(events) <==> PinsFollow(events[..|events| - 1]) && After(Idle, events).PinsMatch()
  {
    hide After;
    var n := |events| - 1;
    assert forall k :: 0 <= k <= n ==> events[..n][..k] == events[..k];
    assert events[..n + 1] == events;
  }

  lemma NeverWrapsStep(events: seq<Event>)
    requires events != []
    ensures var n := |events| - 1;
            NeverWraps(events) <==> NeverWraps(events[..n]) && !WrapsUncovered(After(Idle, events[..n]), events[n])
  {
    hide After, WrapsUncovered;
    var n := |events| - 1;
    assert forall k :: 0 <= k < n ==> events[..n][..k] == events[..k] && events[..n][k] == events[k];
  }

  function Starts(n: nat): (r: seq<Event>)
    ensures |r| == n
  {
    seq(n, _ => Start(KemKeygen))
  }

  lemma {:induction false} DeepNesting(n: nat)
    requires n < TWO_TO_THE_32
    ensures After(Idle, Starts(n)) == Markers(n, 0, 0, Pins(false, false, n > 0, false))
  {
    if n > 0 {
      DeepNesting(n - 1);
      assert Starts(n)[..n - 1] == Starts(n - 1);
    }
  }

  /** A run that shows it: after 2^32 starts the counter is zero and D5 still high; one start fewer does no harm. */
  lemma WrappedDepthLeavesPinHigh()
    ensures After(Idle, Starts(TWO_TO_THE_32)) == Markers(0, 0, 0, Pins(false, false, true, false))
    ensures !PinsFollow(Starts(TWO_TO_THE_32)) && PinsFollow(Starts(TWO_TO_THE_32 - 1))
  {
    var all, n := Starts(TWO_TO_THE_32), TWO_TO_THE_32 - 1;
    DeepNesting(n);
    assert all[..n] == Starts(n) && all[..TWO_TO_THE_32] == all;
    forall k | 0 <= k <= n
      ensures After(Idle, Starts(n)[..k]).PinsMatch()
    {
      assert Starts(n)[..k] == Starts(k);
      DeepNesting(k);
    }
  }

  ghost predicate NoOverflow(events: seq<Event>) {
    forall k, c :: 0 <= k <= |events| ==> Nesting(events[..k], c) < TWO_TO_THE_32
  }

  lemma NoOverflowBefore(events: seq<Event>)
    requires NoOverflow(events) && events != []
    ensures NoOverflow(events[..|events| - 1])
    ensures forall c :: Nesting(events, c) < TWO_TO_THE_32
  {
    var before := events[..|events| - 1];
    forall k, c | 0 <= k <= |before|
      ensures Nesting(before[..k], c) < TWO_TO_THE_32
    {
      assert before[..k] == events[..k];
    }
    assert events[..|events|] == events;
  }

  lemma DepthCounts(s: Markers, e: Event, c: Class)
    requires NestingAfter(s.Depth(c), c, e) < TWO_TO_THE_32
    ensures Step(s, e).Depth(c) == NestingAfter(s.Depth(c), c, e)
  {
  }

  lemma NotWrapping(s: Markers, e: Event)
    requires forall c :: NestingAfter(s.Depth(c), c, e) < TWO_TO_THE_32
    ensures !WrapsUncovered(s, e)
  {
    if e.Start? { assert NestingAfter(s.Depth(ClassOf(e.operation)), ClassOf(e.operation), e) < TWO_TO_THE_32; }
  }

  /** Without overflow the depths count what is running. */
  lemma {:induction false} DepthsCount(events: seq<Event>)
    requires NoOverflow(events)
    ensures forall c :: After(Idle, events).Depth(c) == Nesting(events, c)
    ensures After(Idle, events).PinsMatch()
  {
    if events != [] {
      hide NestingAfter, Step, NoOverflow, WrapsUncovered;
      var before, e := events[..|events| - 1], events[|events| - 1];
      NoOverflowBefore(events);
      DepthsCount(before);
      var s := After(Idle, before);
      forall c: Class
        ensures NestingAfter(s.Depth(c), c, e) < TWO_TO_THE_32
        ensures Step(s, e).Depth(c) == Nesting(events, c)
      {
        assert s.Depth(c) == Nesting(before, c) && Nesting(events, c) < TWO_TO_THE_32;
        DepthCounts(s, e, c);
      }
      NotWrapping(s, e);
      StepKeepsPins(s, e);
    }
  }

  ghost predicate DepthsAreNesting(events: seq<Event>) {
    forall k, c :: 0 <= k <= |events| ==> Nesting(events[..k], c) == After(Idle, events[..k]).Depth(c)
  }

  /** The depths count what is running, after every call, exactly if no class nests too deep for its counter. */
  lemma DepthsCountIffNoOverflow(events: seq<Event>)
    ensures DepthsAreNesting(events) <==> NoOverflow(events)
  {
    hide After, Nesting;
    if NoOverflow(events) {
      forall k, c | 0 <= k <= |events|
        ensures Nesting(events[..k], c) == After(Idle, events[..k]).Depth(c)
      {
        assert forall l :: 0 <= l <= k ==> events[..k][..l] == events[..l];
        DepthsCount(events[..k]);
      }
    }
  }

  /**
    Over a whole run D5 is high exactly while a key exchange runs, and D4 while a classical one or a
    signature does.
   */
  lemma PinsShowWhatRuns(events: seq<Event>)
    requires NoOverflow(events)
    ensures var pins := After(Idle, events).pins;
            && (pins.d5 <==> MlKem in Running(events) || ClassicalKex in Running(events))
            && (pins.d4 <==> ClassicalKex in Running(events) || Signature in Running(events))
  {
    hide After, Nesting, NoOverflow;
    DepthsCount(events);
    var s := After(Idle, events);
    assert s.Depth(MlKem) == Nesting(events, MlKem);
    assert s.Depth(ClassicalKex) == Nesting(events, ClassicalKex);
    assert s.Depth(Signature) == Nesting(events, Signature);
  }

  // ----- what the host makes of the pins

  /** The mask the profiler samples: D7 is bit 7. */
  function Mask(pins: Pins): bv8 {
    (if pins.d7 then 0x80 else 0) | (if pins.d6 then 0x40 else 0)
    | (if pins.d5 then 0x20 else 0) | (if pins.d4 then 0x10 else 0)
  }

  datatype Kind = TotalExecution | Handshake | ClientKem | MlKemWindow | ClassicalKexWindow | ClientSignature

  function Bit(mask: bv8, weight: bv8): bool {
    mask & weight != 0
  }

  predicate IsActive(w: Kind, mask: bv8) {
    match w
    case TotalExecution => Bit(mask, 0x80)
    case Handshake => Bit(mask, 0x40)
    case ClientKem => Bit(mask, 0x20)
    case MlKemWindow => Bit(mask, 0x20) && !Bit(mask, 0x10)
    case ClassicalKexWindow => Bit(mask, 0x20) && Bit(mask, 0x10)
    case ClientSignature => Bit(mask, 0x10) && !Bit(mask, 0x20)
  }

  function KindOf(c: Class): Kind {
    match c
    case MlKem => MlKemWindow
    case ClassicalKex => ClassicalKexWindow
    case Signature => ClientSignature
  }

  /** The classes the host takes a mask to show. */
  function Shown(mask: bv8): set<Class> {
    set c: Class | IsActive(KindOf(c), mask)
  }

  lemma MaskBits(pins: Pins)
    ensures Bit(Mask(pins), 0x80) == pins.d7 && Bit(Mask(pins), 0x40) == pins.d6
    ensures Bit(Mask(pins), 0x20) == pins.d5 && Bit(Mask(pins), 0x10) == pins.d4
    ensures Mask(pins) % 16 == 0
  {
  }

  /** The host's predicates in terms of the bits of a mask, counted from the low end. */
  lemma KindsOfMask(mask: bv8)
    ensures IsActive(TotalExecution, mask) <==> (mask >> 7) % 2 == 1
    ensures IsActive(Handshake, mask) <==> (mask >> 6) % 2 == 1
    ensures IsActive(ClientKem, mask) <==> (mask >> 5) % 2 == 1
    ensures IsActive(MlKemWindow, mask) <==> (mask >> 4) % 4 == 2
    ensures IsActive(ClassicalKexWindow, mask) <==> (mask >> 4) % 4 == 3
    ensures IsActive(ClientSignature, mask) <==> (mask >> 4) % 4 == 1
  {}

  /** Call `k` is `on`, and behind it come neither `off` nor a reset. */
  ghost predicate OnSince(events: seq<Event>, on: Event, off: Event, k: nat) {
    k < |events| && events[k] == on && forall j :: k < j < |events| ==> events[j] != off && events[j] != Reset
  }

  ghost predicate IsOn(events: seq<Event>, on: Event, off: Event) {
    exists k :: OnSince(events, on, off, k)
  }

  lemma OnSinceStep(events: seq<Event>, on: Event, off: Event, k: nat)
    requires events != [] && k < |events| - 1
    ensures var last := events[|events| - 1];
            OnSince(events, on, off, k) <==>
              OnSince(events[..|events| - 1], on, off, k) && last != off && last != Reset
  {}

  lemma IsOnStep(events: seq<Event>, on: Event, off: Event)
    requires events != [] && on != off && on != Reset
    ensures var last := events[|events| - 1];
            IsOn(events, on, off) <==>
              last == on || (last != off && last != Reset && IsOn(events[..|events| - 1], on, off))
  {
    var n := |events| - 1;
    if events[n] == on {
      assert OnSince(events, on, off, n);
    } else if IsOn(events, on, off) {
      var k :| OnSince(events, on, off, k);
      OnSinceStep(events, on, off, k);
    } else if IsOn(events[..n], on, off) {
      var k :| OnSince(events[..n], on, off, k);
      OnSinceStep(events, on, off, k);
    }
  }

  /** Over any run D7 marks the execution and D6 the handshake, as the last call since the last reset has set them. */
  lemma {:induction false} HostNamesExecution(events: seq<Event>)
    ensures var mask := Mask(After(Idle, events).pins);
            && (IsActive(TotalExecution, mask) <==> IsOn(events, SetTotal(true), SetTotal(false)))
            && (IsActive(Handshake, mask) <==> IsOn(events, SetHandshake(true), SetHandshake(false)))
  {
    hide Mask, Bit, IsOn, Started, Stopped;
    MaskBits(After(Idle, events).pins);
    if events == [] {
      NeverOn();
    } else {
      var n := |events| - 1;
      HostNamesExecution(events[..n]);
      MaskBits(After(Idle, events[..n]).pins);
      IsOnStep(events, SetTotal(true), SetTotal(false));
      IsOnStep(events, SetHandshake(true), SetHandshake(false));
      StepPins(After(Idle, events[..n]), events[n]);
    }
  }

  lemma NeverOn()
    ensures forall on, off :: !IsOn([], on, off)
  {}

  lemma StepPins(s: Markers, e: Event)
    ensures Step(s, e).pins.d7 <==> e == SetTotal(true) || (e != SetTotal(false) && e != Reset && s.pins.d7)
    ensures Step(s, e).pins.d6 <==> e == SetHandshake(true) || (e != SetHandshake(false) && e != Reset && s.pins.d6)
  {}

  /** The key exchange window splits into its ML-KEM and its classical part. */
  lemma KexSplits(mask: bv8)
    ensures IsActive(ClientKem, mask) <==> IsActive(MlKemWindow, mask) || IsActive(ClassicalKexWindow, mask)
    ensures !(IsActive(MlKemWindow, mask) && IsActive(ClassicalKexWindow, mask))
  {
  }

  ghost predicate AtMostOne(classes: set<Class>) {
    forall c, d :: c in classes && d in classes ==> c == d
  }

  /** The classes the counters say are running. */
  function Counted(s: Markers): set<Class> {
    set c: Class | s.Depth(c) > 0
  }

  lemma SameClasses(a: set<Class>, b: set<Class>)
    ensures a == b
       <==> && (MlKem in a <==> MlKem in b)
            && (ClassicalKex in a <==> ClassicalKex in b)
            && (Signature in a <==> Signature in b)
  {
    if && (MlKem in a <==> MlKem in b)
       && (ClassicalKex in a <==> ClassicalKex in b)
       && (Signature in a <==> Signature in b) {
      forall c: Class
        ensures c in a <==> c in b
      {
        match c
        case MlKem =>
        case ClassicalKex =>
        case Signature =>
      }
    }
  }

  /**
    In any state the host names exactly the counted classes if and only if the pins follow the
    counters and at most one class is counted.
   */
  lemma HostNamesWhatIsCounted(s: Markers)
    ensures Shown(Mask(s.pins)) == Counted(s) <==> s.PinsMatch() && AtMostOne(Counted(s))
    ensures s.PinsMatch() ==> (IsActive(ClientKem, Mask(s.pins)) <==> MlKem in Counted(s) || ClassicalKex in Counted(s))
  {
    hide Mask, Bit;
    MaskBits(s.pins);
    var shown, counted := Shown(Mask(s.pins)), Counted(s);
    assert MlKem in shown <==> s.pins.d5 && !s.pins.d4;
    assert ClassicalKex in shown <==> s.pins.d5 && s.pins.d4;
    assert Signature in shown <==> s.pins.d4 && !s.pins.d5;
    assert AtMostOne(shown);
    assert MlKem in counted <==> s.mlkem > 0;
    assert ClassicalKex in counted <==> s.classical > 0;
    assert Signature in counted <==> s.signature > 0;
    SameClasses(shown, counted);
  }

  /**
    Over any run the host names every mask right if and only if at most one class is counted at a
    time and no counter wraps.
   */
  lemma HostNamesEveryMask(events: seq<Event>)
    ensures (forall k :: 0 <= k <= |events| ==>
               Shown(Mask(After(Idle, events[..k]).pins)) == Counted(After(Idle, events[..k])))
       <==> NeverWraps(events) && forall k :: 0 <= k <= |events| ==> AtMostOne(Counted(After(Idle, events[..k])))
  {
    hide After, Mask, NeverWraps, Counted, Shown, AtMostOne;
    PinsFollowUnlessWraps(events);
    forall k | 0 <= k <= |events|
      ensures var s := After(Idle, events[..k]);
              Shown(Mask(s.pins)) == Counted(s) <==> s.PinsMatch() && AtMostOne(Counted(s))
    {
      HostNamesWhatIsCounted(After(Idle, events[..k]));
    }
  }

  /** What is counted is what runs, as long as no class nests too deep for its counter. */
  lemma HostNamesWhatRuns(events: seq<Event>)
    requires NoOverflow(events)
    ensures var mask := Mask(After(Idle, events).pins);
            && (Shown(mask) == Running(events) <==> AtMostOne(Running(events)))
            && (IsActive(ClientKem, mask) <==> MlKem in Running(events) || ClassicalKex in Running(events))
  {
    hide After, Nesting, NoOverflow, Mask, Shown, IsActive, AtMostOne;
    DepthsCount(events);
    var s := After(Idle, events);
    HostNamesWhatIsCounted(s);
    assert Counted(s) == Running(events);
  }

  // ----- the firmware

  class Gpio {
    var ready: bool
    var mlkem: uint32
    var classical: uint32
    var signature: uint32
    var d7: bool
    var d6: bool
    var d5: bool
    var d4: bool

    constructor ()
      ensures !ready && State() == Idle
    {
      ready, mlkem, classical, signature := false, 0, 0, 0;
      d7, d6, d5, d4 := false, false, false, false;
    }

    function State(): Markers
      reads this
    {
      Markers(mlkem, classical, signature, Pins(d7, d6, d5, d4))
    }

    method Init(deviceIsReady: bool)
      modifies this
      ensures ready == (old(ready) || deviceIsReady)
      ensures State() == if deviceIsReady then old(State()).(pins := Idle.pins) else old(State())
    {
      if !deviceIsReady { return; }
      d7, d6, d5, d4 := false, false, false, false;
      ready := true;
    }

    method DoReset()
      modifies this
      ensures ready == old(ready)
      ensures State() == if ready then Step(old(State()), Reset) else old(State())
    {
      if !ready { return; }
      mlkem, classical, signature := 0, 0, 0;
      d7, d6, d5, d4 := false, false, false, false;
    }

    method TotalSet(active: bool)
      modifies this
      ensures ready == old(ready)
      ensures State() == if ready then Step(old(State()), SetTotal(active)) else old(State())
    {
      if ready { d7 := active; }
    }

    method HandshakeSet(active: bool)
      modifies this
      ensures ready == old(ready)
      ensures State() == if ready then Step(old(State()), SetHandshake(active)) else old(State())
    {
      if ready { d6 := active; }
    }

    method CryptoStart(operation: Operation)
      modifies this
      ensures ready == old(ready)
      ensures State() == if ready then Step(old(State()), Start(operation)) else old(State())
      ensures old(State()).PinsMatch() ==>
                State().PinsMatch() || (ready && WrapsUncovered(old(State()), Start(operation)))
    {
      if !ready { return; }
      ghost var before := State();
      var c := ClassOf(operation);
      if c == MlKem {
        if mlkem == 0 { d5 := true; }
        mlkem := Increment(mlkem);
      } else if c == ClassicalKex {
        if classical == 0 { d5, d4 := true, true; }
        classical := Increment(classical);
      } else {
        if signature == 0 { d4 := true; }
        signature := Increment(signature);
      }
      if before.PinsMatch() { StartKeepsPins(before, operation); }
    }

    method CryptoStop(operation: Operation)
      modifies this
      ensures ready == old(ready)
      ensures State() == if ready then Step(old(State()), Stop(operation)) else old(State())
      ensures old(State()).PinsMatch() ==> State().PinsMatch()
    {
      hide Markers.PinsMatch;
      if !ready { return; }
      ghost var before := State();
      var c := ClassOf(operation);
      if c == MlKem {
        if mlkem > 0 {
          mlkem := mlkem - 1;
          if mlkem == 0 && classical == 0 { d5 := false; }
        }
      } else if c == ClassicalKex {
        if classical > 0 {
          classical := classical - 1;
          if classical == 0 {
            if mlkem == 0 { d5 := false; }
            if signature == 0 { d4 := false; }
          }
        }
      } else if signature > 0 {
        signature := signature - 1;
        if signature == 0 && classical == 0 { d4 := false; }
      }
      if before.PinsMatch() { StopKeepsPins(before, c); }
    }
  }
}
