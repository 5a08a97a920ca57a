/**
  Power windows: the host integrates the measured current while a marker is high, sample by sample,
  and adds up the pulses that lie inside one execution.
 */
module PowerWindows {
  import opened PowerMarkers

  datatype Sample = Sample(current: real, mask: bv8)

  /** A pulse from sample `start` up to, not including, sample `end`. */
  datatype PowerWindow = PowerWindow(start: nat, end: nat, count: nat, sum: real, peak: real)

  datatype Pulse = Low | High(start: nat, count: nat, sum: real, peak: real)

  predicate Active(samples: seq<Sample>, k: Kind, i: int) {
    0 <= i < |samples| && IsActive(k, samples[i].mask)
  }

  function Max(x: real, y: real): real {
    if x < y then y else x
  }

  function CurrentSum(samples: seq<Sample>, a: nat, b: nat): real
    requires a <= b <= |samples|
  {
    if a == b then 0.0 else CurrentSum(samples, a, b - 1) + samples[b - 1].current
  }

  function CurrentPeak(samples: seq<Sample>, a: nat, b: nat): real
    requires a < b <= |samples|
  {
    if a + 1 == b then samples[a].current else Max(CurrentPeak(samples, a, b - 1), samples[b - 1].current)
  }

  /** The greatest current of the samples from `a` up to `b`. */
  ghost predicate IsPeak(samples: seq<Sample>, a: nat, b: nat, peak: real) {
    && a < b <= |samples|
    && (exists i :: a <= i < b && samples[i].current == peak)
    && (forall i :: a <= i < b ==> samples[i].current <= peak)
  }

  lemma {:induction false} PeakIsGreatest(samples: seq<Sample>, a: nat, b: nat)
    requires a < b <= |samples|
    ensures IsPeak(samples, a, b, CurrentPeak(samples, a, b))
  {
    if a + 1 < b {
      PeakIsGreatest(samples, a, b - 1);
      var before, last := CurrentPeak(samples, a, b - 1), samples[b - 1].current;
      var i :| a <= i < b - 1 && samples[i].current == before;
      assert samples[if before < last then b - 1 else i].current == CurrentPeak(samples, a, b);
    } else {
      assert samples[a].current == CurrentPeak(samples, a, b);
    }
  }

  /** The current of one sample is its own, and that of two stretches adds up. */
  lemma {:induction false} SumSplits(samples: seq<Sample>, a: nat, b: nat, c: nat)
    requires a <= b <= c <= |samples|
    ensures CurrentSum(samples, a, c) == CurrentSum(samples, a, b) + CurrentSum(samples, b, c)
    ensures a < |samples| ==> CurrentSum(samples, a, a + 1) == samples[a].current
  {
    if b < c { SumSplits(samples, a, b, c - 1); }
  }

  // ----- what a capture shall find

  /** Samples `a` up to `b` are active and the run cannot be extended either way. */
  ghost predicate IsRun(samples: seq<Sample>, k: Kind, a: nat, b: nat) {
    && a < b <= |samples|
    && (forall i :: a <= i < b ==> Active(samples, k, i))
    && !Active(samples, k, a - 1)
    && !Active(samples, k, b)
  }

  ghost predicate IsPulse(samples: seq<Sample>, k: Kind, pulse: Pulse) {
    match pulse
    case Low => !Active(samples, k, |samples| - 1)
    case High(start, count, sum, peak) =>
      && IsRun(samples, k, start, |samples|)
      && count == |samples| - start
      && sum == CurrentSum(samples, start, |samples|)
      && peak == CurrentPeak(samples, start, |samples|)
  }

  ghost predicate IsWindow(samples: seq<Sample>, k: Kind, w: PowerWindow) {
    && IsRun(samples, k, w.start, w.end) && w.end < |samples|
    && w.count == w.end - w.start
    && w.sum == CurrentSum(samples, w.start, w.end)
    && w.peak == CurrentPeak(samples, w.start, w.end)
  }

  ghost predicate Ordered(windows: seq<PowerWindow>) {
    forall i, j :: 0 <= i < j < |windows| ==> windows[i].end < windows[j].start
  }

  ghost predicate Has(windows: seq<PowerWindow>, a: nat, b: nat) {
    exists j :: 0 <= j < |windows| && windows[j].start == a && windows[j].end == b
  }

  /** The windows are exactly the runs that have ended, in order. */
  ghost predicate AreEndedRuns(samples: seq<Sample>, k: Kind, windows: seq<PowerWindow>) {
    && (forall j :: 0 <= j < |windows| ==> IsWindow(samples, k, windows[j]))
    && (forall a: nat, b: nat :: IsRun(samples, k, a, b) && b < |samples| ==> Has(windows, a, b))
    && Ordered(windows)
  }

  // ----- one sample at a time

  datatype Track = Track(pulse: Pulse, completed: seq<PowerWindow>)

  function Advance(t: Track, wasHigh: bool, high: bool, index: nat, current: real): Track {
    var pulse := if high && !wasHigh then High(index, 0, 0.0, current) else t.pulse;
    if pulse.Low? then t
    else if high then t.(pulse := High(pulse.start, pulse.count + 1, pulse.sum + current, Max(pulse.peak, current)))
    else if wasHigh then Track(Low, t.completed + [PowerWindow(pulse.start, index, pulse.count, pulse.sum, pulse.peak)])
    else t
  }

  function TrackOf(samples: seq<Sample>, k: Kind): Track {
    if samples == [] then Track(Low, []) else
    var n := |samples| - 1;
    Advance(TrackOf(samples[..n], k), Active(samples, k, n - 1), Active(samples, k, n), n, samples[n].current)
  }

  lemma {:induction false} SumPrefix(samples: seq<Sample>, n: nat, a: nat, b: nat)
    requires a <= b <= n <= |samples|
    ensures CurrentSum(samples[..n], a, b) == CurrentSum(samples, a, b)
    ensures a < b ==> CurrentPeak(samples[..n], a, b) == CurrentPeak(samples, a, b)
  {
    if a < b { SumPrefix(samples, n, a, b - 1); }
  }

  /** A run that had ended before the last sample is a run, and there are no others but one ending there. */
  lemma RunPrefix(samples: seq<Sample>, k: Kind, a: nat, b: nat)
    requires samples != []
    ensures var n := |samples| - 1; b < n ==> (IsRun(samples[..n], k, a, b) <==> IsRun(samples, k, a, b))
    ensures var n := |samples| - 1; IsRun(samples, k, a, n) <==> IsRun(samples[..n], k, a, n) && !Active(samples, k, n)
  {
    var n := |samples| - 1;
    assert forall i :: i < n ==> (Active(samples[..n], k, i) <==> Active(samples, k, i));
    if IsRun(samples, k, a, n) {
      forall i | a <= i < n
        ensures Active(samples[..n], k, i)
      {
        assert Active(samples, k, i);
      }
    }
  }

  lemma WindowPrefix(samples: seq<Sample>, k: Kind, w: PowerWindow)
    requires samples != [] && IsWindow(samples[..|samples| - 1], k, w)
    ensures IsWindow(samples, k, w)
  {
    RunPrefix(samples, k, w.start, w.end);
    SumPrefix(samples, |samples| - 1, w.start, w.end);
  }

  lemma {:induction false} PulseIsRun(samples: seq<Sample>, k: Kind)
    ensures IsPulse(samples, k, TrackOf(samples, k).pulse)
  {
    if samples != [] {
      var n := |samples| - 1;
      PulseIsRun(samples[..n], k);
      var pulse, now := TrackOf(samples[..n], k).pulse, TrackOf(samples, k).pulse;
      assert Active(samples[..n], k, n - 1) == Active(samples, k, n - 1);
      if now.High? {
        assert Active(samples, k, n);
        SumPrefix(samples, n, now.start, n);
        forall i | now.start <= i < n
          ensures Active(samples, k, i)
        {
          assert Active(samples[..n], k, i);
        }
        assert !Active(samples[..n], k, now.start - 1);
      }
    }
  }

  lemma {:induction false} CompletedAreRuns(samples: seq<Sample>, k: Kind)
    ensures AreEndedRuns(samples, k, TrackOf(samples, k).completed)
  {
    if samples != [] {
      var n := |samples| - 1;
      var before := samples[..n];
      CompletedAreRuns(before, k);
      PulseIsRun(before, k);
      assert Active(before, k, n - 1) == Active(samples, k, n - 1);
      var t, windows := TrackOf(before, k), TrackOf(samples, k).completed;
      forall j | 0 <= j < |t.completed|
        ensures IsWindow(samples, k, t.completed[j])
      {
        WindowPrefix(samples, k, t.completed[j]);
      }
      if t.pulse.High? && !Active(samples, k, n) {
        RunPrefix(samples, k, t.pulse.start, n);
        SumPrefix(samples, n, t.pulse.start, n);
        OrderedAppend(before, k, t.completed, windows[|t.completed|]);
        assert Has(windows, t.pulse.start, n);
      }
      forall a: nat, b: nat | IsRun(samples, k, a, b) && b <= n
        ensures Has(windows, a, b)
      {
        EndedRun(samples, k, a, b);
      }
    }
  }

  lemma OrderedAppend(before: seq<Sample>, k: Kind, windows: seq<PowerWindow>, w: PowerWindow)
    requires AreEndedRuns(before, k, windows) && IsRun(before, k, w.start, |before|)
    ensures Ordered(windows + [w])
  {
    forall i | 0 <= i < |windows|
      ensures windows[i].end < w.start
    {
      var v := windows[i];
      assert IsWindow(before, k, v);
      assert !Active(before, k, v.end) && Active(before, k, v.end - 1);
      assert Active(before, k, w.start);
    }
  }

  lemma EndedRun(samples: seq<Sample>, k: Kind, a: nat, b: nat)
    requires samples != [] && IsRun(samples, k, a, b) && b < |samples|
    requires AreEndedRuns(samples[..|samples| - 1], k, TrackOf(samples[..|samples| - 1], k).completed)
    ensures Has(TrackOf(samples, k).completed, a, b)
  {
    var n := |samples| - 1;
    var t, windows := TrackOf(samples[..n], k), TrackOf(samples, k).completed;
    RunPrefix(samples, k, a, b);
    if b < n {
      assert Has(t.completed, a, b);
      var j :| 0 <= j < |t.completed| && t.completed[j].start == a && t.completed[j].end == b;
      assert windows[j] == t.completed[j];
    } else {
      PulseIsRun(samples[..n], k);
      assert Active(samples[..n], k, n - 1);
      SameRun(samples[..n], k, a, t.pulse.start, n);
      assert windows[|t.completed|].start == a;
    }
  }

  lemma SameRun(samples: seq<Sample>, k: Kind, a: nat, a': nat, b: nat)
    requires IsRun(samples, k, a, b) && IsRun(samples, k, a', b)
    ensures a == a'
  {
    assert !Active(samples, k, a - 1) && !Active(samples, k, a' - 1);
    assert a < a' ==> a <= a' - 1 < b;
  }

  /** The peaks of the windows and of the open one are the greatest currents within them. */
  ghost predicate HasPeaks(samples: seq<Sample>, t: Track) {
    && (forall j :: 0 <= j < |t.completed| ==>
          IsPeak(samples, t.completed[j].start, t.completed[j].end, t.completed[j].peak))
    && (t.pulse.High? ==> IsPeak(samples, t.pulse.start, |samples|, t.pulse.peak))
  }

  /** After any samples the completed windows and the open one are exactly the maximal runs of active samples. */
  lemma TracksAreRuns(samples: seq<Sample>, k: Kind)
    ensures IsPulse(samples, k, TrackOf(samples, k).pulse)
    ensures AreEndedRuns(samples, k, TrackOf(samples, k).completed)
    ensures HasPeaks(samples, TrackOf(samples, k))
  {
    PulseIsRun(samples, k);
    CompletedAreRuns(samples, k);
    RunsHavePeaks(samples, k, TrackOf(samples, k));
  }

  lemma RunsHavePeaks(samples: seq<Sample>, k: Kind, t: Track)
    requires IsPulse(samples, k, t.pulse) && AreEndedRuns(samples, k, t.completed)
    ensures HasPeaks(samples, t)
  {
    hide IsPeak, CurrentPeak, CurrentSum, Active;
    forall j | 0 <= j < |t.completed|
      ensures IsPeak(samples, t.completed[j].start, t.completed[j].end, t.completed[j].peak)
    {
      assert IsWindow(samples, k, t.completed[j]);
      PeakIsGreatest(samples, t.completed[j].start, t.completed[j].end);
    }
    if t.pulse.High? { PeakIsGreatest(samples, t.pulse.start, |samples|); }
  }

  // ----- conservation

  /** Samples and the current added up over them. */
  datatype Charge = Charge(count: nat, sum: real) {
    function Plus(other: Charge): Charge {
      Charge(count + other.count, sum + other.sum)
    }
  }

  function Total(windows: seq<PowerWindow>): Charge {
    if windows == [] then Charge(0, 0.0) else
    var last := windows[|windows| - 1];
    Total(windows[..|windows| - 1]).Plus(Charge(last.count, last.sum))
  }

  function Contained(windows: seq<PowerWindow>, a: nat, b: nat): seq<PowerWindow> {
    if windows == [] then [] else
    var last := windows[|windows| - 1];
    Contained(windows[..|windows| - 1], a, b) + if a <= last.start && last.end <= b then [last] else []
  }

  /** What flows during the active samples from `a` up to `b`. */
  function ActiveCharge(samples: seq<Sample>, k: Kind, a: nat, b: nat): Charge
    requires b <= |samples|
    decreases b
  {
    if b <= a then Charge(0, 0.0) else
    ActiveCharge(samples, k, a, b - 1).Plus(ChargeAt(samples[b - 1], k))
  }

  function ChargeAt(s: Sample, k: Kind): Charge {
    if IsActive(k, s.mask) then Charge(1, s.current) else Charge(0, 0.0)
  }

  lemma ActiveStep(samples: seq<Sample>, k: Kind, a: nat, b: nat)
    requires a < b <= |samples|
    ensures ActiveCharge(samples, k, a, b) == ActiveCharge(samples, k, a, b - 1).Plus(ChargeAt(samples[b - 1], k))
  {
    hide ChargeAt;
  }

  lemma ActiveNone(samples: seq<Sample>, k: Kind, a: nat, b: nat)
    requires b <= a && b <= |samples|
    ensures ActiveCharge(samples, k, a, b) == Charge(0, 0.0)
  {}

  /** No run is cut at `p`. */
  ghost predicate NotCut(samples: seq<Sample>, k: Kind, p: nat) {
    !(Active(samples, k, p - 1) && Active(samples, k, p))
  }

  lemma {:induction false} ActivePrefix(samples: seq<Sample>, k: Kind, n: nat, a: nat, b: nat)
    requires b <= n <= |samples|
    ensures ActiveCharge(samples[..n], k, a, b) == ActiveCharge(samples, k, a, b)
    decreases b
  {
    hide ActiveCharge, ChargeAt;
    if a < b {
      ActivePrefix(samples, k, n, a, b - 1);
      ActiveStep(samples, k, a, b);
      ActiveStep(samples[..n], k, a, b);
    } else {
      ActiveNone(samples, k, a, b);
      ActiveNone(samples[..n], k, a, b);
    }
  }

  /** Up to the end of a run the charge is what came before plus the run. */
  lemma {:induction false} ChargeOfRun(samples: seq<Sample>, k: Kind, a: nat, start: nat, b: nat)
    requires a <= start <= b <= |samples| && forall i :: start <= i < b ==> Active(samples, k, i)
    ensures ActiveCharge(samples, k, a, b)
         == ActiveCharge(samples, k, a, start).Plus(Charge(b - start, CurrentSum(samples, start, b)))
    decreases b
  {
    hide ActiveCharge, IsActive;
    if start < b {
      ChargeOfRun(samples, k, a, start, b - 1);
      ActiveStep(samples, k, a, b);
      assert Active(samples, k, b - 1);
    }
  }

  function Min(a: nat, b: nat): nat {
    if a < b then a else b
  }

  /** Where the completed windows end: at the open window, or at the last sample. */
  function Settled(samples: seq<Sample>, k: Kind): nat {
    var pulse := TrackOf(samples, k).pulse;
    if pulse.High? then pulse.start else |samples|
  }

  lemma ContainedAppend(windows: seq<PowerWindow>, w: PowerWindow, a: nat, b: nat)
    ensures Total(Contained(windows + [w], a, b))
         == Total(Contained(windows, a, b)).Plus(
              if a <= w.start && w.end <= b then Charge(w.count, w.sum) else Charge(0, 0.0))
  {
    assert (windows + [w])[..|windows|] == windows;
    var before := Contained(windows, a, b);
    assert (before + [w])[..|before|] == before;
    assert before + [] == before;
  }

  lemma SettledInside(samples: seq<Sample>, k: Kind)
    ensures Settled(samples, k) <= |samples|
  {
    PulseIsRun(samples, k);
  }

  /** The contained windows carry what flows during the active samples between `a` and `b`, if no run is cut there. */
  lemma {:induction false} ContainedCharge(samples: seq<Sample>, k: Kind, a: nat, b: nat)
    requires NotCut(samples, k, a) && NotCut(samples, k, b)
    ensures Settled(samples, k) <= |samples|
    ensures Total(Contained(TrackOf(samples, k).completed, a, b))
         == ActiveCharge(samples, k, a, Min(b, Settled(samples, k)))
  {
    hide IsPulse, IsActive, ActiveCharge, Contained, Total, NotCut;
    SettledInside(samples, k);
    if samples == [] {
      ActiveNone(samples, k, a, 0);
      NoWindows(a, b);
    } else {
      var n := |samples| - 1;
      var before := samples[..n];
      NotCutBefore(samples, k, a);
      NotCutBefore(samples, k, b);
      ContainedCharge(before, k, a, b);
      ActivePrefix(samples, k, n, a, Min(b, Settled(before, k)));
      PulseMeans(before, k);
      assert Active(before, k, n - 1) == Active(samples, k, n - 1);
      if TrackOf(before, k).pulse.High? && !Active(samples, k, n) {
        ClosingCharge(samples, k, a, b);
      } else if !Active(samples, k, n) {
        IdleCharge(samples, k, a, b);
      }
    }
  }

  lemma NoWindows(a: nat, b: nat)
    ensures Total(Contained([], a, b)) == Charge(0, 0.0)
  {}

  /** Nothing flows during an inactive sample. */
  lemma IdleCharge(samples: seq<Sample>, k: Kind, a: nat, b: nat)
    requires samples != [] && !Active(samples, k, |samples| - 1)
    ensures ActiveCharge(samples, k, a, Min(b, |samples|)) == ActiveCharge(samples, k, a, Min(b, |samples| - 1))
  {
    hide ActiveCharge, IsActive;
    var n := |samples|;
    if a < n <= b {
      ActiveStep(samples, k, a, n);
    } else if n <= b {
      ActiveNone(samples, k, a, n);
      ActiveNone(samples, k, a, n - 1);
    }
  }

  lemma PulseMeans(samples: seq<Sample>, k: Kind)
    ensures TrackOf(samples, k).pulse.High? <==> Active(samples, k, |samples| - 1)
  {
    PulseIsRun(samples, k);
  }

  lemma NotCutBefore(samples: seq<Sample>, k: Kind, p: nat)
    requires samples != [] && NotCut(samples, k, p)
    ensures NotCut(samples[..|samples| - 1], k, p)
  {}

  /** The window that a closing run adds. */
  lemma ClosingWindow(samples: seq<Sample>, k: Kind) returns (w: PowerWindow)
    requires samples != [] && TrackOf(samples[..|samples| - 1], k).pulse.High? && !Active(samples, k, |samples| - 1)
    ensures var t := TrackOf(samples[..|samples| - 1], k);
            && TrackOf(samples, k).completed == t.completed + [w]
            && TrackOf(samples, k).pulse.Low?
            && IsWindow(samples, k, w)
            && w.start == t.pulse.start && w.end == |samples| - 1
  {
    hide IsActive;
    var n := |samples| - 1;
    var pulse := TrackOf(samples[..n], k).pulse;
    PulseIsRun(samples[..n], k);
    RunPrefix(samples, k, pulse.start, n);
    SumPrefix(samples, n, pulse.start, n);
    assert Active(samples[..n], k, n - 1) && Active(samples, k, n - 1);
    w := PowerWindow(pulse.start, n, pulse.count, pulse.sum, pulse.peak);
  }

  lemma WindowCharge(samples: seq<Sample>, k: Kind, w: PowerWindow, a: nat)
    requires IsWindow(samples, k, w) && a <= w.start
    ensures ActiveCharge(samples, k, a, w.end) == ActiveCharge(samples, k, a, w.start).Plus(Charge(w.count, w.sum))
  {
    hide ActiveCharge, Active, CurrentSum;
    ChargeOfRun(samples, k, a, w.start, w.end);
  }

  lemma WindowNotCut(samples: seq<Sample>, k: Kind, w: PowerWindow, p: nat)
    requires IsWindow(samples, k, w) && NotCut(samples, k, p)
    ensures w.start < w.end < |samples| && (p <= w.start || w.end <= p)
  {
    hide Active;
    NotInside(samples, k, w.start, w.end, p);
  }

  lemma WindowOutside(samples: seq<Sample>, k: Kind, w: PowerWindow, a: nat, b: nat)
    requires IsWindow(samples, k, w) && NotCut(samples, k, a) && NotCut(samples, k, b)
    requires !(a <= w.start && w.end <= b)
    ensures w.start < w.end < |samples|
    ensures ActiveCharge(samples, k, a, Min(b, w.end)) == ActiveCharge(samples, k, a, Min(b, w.start))
  {
    hide ActiveCharge, IsWindow, NotCut;
    WindowNotCut(samples, k, w, a);
    WindowNotCut(samples, k, w, b);
    if w.start < a {
      ActiveNone(samples, k, a, Min(b, w.start));
      ActiveNone(samples, k, a, Min(b, w.end));
    }
  }

  lemma ClosingCharge(samples: seq<Sample>, k: Kind, a: nat, b: nat)
    requires samples != [] && NotCut(samples, k, a) && NotCut(samples, k, b)
    requires var t := TrackOf(samples[..|samples| - 1], k);
             && t.pulse.High? && !Active(samples, k, |samples| - 1) && t.pulse.start <= |samples|
             && Total(Contained(t.completed, a, b)) == ActiveCharge(samples, k, a, Min(b, t.pulse.start))
    ensures Total(Contained(TrackOf(samples, k).completed, a, b)) == ActiveCharge(samples, k, a, Min(b, |samples|))
  {
    hide Contained, Total, ActiveCharge, Active, Advance, TrackOf, NotCut;
    var w := ClosingWindow(samples, k);
    IdleCharge(samples, k, a, b);
    ContainedAppend(TrackOf(samples[..|samples| - 1], k).completed, w, a, b);
    if a <= w.start && w.end <= b {
      WindowCharge(samples, k, w, a);
    } else {
      WindowOutside(samples, k, w, a, b);
    }
  }

  /** A run is not cut where it may not be. */
  lemma NotInside(samples: seq<Sample>, k: Kind, start: nat, end: nat, p: nat)
    requires IsRun(samples, k, start, end) && NotCut(samples, k, p)
    ensures p <= start || end <= p
  {
    assert start < p < end ==> start <= p - 1 < end;
  }

  /** Between two samples the key exchange current is the ML-KEM current plus the classical one. */
  lemma {:induction false} KexChargeSplits(samples: seq<Sample>, a: nat, b: nat)
    requires b <= |samples|
    ensures ActiveCharge(samples, ClientKem, a, b)
         == ActiveCharge(samples, MlKemWindow, a, b).Plus(ActiveCharge(samples, ClassicalKexWindow, a, b))
    decreases b
  {
    hide ActiveCharge, ChargeAt;
    if a < b {
      KexChargeSplits(samples, a, b - 1);
      KexSampleSplits(samples[b - 1]);
      ActiveStep(samples, ClientKem, a, b);
      ActiveStep(samples, MlKemWindow, a, b);
      ActiveStep(samples, ClassicalKexWindow, a, b);
    } else {
      ActiveNone(samples, ClientKem, a, b);
      ActiveNone(samples, MlKemWindow, a, b);
      ActiveNone(samples, ClassicalKexWindow, a, b);
    }
  }

  lemma KexSampleSplits(s: Sample)
    ensures ChargeAt(s, ClientKem) == ChargeAt(s, MlKemWindow).Plus(ChargeAt(s, ClassicalKexWindow))
  {
    hide IsActive;
    KexSplits(s.mask);
  }

  lemma SettledBeyond(samples: seq<Sample>, k: Kind, b: nat)
    requires b < |samples| && NotCut(samples, k, b)
    ensures b <= Settled(samples, k) <= |samples|
  {
    PulseIsRun(samples, k);
    var pulse := TrackOf(samples, k).pulse;
    assert pulse.High? && pulse.start < b ==> Active(samples, k, b - 1) && Active(samples, k, b);
  }

  /**
    What an execution window `a` to `b` reports for a kind, if it cuts no run, is what flowed while
    that kind was active.
   */
  lemma ContainedIsActive(samples: seq<Sample>, k: Kind, a: nat, b: nat)
    requires b < |samples| && NotCut(samples, k, a) && NotCut(samples, k, b)
    ensures Total(Contained(TrackOf(samples, k).completed, a, b)) == ActiveCharge(samples, k, a, b)
  {
    ContainedCharge(samples, k, a, b);
    SettledBeyond(samples, k, b);
  }

  /**
    Key exchange is conserved: its windows carry as many samples and as much charge as its ML-KEM
    and classical windows.
   */
  lemma KexIsConserved(samples: seq<Sample>, a: nat, b: nat)
    requires b < |samples| && NotCut(samples, ClientKem, a) && NotCut(samples, ClientKem, b)
    ensures Total(Contained(TrackOf(samples, ClientKem).completed, a, b))
         == Total(Contained(TrackOf(samples, MlKemWindow).completed, a, b)).Plus(
              Total(Contained(TrackOf(samples, ClassicalKexWindow).completed, a, b)))
  {
    ContainedIsActive(samples, ClientKem, a, b);
    ContainedIsActive(samples, MlKemWindow, a, b);
    ContainedIsActive(samples, ClassicalKexWindow, a, b);
    KexChargeSplits(samples, a, b);
  }

  // ----- combining pulses

  function LeastStart(windows: seq<PowerWindow>): nat
    requires windows != []
  {
    if |windows| == 1 then windows[0].start else Min(windows[0].start, LeastStart(windows[1..]))
  }

  function GreatestEnd(windows: seq<PowerWindow>): nat
    requires windows != []
  {
    if |windows| == 1 then windows[0].end else
    var rest := GreatestEnd(windows[1..]);
    if windows[0].end < rest then rest else windows[0].end
  }

  function GreatestPeak(windows: seq<PowerWindow>): real
    requires windows != []
  {
    if |windows| == 1 then windows[0].peak else Max(windows[0].peak, GreatestPeak(windows[1..]))
  }

  function Combine(windows: seq<PowerWindow>): PowerWindow
    requires windows != []
  {
    var charge := Total(windows);
    PowerWindow(LeastStart(windows), GreatestEnd(windows), charge.count, charge.sum, GreatestPeak(windows))
  }

  /** The greatest of the windows' peaks. */
  ghost predicate IsGreatestOf(windows: seq<PowerWindow>, peak: real) {
    (exists w <- windows :: w.peak == peak) && forall w <- windows :: w.peak <= peak
  }

  lemma {:induction false} CombinedPeak(windows: seq<PowerWindow>)
    requires windows != []
    ensures IsGreatestOf(windows, Combine(windows).peak)
  {
    if |windows| > 1 {
      CombinedPeak(windows[1..]);
      var w :| w in windows[1..] && w.peak == GreatestPeak(windows[1..]);
      assert w in windows && windows[0] in windows;
      assert forall v <- windows :: v == windows[0] || v in windows[1..];
    } else {
      assert windows[0] in windows;
    }
  }

  ghost predicate AreSolid(windows: seq<PowerWindow>) {
    forall j :: 0 <= j < |windows| ==> windows[j].count == windows[j].end - windows[j].start > 0
  }

  lemma {:induction false} SpanOfOrdered(windows: seq<PowerWindow>)
    requires windows != [] && Ordered(windows) && AreSolid(windows)
    ensures LeastStart(windows) == windows[0].start && GreatestEnd(windows) == windows[|windows| - 1].end
  {
    if |windows| > 1 {
      var rest := windows[1..];
      assert forall j :: 0 <= j < |rest| ==> rest[j] == windows[j + 1];
      SpanOfOrdered(rest);
      assert windows[0].end < windows[1].start && windows[|windows| - 1].end > windows[|windows| - 1].start;
    }
  }

  /** A gap of at least one sample between any two pulses is not charged. */
  lemma {:induction false} GapsNotCharged(windows: seq<PowerWindow>)
    requires windows != [] && Ordered(windows) && AreSolid(windows)
    ensures 0 < Total(windows).count <= windows[|windows| - 1].end - windows[0].start - (|windows| - 1)
    ensures Total(windows).count == windows[|windows| - 1].end - windows[0].start ==> |windows| == 1
  {
    var last := |windows| - 1;
    if last > 0 {
      GapsNotCharged(windows[..last]);
      assert windows[last - 1].end < windows[last].start;
    } else {
      assert windows[..0] == [];
    }
  }

  lemma {:induction false} ContainedOf(windows: seq<PowerWindow>, a: nat, b: nat)
    requires Ordered(windows)
    ensures forall w :: w in Contained(windows, a, b) <==> w in windows && a <= w.start && w.end <= b
    ensures Ordered(Contained(windows, a, b))
  {
    if windows != [] {
      var last := windows[|windows| - 1];
      ContainedOf(windows[..|windows| - 1], a, b);
      assert windows == windows[..|windows| - 1] + [last];
      var before := Contained(windows[..|windows| - 1], a, b);
      forall i | 0 <= i < |before|
        ensures before[i].end < last.start
      {
        assert before[i] in windows[..|windows| - 1];
      }
    }
  }

  // ----- the profiler

  const KINDS: seq<Kind> := [TotalExecution, Handshake, ClientKem, MlKemWindow, ClassicalKexWindow, ClientSignature]

  lemma AllKinds(k: Kind)
    ensures exists i :: 0 <= i < |KINDS| && KINDS[i] == k
  {
    match k
    case TotalExecution => assert KINDS[0] == k;
    case Handshake => assert KINDS[1] == k;
    case ClientKem => assert KINDS[2] == k;
    case MlKemWindow => assert KINDS[3] == k;
    case ClassicalKexWindow => assert KINDS[4] == k;
    case ClientSignature => assert KINDS[5] == k;
  }

  lemma NothingActive(k: Kind)
    ensures !IsActive(k, 0)
  {}

  datatype Measurement =
    | Incomplete
    | Measured(total: PowerWindow, selected: map<Kind, PowerWindow>, transfers: seq<PowerWindow>, success: bool)

  function ChargeOf(selected: map<Kind, PowerWindow>, k: Kind): Charge {
    if k in selected then Charge(selected[k].count, selected[k].sum) else Charge(0, 0.0)
  }

  class Capture {
    var active: map<Kind, Pulse>
    var completed: map<Kind, seq<PowerWindow>>
    var lastMask: bv8
    var sampleIndex: nat
    const transferMode: bool
    ghost var history: seq<Sample>

    function TrackNow(k: Kind): Track
      reads this
      requires k in completed
    {
      Track(if k in active then active[k] else Low, completed[k])
    }

    /** The state is what the samples so far make of it. */
    ghost predicate Valid()
      reads this
    {
      && (forall k :: k in completed && TrackNow(k) == TrackOf(history, k))
      && lastMask == (if history == [] then 0 else history[|history| - 1].mask)
    }

    constructor (transferMode: bool)
      ensures Valid() && history == [] && sampleIndex == 0 && this.transferMode == transferMode
    {
      active := map[];
      completed := map k: Kind | k in KINDS :: [];
      lastMask, sampleIndex := 0, 0;
      this.transferMode := transferMode;
      history := [];
      new;
      forall k: Kind
        ensures k in completed
      {
        AllKinds(k);
      }
    }

    method ProcessSample(index: nat, current: real, mask: bv8)
      requires Valid() && index == |history|
      modifies this`active, this`completed, this`lastMask, this`history
      ensures Valid() && history == old(history) + [Sample(current, mask)]
    {
      hide IsActive, TrackOf, Advance;
      ghost var before, after := history, history + [Sample(current, mask)];
      var i := 0;
      while i < |KINDS|
        invariant 0 <= i <= |KINDS|
        invariant lastMask == old(lastMask) && history == before
        invariant forall k :: k in completed
        invariant forall j :: 0 <= j < i ==> TrackNow(KINDS[j]) == TrackOf(after, KINDS[j])
        invariant forall j :: i <= j < |KINDS| ==> TrackNow(KINDS[j]) == TrackOf(before, KINDS[j])
      {
        var name := KINDS[i];
        OneMoreSample(before, name, Sample(current, mask), lastMask);
        ProcessKind(name, index, current, mask);
        i := i + 1;
      }
      lastMask := mask;
      history := after;
      forall k: Kind
        ensures TrackNow(k) == TrackOf(history, k)
      {
        AllKinds(k);
      }
    }

    /** The loop body: one sample for one kind of window. */
    method ProcessKind(name: Kind, index: nat, current: real, mask: bv8)
      requires forall k :: k in completed
      modifies this`active, this`completed
      ensures forall k :: k in completed
      ensures TrackNow(name)
           == Advance(old(TrackNow(name)), IsActive(name, lastMask), IsActive(name, mask), index, current)
      ensures forall k :: k != name ==> TrackNow(k) == old(TrackNow(k))
    {
      hide IsActive;
      var high := IsActive(name, mask);
      var wasHigh := IsActive(name, lastMask);
      if high && !wasHigh {
        active := active[name := High(index, 0, 0.0, current)];
      }
      if name in active && active[name].High? {
        var state := active[name];
        if high {
          active := active[name := High(state.start, state.count + 1, state.sum + current, Max(state.peak, current))];
        }
        if !high && wasHigh {
          var window := PowerWindow(state.start, index, state.count, state.sum, state.peak);
          completed := completed[name := completed[name] + [window]];
          active := active - {name};
        }
      }
    }

    method CaptureLoop(samples: seq<Sample>)
      requires Valid() && sampleIndex == |history|
      modifies this`active, this`completed, this`lastMask, this`history, this`sampleIndex
      ensures Valid() && sampleIndex == |history| && history == old(history) + samples
      ensures forall k :: IsPulse(history, k, TrackNow(k).pulse) && AreEndedRuns(history, k, completed[k])
      ensures forall k :: HasPeaks(history, TrackNow(k))
    {
      hide IsPulse, AreEndedRuns, HasPeaks;
      for i := 0 to |samples|
        invariant Valid() && sampleIndex == |history| && history == old(history) + samples[..i]
      {
        ProcessSample(sampleIndex, samples[i].current, samples[i].mask);
        sampleIndex := sampleIndex + 1;
      }
      assert samples[..|samples|] == samples;
      forall k: Kind
        ensures IsPulse(history, k, TrackNow(k).pulse) && AreEndedRuns(history, k, completed[k])
        ensures HasPeaks(history, TrackNow(k))
      {
        TracksAreRuns(history, k);
      }
    }

    method Measurements() returns (m: Measurement)
      requires Valid()
      ensures m.Incomplete? <==> completed[TotalExecution] == []
      ensures m.Measured? ==> IsReport(history, completed, m)
      ensures m.Measured? && (!transferMode || completed[Handshake] == []) ==>
        m.total == completed[TotalExecution][|completed[TotalExecution]| - 1] && m.transfers == []
      ensures m.Measured? && transferMode && completed[Handshake] != [] ==>
        && m.total == FirstAround(completed[TotalExecution], completed[Handshake][|completed[Handshake]| - 1])
        && m.transfers == StartingAfter(completed[TotalExecution], m.total.end)
        && AreThoseAfter(m.transfers, completed[TotalExecution], m.total.end)
    {
      hide SoFar, IsReport, Contained, Combine, StartingAfter, IsWindow, AreEndedRuns, IsPulse, TrackOf,
        AreThoseAfter, Ordered, HasPeaks;
      var totals := completed[TotalExecution];
      if totals == [] { return Incomplete; }
      var total := totals[|totals| - 1];
      var transfers: seq<PowerWindow> := [];
      TracksAreRuns(history, TotalExecution);
      LastEndsLast(history, TotalExecution, totals);
      if transferMode && completed[Handshake] != [] {
        var handshake := completed[Handshake][|completed[Handshake]| - 1];
        total := FirstAround(totals, handshake);
        transfers := StartingAfter(totals, total.end);
        RunsAreOrdered(history, TotalExecution, totals);
        StartingAfterOf(totals, total.end);
      }
      var selected: map<Kind, PowerWindow> := map[TotalExecution := total];
      var i := 1;
      SoFarStarts(history, completed, total);
      while i < |KINDS|
        invariant 1 <= i <= |KINDS|
        invariant SoFar(history, completed, total, selected, i)
      {
        var name := KINDS[i];
        var contained := Contained(completed[name], total.start, total.end);
        SoFarStep(history, completed, total, selected, i);
        if contained != [] { selected := selected[name := Combine(contained)]; }
        i := i + 1;
      }
      var ready := Handshake in selected && ClientKem in selected && ClientSignature in selected;
      m := Measured(total, selected, transfers, ready);
      SoFarAll(history, completed, m);
    }
  }

  /**
    What a report says about the samples: each kind's share of the execution window, and the
    conservation of key exchange.
   */
  ghost predicate IsReport(samples: seq<Sample>, completed: map<Kind, seq<PowerWindow>>, m: Measurement)
    requires m.Measured?
  {
    && TotalExecution in completed && m.total in completed[TotalExecution]
    && IsWindow(samples, TotalExecution, m.total) && IsPeak(samples, m.total.start, m.total.end, m.total.peak)
    && (forall k :: k != TotalExecution ==> k in completed && Selected(samples, k, completed[k], m.total, m.selected))
    && (NotCut(samples, ClientKem, m.total.start) && NotCut(samples, ClientKem, m.total.end) ==>
          ChargeOf(m.selected, ClientKem)
            == ChargeOf(m.selected, MlKemWindow).Plus(ChargeOf(m.selected, ClassicalKexWindow)))
    && (m.success <==> Handshake in m.selected && ClientKem in m.selected && ClientSignature in m.selected)
  }

  /** The completed windows are those of the samples. */
  ghost predicate AreCompleted(samples: seq<Sample>, completed: map<Kind, seq<PowerWindow>>) {
    forall k :: k in completed && completed[k] == TrackOf(samples, k).completed
  }

  ghost predicate SoFar(
    samples: seq<Sample>, completed: map<Kind, seq<PowerWindow>>, total: PowerWindow,
    selected: map<Kind, PowerWindow>, i: nat)
  {
    && i <= |KINDS|
    && AreCompleted(samples, completed) && IsWindow(samples, TotalExecution, total)
    && (forall j :: i <= j < |KINDS| ==> KINDS[j] !in selected)
    && (forall j :: 1 <= j < i ==> Selected(samples, KINDS[j], completed[KINDS[j]], total, selected))
  }

  lemma SoFarStarts(samples: seq<Sample>, completed: map<Kind, seq<PowerWindow>>, total: PowerWindow)
    requires AreCompleted(samples, completed) && IsWindow(samples, TotalExecution, total)
    ensures SoFar(samples, completed, total, map[TotalExecution := total], 1)
  {}

  lemma SoFarStep(
    samples: seq<Sample>, completed: map<Kind, seq<PowerWindow>>, total: PowerWindow,
    selected: map<Kind, PowerWindow>, i: nat)
    requires SoFar(samples, completed, total, selected, i) && 1 <= i < |KINDS|
    ensures KINDS[i] in completed
    ensures var contained := Contained(completed[KINDS[i]], total.start, total.end);
            var next := if contained != [] then selected[KINDS[i] := Combine(contained)] else selected;
            SoFar(samples, completed, total, next, i + 1)
  {
    hide IsWindow, Contained, Combine, TrackOf, NotCut, ActiveCharge;
    var k := KINDS[i];
    var contained := Contained(completed[k], total.start, total.end);
    var after := if contained != [] then selected[k := Combine(contained)] else selected;
    SelectedMeans(samples, k, completed[k], total, after);
    forall j | 1 <= j < i
      ensures Selected(samples, KINDS[j], completed[KINDS[j]], total, after)
    {
      assert KINDS[j] != k;
      assert Selected(samples, KINDS[j], completed[KINDS[j]], total, selected);
    }
  }

  lemma SoFarAll(samples: seq<Sample>, completed: map<Kind, seq<PowerWindow>>, m: Measurement)
    requires m.Measured? && SoFar(samples, completed, m.total, m.selected, |KINDS|)
    requires m.total in completed[TotalExecution]
    requires m.success <==> Handshake in m.selected && ClientKem in m.selected && ClientSignature in m.selected
    ensures IsReport(samples, completed, m)
  {
    hide Contained, Combine, TrackOf, NotCut, ActiveCharge, Selected, ChargeOf, IsRun, IsPeak;
    WindowPeak(samples, TotalExecution, m.total);
    forall k: Kind | k != TotalExecution
      ensures k in completed && Selected(samples, k, completed[k], m.total, m.selected)
    {
      AllKinds(k);
    }
    if NotCut(samples, ClientKem, m.total.start) && NotCut(samples, ClientKem, m.total.end) {
      SelectedKex(samples, m.total, m.selected);
    }
  }

  ghost predicate IsInside(w: PowerWindow, windows: seq<PowerWindow>, total: PowerWindow) {
    w in windows && total.start <= w.start && w.end <= total.end
  }

  /** The greatest current during the windows inside the execution window. */
  ghost predicate IsPeakInside(samples: seq<Sample>, windows: seq<PowerWindow>, total: PowerWindow, peak: real) {
    && (exists w, i :: IsInside(w, windows, total) && w.start <= i < w.end <= |samples| && samples[i].current == peak)
    && (forall w, i :: IsInside(w, windows, total) && w.start <= i < w.end <= |samples| ==> samples[i].current <= peak)
  }

  lemma PeakInside(samples: seq<Sample>, windows: seq<PowerWindow>, total: PowerWindow)
    requires Ordered(windows) && Contained(windows, total.start, total.end) != []
    requires forall j :: 0 <= j < |windows| ==> IsPeak(samples, windows[j].start, windows[j].end, windows[j].peak)
    ensures IsPeakInside(samples, windows, total, Combine(Contained(windows, total.start, total.end)).peak)
  {
    hide Contained, Combine, Ordered;
    var contained := Contained(windows, total.start, total.end);
    var peak := Combine(contained).peak;
    ContainedOf(windows, total.start, total.end);
    CombinedPeak(contained);
    assert forall w :: w in contained <==> IsInside(w, windows, total);
    assert forall w <- windows :: IsPeak(samples, w.start, w.end, w.peak);
    var w :| w in contained && w.peak == peak;
    var i :| w.start <= i < w.end && samples[i].current == w.peak;
    assert IsInside(w, windows, total) && w.start <= i < w.end <= |samples| && samples[i].current == peak;
  }

  lemma TracksInside(samples: seq<Sample>, k: Kind, total: PowerWindow)
    requires Contained(TrackOf(samples, k).completed, total.start, total.end) != []
    ensures IsPeakInside(samples, TrackOf(samples, k).completed, total,
                         Combine(Contained(TrackOf(samples, k).completed, total.start, total.end)).peak)
  {
    hide IsPulse, IsWindow, IsPeak, TrackOf, IsPeakInside;
    TracksAreRuns(samples, k);
    PeakInside(samples, TrackOf(samples, k).completed, total);
  }

  lemma WindowPeak(samples: seq<Sample>, k: Kind, w: PowerWindow)
    requires IsWindow(samples, k, w)
    ensures IsPeak(samples, w.start, w.end, w.peak)
  {
    hide CurrentSum, CurrentPeak, Active;
    PeakIsGreatest(samples, w.start, w.end);
  }

  /** What is reported for a kind within the execution window `total`. */
  ghost predicate Selected(
    samples: seq<Sample>, k: Kind, windows: seq<PowerWindow>, total: PowerWindow, selected: map<Kind, PowerWindow>)
  {
    var contained := Contained(windows, total.start, total.end);
    && total.end < |samples|
    && (k in selected <==> exists w <- windows :: total.start <= w.start && w.end <= total.end)
    && (k in selected <==> contained != [])
    && (k in selected ==> selected[k] == Combine(contained) && selected[k].count > 0)
    && (k in selected ==> IsPeakInside(samples, windows, total, selected[k].peak))
    && (NotCut(samples, k, total.start) && NotCut(samples, k, total.end) ==>
          ChargeOf(selected, k) == ActiveCharge(samples, k, total.start, total.end))
  }

  lemma LastEndsLast(samples: seq<Sample>, k: Kind, windows: seq<PowerWindow>)
    requires AreEndedRuns(samples, k, windows) && windows != []
    ensures forall w <- windows :: IsWindow(samples, k, w) && w.end <= windows[|windows| - 1].end < |samples|
  {
    forall w | w in windows
      ensures IsWindow(samples, k, w) && w.end <= windows[|windows| - 1].end < |samples|
    {
      var j :| 0 <= j < |windows| && windows[j] == w;
      assert IsWindow(samples, k, windows[|windows| - 1]);
    }
  }

  lemma SelectedMeans(
    samples: seq<Sample>, k: Kind, windows: seq<PowerWindow>, total: PowerWindow, selected: map<Kind, PowerWindow>)
    requires windows == TrackOf(samples, k).completed && IsWindow(samples, TotalExecution, total)
    requires var contained := Contained(windows, total.start, total.end);
             && (k in selected <==> contained != [])
             && (contained != [] ==> selected[k] == Combine(contained))
    ensures Selected(samples, k, windows, total, selected)
  {
    hide IsActive, Contained, AreEndedRuns, NotCut, ActiveCharge, TrackOf, Total, IsRun, CurrentSum,
      CurrentPeak, LeastStart, GreatestEnd, GreatestPeak, IsPeakInside, HasPeaks;
    var contained := Contained(windows, total.start, total.end);
    TracksAreRuns(samples, k);
    ContainedAreSolid(samples, k, windows, total.start, total.end);
    if contained != [] {
      GapsNotCharged(contained);
      assert contained[0] in contained;
      TracksInside(samples, k, total);
    }
    if NotCut(samples, k, total.start) && NotCut(samples, k, total.end) {
      ContainedIsActive(samples, k, total.start, total.end);
      NothingContained(contained);
    }
  }

  lemma NothingContained(windows: seq<PowerWindow>)
    ensures windows == [] ==> Total(windows) == Charge(0, 0.0)
  {}

  lemma ContainedAreSolid(samples: seq<Sample>, k: Kind, windows: seq<PowerWindow>, a: nat, b: nat)
    requires AreEndedRuns(samples, k, windows)
    ensures forall w :: w in Contained(windows, a, b) <==> w in windows && a <= w.start && w.end <= b
    ensures Ordered(Contained(windows, a, b)) && AreSolid(Contained(windows, a, b))
  {
    hide Contained, Active, CurrentSum, CurrentPeak;
    var contained := Contained(windows, a, b);
    ContainedOf(windows, a, b);
    forall j | 0 <= j < |contained|
      ensures contained[j].count == contained[j].end - contained[j].start > 0
    {
      assert contained[j] in contained;
      var i :| 0 <= i < |windows| && windows[i] == contained[j];
      assert IsWindow(samples, k, windows[i]);
    }
  }

  lemma KexNotCut(samples: seq<Sample>, p: nat)
    requires NotCut(samples, ClientKem, p)
    ensures NotCut(samples, MlKemWindow, p) && NotCut(samples, ClassicalKexWindow, p)
  {}

  lemma SelectedKex(samples: seq<Sample>, total: PowerWindow, selected: map<Kind, PowerWindow>)
    requires total.end < |samples|
    requires NotCut(samples, ClientKem, total.start) && NotCut(samples, ClientKem, total.end)
    requires forall k :: k != TotalExecution ==> Selected(samples, k, TrackOf(samples, k).completed, total, selected)
    ensures ChargeOf(selected, ClientKem)
         == ChargeOf(selected, MlKemWindow).Plus(ChargeOf(selected, ClassicalKexWindow))
  {
    hide ActiveCharge, Contained, Combine, TrackOf, NotCut, ChargeOf;
    KexNotCut(samples, total.start);
    KexNotCut(samples, total.end);
    KexChargeSplits(samples, total.start, total.end);
    assert Selected(samples, ClientKem, TrackOf(samples, ClientKem).completed, total, selected);
    assert Selected(samples, MlKemWindow, TrackOf(samples, MlKemWindow).completed, total, selected);
    assert Selected(samples, ClassicalKexWindow, TrackOf(samples, ClassicalKexWindow).completed, total, selected);
  }

  /** The first of the windows that contains `inner`, or the first. */
  function FirstAround(windows: seq<PowerWindow>, inner: PowerWindow): (w: PowerWindow)
    requires windows != []
    ensures w in windows
    ensures (exists v <- windows :: v.start <= inner.start && inner.end <= v.end) ==>
              w.start <= inner.start && inner.end <= w.end
    ensures (forall v <- windows :: !(v.start <= inner.start && inner.end <= v.end)) ==> w == windows[0]
  {
    FirstAroundFrom(windows, inner, 0)
  }

  function FirstAroundFrom(windows: seq<PowerWindow>, inner: PowerWindow, i: nat): (w: PowerWindow)
    requires windows != [] && i <= |windows|
    ensures w in windows
    ensures (exists v <- windows[i..] :: v.start <= inner.start && inner.end <= v.end) ==>
              w.start <= inner.start && inner.end <= w.end
    ensures (forall v <- windows[i..] :: !(v.start <= inner.start && inner.end <= v.end)) ==> w == windows[0]
    decreases |windows| - i
  {
    if i == |windows| then windows[0]
    else if windows[i].start <= inner.start && inner.end <= windows[i].end then windows[i]
    else FirstAroundFrom(windows, inner, i + 1)
  }

  function StartingAfter(windows: seq<PowerWindow>, end: nat): seq<PowerWindow> {
    if windows == [] then [] else
    var last := windows[|windows| - 1];
    StartingAfter(windows[..|windows| - 1], end) + if last.start > end then [last] else []
  }

  lemma RunsAreOrdered(samples: seq<Sample>, k: Kind, windows: seq<PowerWindow>)
    requires AreEndedRuns(samples, k, windows)
    ensures Ordered(windows)
  {}

  /** The windows that start after `end`, and no others, in order. */
  ghost predicate AreThoseAfter(chosen: seq<PowerWindow>, windows: seq<PowerWindow>, end: nat) {
    Ordered(chosen) && forall w :: w in chosen <==> w in windows && w.start > end
  }

  lemma {:induction false} StartingAfterOf(windows: seq<PowerWindow>, end: nat)
    requires Ordered(windows)
    ensures AreThoseAfter(StartingAfter(windows, end), windows, end)
  {
    if windows != [] {
      var n := |windows| - 1;
      var before, last := StartingAfter(windows[..n], end), windows[n];
      StartingAfterOf(windows[..n], end);
      assert windows == windows[..n] + [last];
      forall i | 0 <= i < |before|
        ensures before[i].end < last.start
      {
        assert before[i] in windows[..n];
      }
    }
  }

  lemma OneMoreSample(before: seq<Sample>, k: Kind, s: Sample, lastMask: bv8)
    requires lastMask == if before == [] then 0 else before[|before| - 1].mask
    ensures TrackOf(before + [s], k) ==
            Advance(TrackOf(before, k), IsActive(k, lastMask), IsActive(k, s.mask), |before|, s.current)
  {
    hide Advance, IsActive;
    NothingActive(k);
    assert (before + [s])[..|before|] == before;
  }
}
