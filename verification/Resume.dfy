/**
  Crash and resume of a benchmark run: the manifest, the attempt files and the checkpoint in the run
  directory, with every file write one step and a crash possible between any two steps.
 */
module Resume {
  import opened Schedule

  /** A line of a case's attempt file. */
  datatype Row = Row(job: SessionJob, index: nat, outcome: string)

  type Files = map<string, seq<Row>>

  datatype Disk = Disk(manifest: seq<SessionJob>, checkpoint: nat, attempts: Files)

  function RowsOf(files: Files, caseId: string): seq<Row> {
    if caseId in files then files[caseId] else []
  }

  function Record(files: Files, job: SessionJob, outcome: string): Files {
    var rows := RowsOf(files, job.caseId);
    files[job.caseId := rows + [Row(job, |rows| + 1, outcome)]]
  }

  // ----- the steps of a run

  datatype Phase = Down | Loaded | Running | Recorded | Finished

  /** `jobs`, `next` and `rows` are what the process holds in memory. */
  datatype State = State(disk: Disk, phase: Phase, jobs: seq<SessionJob>, next: nat, rows: Files)

  datatype Event =
    | Load                          // read manifest, checkpoint and attempts
    | Plan(order: seq<SessionJob>)  // group the jobs and rewrite the manifest, unless a job has completed
    | Attempt(outcome: string)      // run a job and rewrite its case's attempt file
    | Commit                        // rewrite the checkpoint
    | Crash

  /** A run directory before anything has run; the first invocation has in memory what loading it would give. */
  function New(jobs: seq<SessionJob>): State {
    Stopped(Disk(jobs, 0, map[]))
  }

  function Stopped(disk: Disk): State {
    State(disk, Down, [], 0, map[])
  }

  predicate Enabled(s: State, e: Event) {
    match e
    case Load => s.phase == Down
    case Plan(order) => s.phase == Loaded && multiset(order) == multiset(s.jobs)
    case Attempt(_) => s.phase == Running && s.next < |s.jobs|
    case Commit => s.phase == Recorded
    case Crash => true
  }

  function Step(s: State, e: Event): State
    requires Enabled(s, e)
  {
    match e
    case Load =>
      var d := s.disk;
      State(d, if d.checkpoint >= |d.manifest| then Finished else Loaded, d.manifest, d.checkpoint, d.attempts)
    case Plan(order) =>
      var jobs := if s.next == 0 then order else s.jobs;
      s.(phase := Running, jobs := jobs, disk := if s.next == 0 then s.disk.(manifest := jobs) else s.disk)
    case Attempt(outcome) =>
      var rows := Record(s.rows, s.jobs[s.next], outcome);
      s.(phase := Recorded, rows := rows,
         disk := s.disk.(attempts := s.disk.attempts[s.jobs[s.next].caseId := RowsOf(rows, s.jobs[s.next].caseId)]))
    case Commit =>
      s.(phase := if s.next + 1 >= |s.jobs| then Finished else Running, next := s.next + 1,
         disk := s.disk.(checkpoint := s.next + 1))
    case Crash => Stopped(s.disk)
  }

  ghost predicate IsRun(s: State, events: seq<Event>)
    decreases |events|, 0
  {
    events == [] ||
    (IsRun(s, events[..|events| - 1])
     && Enabled(After(s, events[..|events| - 1]), events[|events| - 1]))
  }

  function After(s: State, events: seq<Event>): State
    requires IsRun(s, events)
    decreases |events|, 1
  {
    if events == [] then s else Step(After(s, events[..|events| - 1]), events[|events| - 1])
  }

  /** The jobs that were recorded but not committed when the process crashed. */
  function Torn(s: State, events: seq<Event>): multiset<SessionJob>
    requires IsRun(s, events)
    decreases |events|
  {
    if events == [] then multiset{} else
    var before := events[..|events| - 1];
    Torn(s, before) + (if events[|events| - 1].Crash? then Pending(After(s, before)) else multiset{})
  }

  /** The job that is recorded and not yet committed. */
  function Pending(s: State): multiset<SessionJob> {
    if s.phase == Recorded && s.next < |s.jobs| then multiset{s.jobs[s.next]} else multiset{}
  }

  // ----- what every step keeps

  function JobsOf(rows: seq<Row>): (r: seq<SessionJob>)
    ensures |r| == |rows|
  {
    seq(|rows|, i requires 0 <= i < |rows| => rows[i].job)
  }

  function Completed(d: Disk): multiset<SessionJob>
    requires d.checkpoint <= |d.manifest|
  {
    multiset(d.manifest[..d.checkpoint])
  }

  function JobsIn(files: Files, caseId: string): multiset<SessionJob> {
    multiset(JobsOf(RowsOf(files, caseId)))
  }

  ghost predicate Numbered(rows: seq<Row>) {
    forall k :: 0 <= k < |rows| ==> rows[k].index == k + 1
  }

  /** Each attempt file holds the rows of its case's jobs in `m`, numbered from 1. */
  ghost predicate Hold(files: Files, m: multiset<SessionJob>) {
    && (forall c :: Numbered(RowsOf(files, c)))
    && (forall c, job: SessionJob :: JobsIn(files, c)[job] == if job.caseId == c then m[job] else 0)
  }

  ghost predicate MemoryMatches(s: State) {
    match s.phase
    case Down => true
    case Finished => s.disk.checkpoint == |s.disk.manifest|
    case _ =>
      && s.jobs == s.disk.manifest && s.next == s.disk.checkpoint < |s.jobs|
      && s.rows == s.disk.attempts
  }

  ghost predicate Inv(s: State, jobs: seq<SessionJob>, torn: multiset<SessionJob>) {
    && multiset(s.disk.manifest) == multiset(jobs)
    && s.disk.checkpoint <= |s.disk.manifest|
    && MemoryMatches(s)
    && Hold(s.disk.attempts, Completed(s.disk) + torn + Pending(s))
  }

  lemma RecordedFile(files: Files, job: SessionJob, outcome: string, c: string)
    ensures var rows := RowsOf(files, c);
            RowsOf(Record(files, job, outcome), c)
              == rows + if c == job.caseId then [Row(job, |rows| + 1, outcome)] else []
  {}

  lemma OneMoreRow(rows: seq<Row>, row: Row)
    ensures JobsOf(rows + [row]) == JobsOf(rows) + [row.job]
    ensures Numbered(rows) && row.index == |rows| + 1 ==> Numbered(rows + [row])
  {}

  lemma RecordedRows(files: Files, job: SessionJob, outcome: string, c: string)
    ensures Numbered(RowsOf(files, c)) ==> Numbered(RowsOf(Record(files, job, outcome), c))
    ensures JobsIn(Record(files, job, outcome), c)
         == JobsIn(files, c) + if c == job.caseId then multiset{job} else multiset{}
  {
    hide Record, RowsOf, Numbered;
    var rows := RowsOf(files, c);
    RecordedFile(files, job, outcome, c);
    OneMoreRow(rows, Row(job, |rows| + 1, outcome));
    if c != job.caseId { assert rows + [] == rows; }
  }

  lemma RecordHolds(files: Files, m: multiset<SessionJob>, job: SessionJob, outcome: string)
    requires Hold(files, m)
    ensures Hold(Record(files, job, outcome), m + multiset{job})
  {
    hide Record, RowsOf, JobsIn, Numbered;
    var after := Record(files, job, outcome);
    forall c
      ensures Numbered(RowsOf(after, c))
      ensures forall j: SessionJob :: JobsIn(after, c)[j] == if j.caseId == c then (m + multiset{job})[j] else 0
    {
      RecordedRows(files, job, outcome, c);
    }
  }

  lemma CommitCompletes(d: Disk)
    requires d.checkpoint < |d.manifest|
    ensures Completed(d.(checkpoint := d.checkpoint + 1)) == Completed(d) + multiset{d.manifest[d.checkpoint]}
  {
    assert d.manifest[..d.checkpoint + 1] == d.manifest[..d.checkpoint] + [d.manifest[d.checkpoint]];
  }

  /** Every step, a crash at any point among them, keeps the run directory consistent. */
  lemma StepKeeps(s: State, e: Event, jobs: seq<SessionJob>, torn: multiset<SessionJob>)
    requires Inv(s, jobs, torn) && Enabled(s, e)
    ensures Inv(Step(s, e), jobs, torn + if e.Crash? then Pending(s) else multiset{})
  {
    hide Hold, Completed;
    var m := Completed(s.disk) + torn;
    assert torn + multiset{} == torn;
    match e
    case Load =>
    case Plan(order) =>
      if s.next == 0 { NothingCompleted(s.disk, order); }
      assert |order| == |multiset(order)| == |multiset(s.jobs)| == |s.jobs|;
    case Attempt(outcome) =>
      var job := s.jobs[s.next];
      assert m + multiset{} == m;
      RecordHolds(s.disk.attempts, m, job, outcome);
      assert Step(s, e).disk.attempts == Record(s.rows, job, outcome);
      assert Completed(Step(s, e).disk) == Completed(s.disk) by { SameManifest(s.disk, Step(s, e).disk); }
    case Commit =>
      CommitCompletes(s.disk);
      assert Completed(Step(s, e).disk) + torn + multiset{} == m + Pending(s);
    case Crash =>
      assert Completed(s.disk) + (torn + Pending(s)) + multiset{} == m + Pending(s);
  }

  lemma SameManifest(a: Disk, b: Disk)
    requires a.manifest == b.manifest && a.checkpoint == b.checkpoint <= |a.manifest|
    ensures Completed(a) == Completed(b)
  {}

  lemma NothingCompleted(d: Disk, order: seq<SessionJob>)
    requires d.checkpoint == 0
    ensures Completed(d) == multiset{} == Completed(d.(manifest := order))
  {}

  lemma {:induction false} RunKeeps(jobs: seq<SessionJob>, events: seq<Event>)
    requires IsRun(New(jobs), events)
    ensures Inv(After(New(jobs), events), jobs, Torn(New(jobs), events))
    decreases |events|
  {
    if events == [] {
      NothingCompleted(New(jobs).disk, jobs);
    } else {
      hide Inv, Step, Pending;
      var before := events[..|events| - 1];
      RunKeeps(jobs, before);
      StepKeeps(After(New(jobs), before), events[|events| - 1], jobs, Torn(New(jobs), before));
    }
  }

  // ----- what a run guarantees

  /** Every job up to the checkpoint has a row in its case's attempt file. */
  lemma CompletedAreRecorded(jobs: seq<SessionJob>, events: seq<Event>, k: nat)
    requires IsRun(New(jobs), events)
    requires k < After(New(jobs), events).disk.checkpoint
    ensures var d := After(New(jobs), events).disk;
            && k < |d.manifest|
            && (var rows := RowsOf(d.attempts, d.manifest[k].caseId);
                exists i :: 0 <= i < |rows| && rows[i].job == d.manifest[k])
  {
    hide Hold;
    RunKeeps(jobs, events);
    var s := After(New(jobs), events);
    var job := s.disk.manifest[k];
    assert s.disk.manifest[..s.disk.checkpoint][k] == job;
    HasRow(s.disk.attempts, Completed(s.disk) + Torn(New(jobs), events) + Pending(s), job);
  }

  lemma HasRow(files: Files, m: multiset<SessionJob>, job: SessionJob)
    requires Hold(files, m) && job in m
    ensures exists i :: 0 <= i < |RowsOf(files, job.caseId)| && RowsOf(files, job.caseId)[i].job == job
  {
    var rows := RowsOf(files, job.caseId);
    assert JobsIn(files, job.caseId)[job] == m[job] > 0;
    assert job in JobsOf(rows);
    var i :| 0 <= i < |rows| && JobsOf(rows)[i] == job;
    assert rows[i].job == job;
  }

  /** Rows are numbered 1, 2, ... within each case. */
  lemma AttemptsAreNumbered(jobs: seq<SessionJob>, events: seq<Event>, c: string, k: nat)
    requires IsRun(New(jobs), events)
    requires k < |RowsOf(After(New(jobs), events).disk.attempts, c)|
    ensures RowsOf(After(New(jobs), events).disk.attempts, c)[k].index == k + 1
  {
    RunKeeps(jobs, events);
  }

  function TotalRows(files: Files, cases: seq<string>): nat {
    if cases == [] then 0 else TotalRows(files, cases[..|cases| - 1]) + |RowsOf(files, cases[|cases| - 1])|
  }

  function AllRows(files: Files, cases: seq<string>): multiset<SessionJob> {
    if cases == [] then multiset{}
    else AllRows(files, cases[..|cases| - 1]) + JobsIn(files, cases[|cases| - 1])
  }

  lemma {:induction false} RowsCount(files: Files, cases: seq<string>)
    ensures |AllRows(files, cases)| == TotalRows(files, cases)
  {
    if cases != [] {
      RowsCount(files, cases[..|cases| - 1]);
      var jobs := JobsOf(RowsOf(files, cases[|cases| - 1]));
      assert |multiset(jobs)| == |jobs|;
    }
  }

  lemma AllRowsStep(files: Files, cases: seq<string>, job: SessionJob)
    requires cases != []
    ensures AllRows(files, cases)[job]
         == AllRows(files, cases[..|cases| - 1])[job] + JobsIn(files, cases[|cases| - 1])[job]
  {
    hide JobsIn;
  }

  lemma {:induction false} HeldRows(files: Files, m: multiset<SessionJob>, cases: seq<string>, job: SessionJob)
    requires Hold(files, m) && NoDuplicates(cases)
    ensures AllRows(files, cases)[job] == if job.caseId in cases then m[job] else 0
    decreases |cases|
  {
    hide JobsIn, Numbered, RowsOf, NoDuplicates;
    if cases == [] {
      NoRowsAtAll(files, job);
    } else {
      hide AllRows;
      var last := |cases| - 1;
      LastName(cases, job.caseId);
      HeldRows(files, m, cases[..last], job);
      AllRowsStep(files, cases, job);
      assert JobsIn(files, cases[last])[job] == if job.caseId == cases[last] then m[job] else 0;
    }
  }

  lemma NoRowsAtAll(files: Files, job: SessionJob)
    ensures AllRows(files, [])[job] == 0
  {}

  /**
    A completed run has, job by job, one row for the job and one for each crash that fell between
    writing its row and writing the checkpoint; so as many rows as jobs and such crashes.
   */
  lemma CompleteRun(jobs: seq<SessionJob>, events: seq<Event>, cases: seq<string>)
    requires IsRun(New(jobs), events)
    requires After(New(jobs), events).phase == Finished
    requires NoDuplicates(cases) && forall i :: 0 <= i < |jobs| ==> jobs[i].caseId in cases
    ensures var files := After(New(jobs), events).disk.attempts;
            var torn := Torn(New(jobs), events);
            && (forall job: SessionJob :: JobsIn(files, job.caseId)[job] == multiset(jobs)[job] + torn[job])
            && TotalRows(files, cases) == |jobs| + |torn|
  {
    hide Hold, AllRows, JobsIn;
    RunKeeps(jobs, events);
    TornAreJobs(jobs, events);
    var s, torn := After(New(jobs), events), Torn(New(jobs), events);
    assert s.disk.manifest[..s.disk.checkpoint] == s.disk.manifest;
    var m := multiset(jobs) + torn;
    assert Completed(s.disk) + torn + multiset{} == m;
    assert forall job :: job in m ==> job in jobs;
    HeldCount(s.disk.attempts, m, cases);
    assert |multiset(jobs)| == |jobs|;
  }

  lemma HeldCount(files: Files, m: multiset<SessionJob>, cases: seq<string>)
    requires Hold(files, m) && NoDuplicates(cases) && forall job: SessionJob :: job in m ==> job.caseId in cases
    ensures TotalRows(files, cases) == |m|
    ensures forall job: SessionJob :: JobsIn(files, job.caseId)[job] == m[job]
  {
    hide AllRows, NoDuplicates;
    forall job: SessionJob
      ensures AllRows(files, cases)[job] == m[job]
    {
      HeldRows(files, m, cases, job);
    }
    assert AllRows(files, cases) == m;
    RowsCount(files, cases);
  }

  lemma {:induction false} TornAreJobs(jobs: seq<SessionJob>, events: seq<Event>)
    requires IsRun(New(jobs), events)
    ensures forall job :: job in Torn(New(jobs), events) ==> job in jobs
    decreases |events|
  {
    if events != [] {
      var before := events[..|events| - 1];
      TornAreJobs(jobs, before);
      RunKeeps(jobs, before);
      var s := After(New(jobs), before);
      forall job | job in Pending(s)
        ensures job in jobs
      {
        assert job in s.disk.manifest;
        assert job in multiset(s.disk.manifest);
      }
    }
  }

  // ----- what later steps leave alone

  ghost predicate Extends(before: Files, after: Files) {
    forall c :: RowsOf(before, c) <= RowsOf(after, c)
  }

  ghost predicate Later(before: Disk, after: Disk) {
    && before.checkpoint <= after.checkpoint
    && (before.checkpoint >= 1 ==> after.manifest == before.manifest)
    && Extends(before.attempts, after.attempts)
  }

  lemma StepIsLater(s: State, e: Event)
    requires MemoryMatches(s) && s.disk.checkpoint <= |s.disk.manifest| && Enabled(s, e)
    ensures Later(s.disk, Step(s, e).disk)
  {
    if e.Attempt? {
      var job := s.jobs[s.next];
      forall c
        ensures RowsOf(s.disk.attempts, c) <= RowsOf(Step(s, e).disk.attempts, c)
      {
      }
    }
  }

  /**
    The checkpoint never goes back, the order stays as it is once a job has completed, and no row is
    lost or changed.
   */
  lemma {:induction false} NothingIsOverwritten(jobs: seq<SessionJob>, events: seq<Event>, k: nat)
    requires IsRun(New(jobs), events) && k <= |events|
    ensures IsRun(New(jobs), events[..k])
    ensures Later(After(New(jobs), events[..k]).disk, After(New(jobs), events).disk)
    decreases |events|
  {
    hide Step, Later;
    if k == |events| {
      assert events[..k] == events;
      LaterIsReflexive(After(New(jobs), events).disk);
    } else {
      var before := events[..|events| - 1];
      assert before[..k] == events[..k];
      NothingIsOverwritten(jobs, before, k);
      RunKeeps(jobs, before);
      var s := After(New(jobs), before);
      StepIsLater(s, events[|events| - 1]);
      LaterIsTransitive(After(New(jobs), events[..k]).disk, s.disk, After(New(jobs), events).disk);
    }
  }

  lemma LaterIsReflexive(d: Disk)
    ensures Later(d, d)
  {}

  lemma LaterIsTransitive(a: Disk, b: Disk, c: Disk)
    requires Later(a, b) && Later(b, c)
    ensures Later(a, c)
  {
    forall k
      ensures RowsOf(a.attempts, k) <= RowsOf(c.attempts, k)
    {
      assert RowsOf(a.attempts, k) <= RowsOf(b.attempts, k);
      assert RowsOf(b.attempts, k) <= RowsOf(c.attempts, k);
    }
  }

  // ----- the program

  lemma NothingYet(s: State)
    ensures IsRun(s, []) && After(s, []) == s
  {}

  lemma OneMore(s: State, trace: seq<Event>, e: Event)
    requires IsRun(s, trace) && Enabled(After(s, trace), e)
    ensures IsRun(s, trace + [e]) && After(s, trace + [e]) == Step(After(s, trace), e)
  {
    hide Step, Enabled;
    assert (trace + [e])[..|trace|] == trace;
  }

  lemma RecordIsWrite(files: Files, job: SessionJob, outcome: string)
    ensures var rows := Record(files, job, outcome); rows == files[job.caseId := RowsOf(rows, job.caseId)]
  {}

  lemma Crashed(start: State, trace: seq<Event>)
    requires IsRun(start, trace)
    ensures IsRun(start, trace + [Crash]) && After(start, trace + [Crash]) == Stopped(After(start, trace).disk)
  {
    hide IsRun, After;
    OneMore(start, trace, Crash);
  }

  /** Memory and file agree on what an attempt adds. */
  lemma Attempted(start: State, trace: seq<Event>, outcome: string)
    requires IsRun(start, trace)
    requires var s := After(start, trace); s.phase == Running && s.next < |s.jobs| && s.rows == s.disk.attempts
    ensures var s := After(start, trace);
            var job := s.jobs[s.next];
            var rows := Record(s.rows, job, outcome);
            && rows == s.rows[job.caseId := RowsOf(rows, job.caseId)]
            && IsRun(start, trace + [Attempt(outcome)])
            && After(start, trace + [Attempt(outcome)])
               == s.(phase := Recorded, rows := rows, disk := s.disk.(attempts := rows))
  {
    hide IsRun, After, Record, RowsOf;
    var s := After(start, trace);
    OneMore(start, trace, Attempt(outcome));
    RecordIsWrite(s.rows, s.jobs[s.next], outcome);
  }

  lemma Committed(start: State, trace: seq<Event>)
    requires IsRun(start, trace) && After(start, trace).phase == Recorded
    ensures var s := After(start, trace);
            && IsRun(start, trace + [Commit])
            && After(start, trace + [Commit]) ==
                 s.(phase := if s.next + 1 >= |s.jobs| then Finished else Running, next := s.next + 1,
                    disk := s.disk.(checkpoint := s.next + 1))
  {
    hide IsRun, After;
    OneMore(start, trace, Commit);
  }

  lemma SameLength<T>(a: seq<T>, b: seq<T>)
    requires multiset(a) == multiset(b)
    ensures |a| == |b|
  {
    assert |multiset(a)| == |a| && |multiset(b)| == |b|;
  }

  class RunDirectory {
    var manifest: seq<SessionJob>
    var checkpoint: nat
    var attempts: Files

    function Contents(): Disk
      reads this
    {
      Disk(manifest, checkpoint, attempts)
    }

    constructor (jobs: seq<SessionJob>)
      ensures Contents() == New(jobs).disk
    {
      manifest, checkpoint, attempts := jobs, 0, map[];
    }

    /** One invocation that is cut short after `writes` file writes; `order` is what grouping the jobs returns. */
    method Execute(order: seq<SessionJob>, outcomes: nat -> string, writes: nat)
      returns (complete: bool, ghost trace: seq<Event>)
      requires checkpoint <= |manifest| && multiset(order) == multiset(manifest)
      modifies this
      ensures IsRun(Stopped(old(Contents())), trace)
      ensures After(Stopped(old(Contents())), trace).disk == Contents()
      ensures complete <==> After(Stopped(old(Contents())), trace).phase == Finished
      ensures !complete ==> trace != [] && trace[|trace| - 1] == Crash
      ensures old(checkpoint) <= checkpoint <= |manifest|
      ensures complete <==> writes >= Needed(old(Contents()))
      ensures checkpoint == if complete then |manifest| else old(checkpoint) + JobsFor(old(checkpoint), writes)
    {
      hide Record, After, IsRun, RowsOf;
      ghost var start := Stopped(Contents());
      trace := [];
      NothingYet(start);
      var jobs, next, rows := manifest, checkpoint, attempts;
      var left := writes;
      OneMore(start, trace, Load);
      trace := trace + [Load];
      if next >= |jobs| { return true, trace; }
      if next == 0 && left == 0 {
        Crashed(start, trace);
        trace := trace + [Crash];
        return false, trace;
      }
      OneMore(start, trace, Plan(order));
      trace := trace + [Plan(order)];
      if next == 0 {
        SameLength(jobs, order);
        left := left - 1;
        jobs := order;
        manifest := jobs;
      }
      while next < |jobs|
        invariant old(checkpoint) <= next <= |jobs|
        invariant jobs == manifest && checkpoint == next && rows == attempts && |jobs| == |old(manifest)|
        invariant writes - left == (if old(checkpoint) == 0 then 1 else 0) + 2 * (next - old(checkpoint))
        invariant IsRun(start, trace)
        invariant After(start, trace)
               == State(Contents(), if next < |jobs| then Running else Finished, jobs, next, rows)
        decreases |jobs| - next
      {
        var job := jobs[next];
        if left == 0 {
          Crashed(start, trace);
          trace := trace + [Crash];
          return false, trace;
        }
        Attempted(start, trace, outcomes(next));
        trace := trace + [Attempt(outcomes(next))];
        left := left - 1;
        rows := Record(rows, job, outcomes(next));
        attempts := attempts[job.caseId := RowsOf(rows, job.caseId)];
        if left == 0 {
          Crashed(start, trace);
          trace := trace + [Crash];
          return false, trace;
        }
        Committed(start, trace);
        trace := trace + [Commit];
        left := left - 1;
        checkpoint := next + 1;
        next := next + 1;
      }
      return true, trace;
    }
  }

  /** How many jobs are committed by so many writes: two each, and one at the start of a run for the order. */
  function JobsFor(checkpoint: nat, writes: nat): nat {
    if checkpoint > 0 then writes / 2 else if writes == 0 then 0 else (writes - 1) / 2
  }

  /** How many file writes an invocation takes to complete the run. */
  function Needed(d: Disk): nat
    requires d.checkpoint <= |d.manifest|
  {
    2 * (|d.manifest| - d.checkpoint) + if d.checkpoint == 0 && d.manifest != [] then 1 else 0
  }
}
