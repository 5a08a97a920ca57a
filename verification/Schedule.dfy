/**
  The schedule of a run: which job runs when, and the grouping of jobs by firmware image so that the
  board is reflashed as rarely as possible.
 */
module Schedule {
  import opened Permutations

  datatype Case = Case(id: string, warmups: int, iterations: int, knownUnsupported: bool)

  datatype SessionJob =
    SessionJob(sequence: nat, caseId: string, session: int, attemptInSession: int, warmup: nat, measuredIndex: int)

  // ----- shuffling

  /** A random source: which position to take when so many elements are left. */
  type Picker = nat -> nat

  function Taken(pick: Picker, n: nat): (i: nat)
    requires n > 0
    ensures i < n && (pick(n) < n ==> i == pick(n))
  {
    if pick(n) < n then pick(n) else 0
  }

  /** Any reordering that a random source can pick. */
  function Shuffled<T>(xs: seq<T>, pick: Picker): (r: seq<T>)
    ensures |r| == |xs|
    decreases |xs|
  {
    if xs == [] then [] else
    var i := Taken(pick, |xs|);
    Shuffled(Without(xs, i), pick) + [xs[i]]
  }

  lemma WithoutOne<T>(xs: seq<T>, i: nat)
    requires i < |xs|
    ensures multiset(xs) == multiset(Without(xs, i)) + multiset{xs[i]}
  {
    assert xs == xs[..i] + [xs[i]] + xs[i + 1..];
  }

  /** Shuffling neither loses nor doubles an element. */
  lemma {:induction false} ShuffledKeeps<T>(xs: seq<T>, pick: Picker)
    ensures multiset(Shuffled(xs, pick)) == multiset(xs)
    decreases |xs|
  {
    hide Without;
    if xs != [] {
      var i := Taken(pick, |xs|);
      WithoutOne(xs, i);
      ShuffledKeeps(Without(xs, i), pick);
    }
  }

  lemma {:induction false} SamePicks<T>(xs: seq<T>, pick: Picker, other: Picker)
    requires forall n: nat :: n <= |xs| ==> pick(n) == other(n)
    ensures Shuffled(xs, pick) == Shuffled(xs, other)
    decreases |xs|
  {
    hide Without;
    if xs != [] { SamePicks(Without(xs, Taken(pick, |xs|)), pick, other); }
  }

  lemma LastOccurs<T>(xs: seq<T>, ys: seq<T>) returns (i: nat)
    requires multiset(xs) == multiset(ys) && ys != []
    ensures i < |xs| && xs[i] == ys[|ys| - 1]
    ensures multiset(Without(xs, i)) == multiset(ys[..|ys| - 1])
  {
    hide Without;
    var last := |ys| - 1;
    assert ys == ys[..last] + [ys[last]];
    assert ys[last] in multiset(xs);
    i :| i < |xs| && xs[i] == ys[last];
    WithoutOne(xs, i);
    assert multiset(Without(xs, i)) == multiset(xs) - multiset{xs[i]};
    assert multiset(ys[..last]) == multiset(ys) - multiset{ys[last]};
  }

  /** Every order of the elements is one that a random source can pick. */
  lemma {:induction false} AnyOrder<T>(xs: seq<T>, ys: seq<T>) returns (pick: Picker)
    requires multiset(xs) == multiset(ys)
    ensures Shuffled(xs, pick) == ys
    decreases |ys|
  {
    hide Without;
    if ys == [] {
      assert |multiset(xs)| == 0;
      pick := _ => 0;
    } else {
      var i := LastOccurs(xs, ys);
      var before := AnyOrder(Without(xs, i), ys[..|ys| - 1]);
      var n := |xs|;
      pick := m => if m == n then i else before(m);
      SamePicks(Without(xs, i), pick, before);
      assert Taken(pick, n) == i;
    }
  }

  // ----- the jobs of a run

  function PerSession(c: Case): nat {
    if c.warmups + c.iterations < 0 then 0 else c.warmups + c.iterations
  }

  function Sessions(sessionsPerCase: int): nat {
    if sessionsPerCase < 0 then 0 else sessionsPerCase
  }

  /**
    The `k`-th job of a case: sessions one after the other, and in each the warm-ups, which are not
    measured, and then the measured attempts, counted from 1.
   */
  function NthJob(c: Case, k: nat, start: nat): SessionJob
    requires PerSession(c) > 0
  {
    var place := k % PerSession(c);
    if place < c.warmups then SessionJob(start + k + 1, c.id, k / PerSession(c) + 1, place + 1, 1, 0)
    else SessionJob(start + k + 1, c.id, k / PerSession(c) + 1, place + 1, 0, place - c.warmups + 1)
  }

  function CaseJobs(c: Case, sessionsPerCase: int, start: nat): (r: seq<SessionJob>)
    ensures |r| == Sessions(sessionsPerCase) * PerSession(c)
  {
    if PerSession(c) == 0 then []
    else seq(Sessions(sessionsPerCase) * PerSession(c), k requires 0 <= k => NthJob(c, k, start))
  }

  /** How many jobs the first `n` cases have. */
  function JobsBefore(cases: seq<Case>, sessionsPerCase: int, n: nat): nat
    requires n <= |cases|
  {
    if n == 0 then 0
    else JobsBefore(cases, sessionsPerCase, n - 1) + Sessions(sessionsPerCase) * PerSession(cases[n - 1])
  }

  function GroupOf(cases: seq<Case>, sessionsPerCase: int, i: nat): seq<SessionJob>
    requires i < |cases|
  {
    CaseJobs(cases[i], sessionsPerCase, JobsBefore(cases, sessionsPerCase, i))
  }

  /** The jobs of the first `n` cases that are expected to be supported. */
  function NormalJobs(cases: seq<Case>, sessionsPerCase: int, n: nat): seq<SessionJob>
    requires n <= |cases|
  {
    if n == 0 then [] else
    NormalJobs(cases, sessionsPerCase, n - 1)
    + if cases[n - 1].knownUnsupported then [] else GroupOf(cases, sessionsPerCase, n - 1)
  }

  function DeferredGroups(cases: seq<Case>, sessionsPerCase: int, n: nat): seq<seq<SessionJob>>
    requires n <= |cases|
  {
    if n == 0 then [] else
    DeferredGroups(cases, sessionsPerCase, n - 1)
    + if cases[n - 1].knownUnsupported then [GroupOf(cases, sessionsPerCase, n - 1)] else []
  }

  /** Every job of the first `n` cases, in the order of the cases. */
  function AllJobs(cases: seq<Case>, sessionsPerCase: int, n: nat): seq<SessionJob>
    requires n <= |cases|
  {
    if n == 0 then [] else AllJobs(cases, sessionsPerCase, n - 1) + GroupOf(cases, sessionsPerCase, n - 1)
  }

  function Flatten<T>(groups: seq<seq<T>>): seq<T> {
    if groups == [] then [] else Flatten(groups[..|groups| - 1]) + groups[|groups| - 1]
  }

  /** Sequence numbers count the jobs from 1. */
  lemma {:induction false} SequenceNumbers(cases: seq<Case>, sessionsPerCase: int, n: nat)
    requires n <= |cases|
    ensures |AllJobs(cases, sessionsPerCase, n)| == JobsBefore(cases, sessionsPerCase, n)
    ensures forall k :: 0 <= k < |AllJobs(cases, sessionsPerCase, n)| ==>
              AllJobs(cases, sessionsPerCase, n)[k].sequence == k + 1
  {
    if n > 0 { SequenceNumbers(cases, sessionsPerCase, n - 1); }
  }

  /** Normal and deferred jobs together are all jobs. */
  lemma {:induction false} NothingForgotten(cases: seq<Case>, sessionsPerCase: int, n: nat)
    requires n <= |cases|
    ensures multiset(AllJobs(cases, sessionsPerCase, n))
         == multiset(NormalJobs(cases, sessionsPerCase, n))
            + multiset(Flatten(DeferredGroups(cases, sessionsPerCase, n)))
  {
    hide NormalJobs, DeferredGroups, AllJobs, GroupOf;
    OneMoreCase(cases, sessionsPerCase, n);
    if n > 0 { NothingForgotten(cases, sessionsPerCase, n - 1); }
  }

  lemma OneMoreCase(cases: seq<Case>, sessionsPerCase: int, n: nat)
    requires n <= |cases|
    ensures n == 0 ==> AllJobs(cases, sessionsPerCase, n) == [] == NormalJobs(cases, sessionsPerCase, n)
    ensures n == 0 ==> Flatten(DeferredGroups(cases, sessionsPerCase, n)) == []
    ensures n > 0 ==>
      var group, deferred := GroupOf(cases, sessionsPerCase, n - 1), cases[n - 1].knownUnsupported;
      && multiset(AllJobs(cases, sessionsPerCase, n))
         == multiset(AllJobs(cases, sessionsPerCase, n - 1)) + multiset(group)
      && multiset(NormalJobs(cases, sessionsPerCase, n)) ==
           multiset(NormalJobs(cases, sessionsPerCase, n - 1)) + (if deferred then multiset{} else multiset(group))
      && multiset(Flatten(DeferredGroups(cases, sessionsPerCase, n))) ==
           multiset(Flatten(DeferredGroups(cases, sessionsPerCase, n - 1)))
           + (if deferred then multiset(group) else multiset{})
  {
    hide GroupOf, Flatten;
    if n > 0 {
      var groups := DeferredGroups(cases, sessionsPerCase, n - 1);
      if cases[n - 1].knownUnsupported {
        FlattenAppend(groups, GroupOf(cases, sessionsPerCase, n - 1));
      } else {
        assert groups + [] == groups;
      }
    } else {
      FlattenNothing<SessionJob>();
    }
  }

  lemma FlattenNothing<T>()
    ensures Flatten<T>([]) == []
  {}

  lemma FlattenAppend<T>(groups: seq<seq<T>>, group: seq<T>)
    ensures Flatten(groups + [group]) == Flatten(groups) + group
  {
    assert (groups + [group])[..|groups|] == groups;
  }

  /** The same groups in another order hold the same jobs. */
  lemma {:induction false} FlattenPermutation<T>(a: seq<seq<T>>, b: seq<seq<T>>)
    requires multiset(a) == multiset(b)
    ensures multiset(Flatten(a)) == multiset(Flatten(b))
  {
    if a == [] {
      assert |multiset(b)| == 0;
    } else {
      var last := |a| - 1;
      assert a[last] in multiset(b);
      var i :| 0 <= i < |b| && b[i] == a[last];
      assert a == a[..last] + [a[last]];
      assert b == b[..i] + [b[i]] + b[i + 1..];
      assert multiset(a[..last]) == multiset(a) - multiset{a[last]};
      assert multiset(b[..i] + b[i + 1..]) == multiset(b) - multiset{b[i]};
      FlattenPermutation(a[..last], b[..i] + b[i + 1..]);
      FlattenConcat(b[..i] + [b[i]], b[i + 1..]);
      FlattenAppend(b[..i], b[i]);
      FlattenConcat(b[..i], b[i + 1..]);
    }
  }

  lemma {:induction false} FlattenConcat<T>(a: seq<seq<T>>, b: seq<seq<T>>)
    ensures Flatten(a + b) == Flatten(a) + Flatten(b)
  {
    if b == [] {
      assert a + b == a;
    } else {
      var last := |b| - 1;
      assert a + b == (a + b[..last]) + [b[last]] && b == b[..last] + [b[last]];
      FlattenConcat(a, b[..last]);
      hide Flatten;
      FlattenAppend(a + b[..last], b[last]);
      FlattenAppend(b[..last], b[last]);
    }
  }

  /** What a schedule is: all jobs once, first the normal ones in any order, then whole deferred cases in any order. */
  ghost predicate IsSchedule(cases: seq<Case>, sessionsPerCase: int, jobs: seq<SessionJob>) {
    && multiset(jobs) == multiset(AllJobs(cases, sessionsPerCase, |cases|))
    && exists normal, groups ::
         && jobs == normal + Flatten(groups)
         && multiset(normal) == multiset(NormalJobs(cases, sessionsPerCase, |cases|))
         && multiset(groups) == multiset(DeferredGroups(cases, sessionsPerCase, |cases|))
  }

  lemma ScheduleFrom(cases: seq<Case>, sessionsPerCase: int, normal: seq<SessionJob>, groups: seq<seq<SessionJob>>)
    requires multiset(normal) == multiset(NormalJobs(cases, sessionsPerCase, |cases|))
    requires multiset(groups) == multiset(DeferredGroups(cases, sessionsPerCase, |cases|))
    ensures IsSchedule(cases, sessionsPerCase, normal + Flatten(groups))
  {
    NothingForgotten(cases, sessionsPerCase, |cases|);
    FlattenPermutation(groups, DeferredGroups(cases, sessionsPerCase, |cases|));
  }

  method BuildJobs(cases: seq<Case>, sessionsPerCase: int, pickJob: Picker, pickGroup: Picker)
    returns (jobs: seq<SessionJob>)
    ensures IsSchedule(cases, sessionsPerCase, jobs)
  {
    hide IsSchedule, NthJob, Shuffled;
    var normalJobs: seq<SessionJob> := [];
    var deferredGroups: seq<seq<SessionJob>> := [];
    var sequence := 0;
    for i := 0 to |cases|
      invariant sequence == JobsBefore(cases, sessionsPerCase, i)
      invariant normalJobs == NormalJobs(cases, sessionsPerCase, i)
      invariant deferredGroups == DeferredGroups(cases, sessionsPerCase, i)
    {
      var c := cases[i];
      var caseJobs: seq<SessionJob> := JobsOfCase(c, sessionsPerCase, sequence);
      sequence := sequence + |caseJobs|;
      if c.knownUnsupported {
        deferredGroups := deferredGroups + [caseJobs];
      } else {
        normalJobs := normalJobs + caseJobs;
      }
    }
    ShuffledKeeps(normalJobs, pickJob);
    ShuffledKeeps(deferredGroups, pickGroup);
    normalJobs := Shuffled(normalJobs, pickJob);
    deferredGroups := Shuffled(deferredGroups, pickGroup);
    ScheduleFrom(cases, sessionsPerCase, normalJobs, deferredGroups);
    return normalJobs + Flatten(deferredGroups);
  }

  /** The two inner loops. */
  method JobsOfCase(c: Case, sessionsPerCase: int, start: nat) returns (caseJobs: seq<SessionJob>)
    ensures caseJobs == CaseJobs(c, sessionsPerCase, start)
  {
    caseJobs := [];
    var sequence := start;
    var session := 1;
    while session <= sessionsPerCase
      invariant 1 <= session <= Sessions(sessionsPerCase) + 1
      invariant |caseJobs| == (session - 1) * PerSession(c) && sequence == start + |caseJobs|
      invariant PerSession(c) > 0 ==> forall k :: 0 <= k < |caseJobs| ==> caseJobs[k] == NthJob(c, k, start)
    {
      var attempt := 1;
      while attempt <= c.warmups + c.iterations
        invariant 1 <= attempt <= PerSession(c) + 1
        invariant |caseJobs| == (session - 1) * PerSession(c) + attempt - 1 && sequence == start + |caseJobs|
        invariant PerSession(c) > 0 ==> forall k :: 0 <= k < |caseJobs| ==> caseJobs[k] == NthJob(c, k, start)
      {
        sequence := sequence + 1;
        Position(session - 1, attempt - 1, PerSession(c));
        var isWarmup := attempt <= c.warmups;
        caseJobs := caseJobs + [SessionJob(sequence, c.id, session, attempt,
          if isWarmup then 1 else 0, if isWarmup then 0 else attempt - c.warmups)];
        attempt := attempt + 1;
      }
      NextSession(session, PerSession(c));
      session := session + 1;
    }
  }

  /** The job is the attempt that is measured as `index` in this session. */
  predicate IsMeasured(job: SessionJob, session: int, index: int) {
    job.warmup == 0 && job.session == session && job.measuredIndex == index
  }

  /** In every session each attempt from 1 to `iterations` is measured once, behind the warm-ups. */
  lemma MeasuredOnce(c: Case, sessionsPerCase: int, start: nat, session: nat, index: nat)
    requires c.warmups >= 0 && 1 <= session <= sessionsPerCase && 1 <= index <= c.iterations
    ensures var jobs := CaseJobs(c, sessionsPerCase, start);
            exists k :: 0 <= k < |jobs| && IsMeasured(jobs[k], session, index) && jobs[k].caseId == c.id
                     && jobs[k].attemptInSession == c.warmups + index
                     && forall k' :: 0 <= k' < |jobs| && IsMeasured(jobs[k'], session, index) ==> k' == k
  {
    var jobs, size := CaseJobs(c, sessionsPerCase, start), PerSession(c);
    var place := c.warmups + index - 1;
    var k := (session - 1) * size + place;
    Position(session - 1, place, size);
    Before(session - 1, place, sessionsPerCase, size);
    assert IsMeasured(jobs[k], session, index);
    forall k' | 0 <= k' < |jobs| && IsMeasured(jobs[k'], session, index)
      ensures k' == k
    {
      assert jobs[k'] == NthJob(c, k', start);
      assert k' == (k' / size) * size + k' % size;
    }
  }

  lemma Before(q: nat, r: nat, n: nat, size: nat)
    requires q < n && r < size
    ensures q * size + r < n * size
  {
    assert n * size == q * size + (n - q) * size;
    Multiple(n - q, size);
  }

  /** All other jobs are warm-ups: so many at the start of each session, and not measured. */
  lemma OthersAreWarmups(c: Case, sessionsPerCase: int, start: nat, k: nat)
    requires c.warmups >= 0 && c.iterations >= 0 && k < |CaseJobs(c, sessionsPerCase, start)|
    ensures var job := CaseJobs(c, sessionsPerCase, start)[k];
            && 1 <= job.session <= sessionsPerCase && job.sequence == start + k + 1
            && if job.warmup == 0 then 1 <= job.measuredIndex <= c.iterations
               else job.warmup == 1 && job.measuredIndex == 0 && 1 <= job.attemptInSession <= c.warmups
  {
    var size := PerSession(c);
    assert k == (k / size) * size + k % size;
    if k / size >= sessionsPerCase { AtLeast(sessionsPerCase, k / size, size); }
  }

  lemma AtLeast(a: nat, b: nat, size: nat)
    requires a <= b
    ensures a * size <= b * size
  {}

  lemma Position(session: nat, attempt: nat, size: nat)
    requires attempt < size
    ensures (session * size + attempt) / size == session && (session * size + attempt) % size == attempt
  {
    var x := session * size + attempt;
    var q := x / size;
    assert (q - session) * size == attempt - x % size;
    if q > session { Multiple(q - session, size); }
    assert (session - q) * size == x % size - attempt;
    if q < session { Multiple(session - q, size); }
  }

  lemma Multiple(k: int, size: nat)
    requires k >= 1
    ensures k * size >= size
  {}

  lemma NextSession(session: nat, size: nat)
    requires session > 0
    ensures (session - 1) * size + size == session * size
  {}

  // ----- grouping by firmware image

  function Profile(job: SessionJob, profileOf: map<string, string>): string
    requires job.caseId in profileOf
  {
    profileOf[job.caseId]
  }

  ghost predicate Known(jobs: seq<SessionJob>, profileOf: map<string, string>) {
    forall i :: 0 <= i < |jobs| ==> jobs[i].caseId in profileOf
  }

  function Profiles(jobs: seq<SessionJob>, profileOf: map<string, string>): (r: seq<string>)
    requires Known(jobs, profileOf)
    ensures |r| == |jobs| && forall i :: 0 <= i < |jobs| ==> r[i] == Profile(jobs[i], profileOf)
  {
    seq(|jobs|, i requires 0 <= i < |jobs| => Profile(jobs[i], profileOf))
  }

  function Distinct(keys: seq<string>): set<string> {
    set k <- keys
  }

  /** How often the image changes from one job to the next. */
  function Switches(keys: seq<string>): nat {
    if |keys| <= 1 then 0
    else Switches(keys[..|keys| - 1]) + if keys[|keys| - 1] != keys[|keys| - 2] then 1 else 0
  }

  /** No order of jobs on several images gets by with fewer switches. */
  lemma {:induction false} FewestSwitches(keys: seq<string>)
    ensures keys != [] ==> Switches(keys) >= |Distinct(keys)| - 1
  {
    hide Distinct;
    if keys != [] {
      var last := |keys| - 1;
      DistinctStep(keys);
      if last > 0 {
        FewestSwitches(keys[..last]);
        assert keys[..last][last - 1] == keys[last - 1];
      } else {
        assert keys[..0] == [];
      }
    }
  }

  /** Jobs on one image are not interrupted by jobs on another. */
  ghost predicate Contiguous(keys: seq<string>) {
    forall i, j, k :: 0 <= i < j < k < |keys| && keys[i] == keys[k] ==> keys[j] == keys[k]
  }

  /** The least number of switches is reached exactly by the orders that keep every image's jobs together. */
  lemma {:induction false} FewestIsContiguous(keys: seq<string>)
    requires keys != []
    ensures Switches(keys) == |Distinct(keys)| - 1 <==> Contiguous(keys)
  {
    hide Distinct, Contiguous;
    var last := |keys| - 1;
    var before := keys[..last];
    DistinctStep(keys);
    if last == 0 {
      ContiguousOne(keys);
    } else {
      FewestIsContiguous(before);
      FewestSwitches(before);
      if keys[last] == keys[last - 1] {
        assert before[last - 1] == keys[last];
        SameLast(keys);
      } else if keys[last] in before {
        NotContiguous(keys);
      } else {
        NewLast(keys);
      }
    }
  }

  lemma DistinctStep(keys: seq<string>)
    requires keys != []
    ensures |Distinct([])| == 0
    ensures var before := keys[..|keys| - 1];
            |Distinct(keys)| == |Distinct(before)| + if keys[|keys| - 1] in before then 0 else 1
  {
    var last := |keys| - 1;
    assert keys == keys[..last] + [keys[last]];
    assert Distinct(keys) == Distinct(keys[..last]) + {keys[last]};
    if keys[last] in keys[..last] { assert Distinct(keys) == Distinct(keys[..last]); }
  }

  lemma ContiguousOne(keys: seq<string>)
    requires |keys| == 1
    ensures Contiguous(keys) && keys[..0] == []
  {}

  lemma NotContiguous(keys: seq<string>)
    requires |keys| > 1 && keys[|keys| - 1] != keys[|keys| - 2] && keys[|keys| - 1] in keys[..|keys| - 1]
    ensures !Contiguous(keys)
  {
    var last := |keys| - 1;
    var i :| 0 <= i < last && keys[..last][i] == keys[last];
    assert keys[i] == keys[last] && keys[last - 1] != keys[last];
  }

  lemma SameLast(keys: seq<string>)
    requires |keys| > 1 && keys[|keys| - 1] == keys[|keys| - 2]
    ensures Contiguous(keys) <==> Contiguous(keys[..|keys| - 1])
  {
    var last := |keys| - 1;
    var before := keys[..last];
    if Contiguous(before) {
      forall i, j, k | 0 <= i < j < k < |keys| && keys[i] == keys[k]
        ensures keys[j] == keys[k]
      {
        if k < last {
          assert before[i] == before[k];
        } else if j < last - 1 {
          assert before[i] == before[last - 1];
        }
      }
    }
    if Contiguous(keys) {
      forall i, j, k | 0 <= i < j < k < last && before[i] == before[k]
        ensures before[j] == before[k]
      {
        assert keys[i] == keys[k];
      }
    }
  }

  lemma NewLast(keys: seq<string>)
    requires keys != [] && keys[|keys| - 1] !in keys[..|keys| - 1]
    ensures Contiguous(keys) <==> Contiguous(keys[..|keys| - 1])
  {
    var last := |keys| - 1;
    var before := keys[..last];
    if Contiguous(before) {
      forall i, j, k | 0 <= i < j < k < |keys| && keys[i] == keys[k]
        ensures keys[j] == keys[k]
      {
        assert before[i] in before;
        assert before[i] == before[k];
      }
    }
    if Contiguous(keys) {
      forall i, j, k | 0 <= i < j < k < last && before[i] == before[k]
        ensures before[j] == before[k]
      {
        assert keys[i] == keys[k];
      }
    }
  }

  /** The jobs of one image, in their order. */
  function Select(jobs: seq<SessionJob>, profileOf: map<string, string>, p: string): seq<SessionJob>
    requires Known(jobs, profileOf)
  {
    if jobs == [] then [] else
    var last := |jobs| - 1;
    Select(jobs[..last], profileOf, p) + if Profile(jobs[last], profileOf) == p then [jobs[last]] else []
  }

  lemma {:induction false} SelectedProfile(jobs: seq<SessionJob>, profileOf: map<string, string>, p: string)
    requires Known(jobs, profileOf)
    ensures Known(Select(jobs, profileOf, p), profileOf)
    ensures forall i :: 0 <= i < |Select(jobs, profileOf, p)| ==> Profile(Select(jobs, profileOf, p)[i], profileOf) == p
    ensures Select(jobs, profileOf, p) != [] <==> p in Profiles(jobs, profileOf)
  {
    if jobs != [] {
      var last := |jobs| - 1;
      SelectedProfile(jobs[..last], profileOf, p);
      assert Profiles(jobs, profileOf) == Profiles(jobs[..last], profileOf) + [Profile(jobs[last], profileOf)];
    }
  }

  function Selections(jobs: seq<SessionJob>, profileOf: map<string, string>, names: seq<string>): multiset<SessionJob>
    requires Known(jobs, profileOf)
  {
    if names == [] then multiset{} else
    Selections(jobs, profileOf, names[..|names| - 1]) + multiset(Select(jobs, profileOf, names[|names| - 1]))
  }

  ghost predicate NoDuplicates(names: seq<string>) {
    forall i, j :: 0 <= i < j < |names| ==> names[i] != names[j]
  }

  lemma SelectStep(jobs: seq<SessionJob>, profileOf: map<string, string>, p: string)
    requires Known(jobs, profileOf) && jobs != []
    ensures var last := |jobs| - 1;
            multiset(Select(jobs, profileOf, p)) == multiset(Select(jobs[..last], profileOf, p))
              + (if Profile(jobs[last], profileOf) == p then multiset{jobs[last]} else multiset{})
  {}

  lemma SelectionsUnfold(jobs: seq<SessionJob>, profileOf: map<string, string>, names: seq<string>)
    requires Known(jobs, profileOf)
    ensures names == [] ==> Selections(jobs, profileOf, names) == multiset{}
    ensures names != [] ==> var last := |names| - 1;
              Selections(jobs, profileOf, names) ==
                Selections(jobs, profileOf, names[..last]) + multiset(Select(jobs, profileOf, names[last]))
  {}

  lemma LastName(names: seq<string>, p: string)
    requires NoDuplicates(names) && names != []
    ensures NoDuplicates(names[..|names| - 1])
    ensures p in names <==> p in names[..|names| - 1] || p == names[|names| - 1]
    ensures !(p in names[..|names| - 1] && p == names[|names| - 1])
  {
    assert names == names[..|names| - 1] + [names[|names| - 1]];
  }

  lemma {:induction false} SelectionsStep(jobs: seq<SessionJob>, profileOf: map<string, string>, names: seq<string>)
    requires Known(jobs, profileOf) && jobs != [] && NoDuplicates(names)
    ensures var last := |jobs| - 1;
            Selections(jobs, profileOf, names) == Selections(jobs[..last], profileOf, names)
              + (if Profile(jobs[last], profileOf) in names then multiset{jobs[last]} else multiset{})
    decreases |names|
  {
    hide Selections, Select, NoDuplicates, Profile;
    SelectionsUnfold(jobs, profileOf, names);
    SelectionsUnfold(jobs[..|jobs| - 1], profileOf, names);
    if names != [] {
      LastName(names, Profile(jobs[|jobs| - 1], profileOf));
      SelectStep(jobs, profileOf, names[|names| - 1]);
      SelectionsStep(jobs, profileOf, names[..|names| - 1]);
    }
  }

  /** The selections for all images hold every job once. */
  lemma {:induction false} SelectionsAreAll(jobs: seq<SessionJob>, profileOf: map<string, string>, names: seq<string>)
    requires Known(jobs, profileOf) && NoDuplicates(names)
    requires forall i :: 0 <= i < |jobs| ==> Profile(jobs[i], profileOf) in names
    ensures Selections(jobs, profileOf, names) == multiset(jobs)
  {
    hide Selections, NoDuplicates;
    if jobs == [] {
      NothingSelected(profileOf, names);
    } else {
      var last := |jobs| - 1;
      SelectionsAreAll(jobs[..last], profileOf, names);
      SelectionsStep(jobs, profileOf, names);
      assert jobs == jobs[..last] + [jobs[last]];
      assert multiset(jobs) == multiset(jobs[..last]) + multiset{jobs[last]};
    }
  }

  lemma {:induction false} NothingSelected(profileOf: map<string, string>, names: seq<string>)
    ensures Selections([], profileOf, names) == multiset{}
  {
    if names != [] { NothingSelected(profileOf, names[..|names| - 1]); }
  }

  lemma {:induction false} BlockAdds(keys: seq<string>, block: seq<string>, p: string)
    requires block != [] && p !in keys && forall i :: 0 <= i < |block| ==> block[i] == p
    ensures Switches(keys + block) == Switches(keys) + if keys == [] then 0 else 1
  {
    var n := |block| - 1;
    if n == 0 {
      assert (keys + block)[..|keys|] == keys;
    } else {
      assert (keys + block)[..|keys| + n] == keys + block[..n];
      BlockAdds(keys, block[..n], p);
      assert (keys + block)[|keys| + n - 1] == block[n - 1];
    }
  }

  /** What the first `k` images in the new order have become. */
  ghost predicate Grouped(
    jobs: seq<SessionJob>, profileOf: map<string, string>, names: seq<string>, k: nat, ordered: seq<SessionJob>)
    requires Known(jobs, profileOf)
  {
    && k <= |names|
    && Known(ordered, profileOf)
    && multiset(ordered) == Selections(jobs, profileOf, names[..k])
    && (forall i :: 0 <= i < |ordered| ==> Profile(ordered[i], profileOf) in names[..k])
    && Switches(Profiles(ordered, profileOf)) == (if k == 0 then 0 else k - 1)
    && (ordered == [] <==> k == 0)
  }

  lemma GroupedStep(
    jobs: seq<SessionJob>, profileOf: map<string, string>, names: seq<string>, k: nat,
    ordered: seq<SessionJob>, block: seq<SessionJob>)
    requires Known(jobs, profileOf) && NoDuplicates(names) && k < |names| && names[k] in Profiles(jobs, profileOf)
    ensures Grouped(jobs, profileOf, names, k, ordered)
         && multiset(block) == multiset(Select(jobs, profileOf, names[k]))
        ==> Grouped(jobs, profileOf, names, k + 1, ordered + block)
  {
    hide Select, Switches, Selections, Profiles;
    if Grouped(jobs, profileOf, names, k, ordered) && multiset(block) == multiset(Select(jobs, profileOf, names[k])) {
      var p := names[k];
      SelectedProfile(jobs, profileOf, p);
      BlockProfile(Select(jobs, profileOf, p), block, profileOf, p);
      OneMoreSelection(jobs, profileOf, names, k);
      ProfilesAppend(ordered, block, profileOf);
      forall i | 0 <= i < |ordered|
        ensures Profiles(ordered, profileOf)[i] != p
      {
        assert Profile(ordered[i], profileOf) in names[..k];
      }
      assert forall q <- names[..k] :: q in names[..k + 1];
      BlockAdds(Profiles(ordered, profileOf), Profiles(block, profileOf), p);
    }
  }

  lemma OneMoreSelection(jobs: seq<SessionJob>, profileOf: map<string, string>, names: seq<string>, k: nat)
    requires Known(jobs, profileOf) && k < |names|
    ensures Selections(jobs, profileOf, names[..k + 1])
         == Selections(jobs, profileOf, names[..k]) + multiset(Select(jobs, profileOf, names[k]))
  {
    assert names[..k + 1][..k] == names[..k];
  }

  lemma ProfilesAppend(a: seq<SessionJob>, b: seq<SessionJob>, profileOf: map<string, string>)
    requires Known(a, profileOf) && Known(b, profileOf)
    ensures Known(a + b, profileOf) && Profiles(a + b, profileOf) == Profiles(a, profileOf) + Profiles(b, profileOf)
  {}

  lemma BlockProfile(selected: seq<SessionJob>, block: seq<SessionJob>, profileOf: map<string, string>, p: string)
    requires multiset(block) == multiset(selected) && selected != [] && Known(selected, profileOf)
    requires forall i :: 0 <= i < |selected| ==> Profile(selected[i], profileOf) == p
    ensures block != [] && Known(block, profileOf) && forall i :: 0 <= i < |block| ==> Profile(block[i], profileOf) == p
  {
    assert |block| == |multiset(block)|;
    forall i | 0 <= i < |block|
      ensures block[i].caseId in profileOf && Profile(block[i], profileOf) == p
    {
      assert block[i] in multiset(block);
      var j :| 0 <= j < |selected| && selected[j] == block[i];
    }
  }

  lemma GroupedAll(jobs: seq<SessionJob>, profileOf: map<string, string>, names: seq<string>, ordered: seq<SessionJob>)
    requires Known(jobs, profileOf) && NoDuplicates(names)
    requires forall p :: p in names <==> p in Profiles(jobs, profileOf)
    requires Grouped(jobs, profileOf, names, |names|, ordered)
    ensures IsGrouping(jobs, profileOf, ordered)
  {
    assert names[..|names|] == names;
    forall i | 0 <= i < |jobs|
      ensures Profile(jobs[i], profileOf) in names
    {
      assert Profiles(jobs, profileOf)[i] in Profiles(jobs, profileOf);
    }
    SelectionsAreAll(jobs, profileOf, names);
    assert Distinct(Profiles(jobs, profileOf)) == Distinct(names);
    DistinctCount(names);
  }

  lemma {:induction false} DistinctCount(names: seq<string>)
    requires NoDuplicates(names)
    ensures |Distinct(names)| == |names|
  {
    if names != [] {
      var last := |names| - 1;
      DistinctCount(names[..last]);
      assert names == names[..last] + [names[last]];
      assert Distinct(names) == Distinct(names[..last]) + {names[last]};
    }
  }

  /** The same jobs, with one switch fewer than there are images. */
  ghost predicate IsGrouping(jobs: seq<SessionJob>, profileOf: map<string, string>, ordered: seq<SessionJob>)
    requires Known(jobs, profileOf)
  {
    && multiset(ordered) == multiset(jobs)
    && Known(ordered, profileOf)
    && (jobs != [] ==> Switches(Profiles(ordered, profileOf)) == |Distinct(Profiles(jobs, profileOf))| - 1)
  }

  /** Grouped jobs need the fewest switches of all orders of the same jobs. */
  lemma GroupingIsLeast(
    jobs: seq<SessionJob>, profileOf: map<string, string>, ordered: seq<SessionJob>, other: seq<SessionJob>)
    requires Known(jobs, profileOf) && IsGrouping(jobs, profileOf, ordered)
    requires multiset(other) == multiset(jobs)
    ensures Known(other, profileOf)
    ensures Switches(Profiles(ordered, profileOf)) <= Switches(Profiles(other, profileOf))
    ensures Switches(Profiles(ordered, profileOf)) == Switches(Profiles(other, profileOf))
       <==> Contiguous(Profiles(other, profileOf))
  {
    forall i | 0 <= i < |other|
      ensures other[i] in jobs
    {
      assert other[i] in multiset(other);
    }
    forall i | 0 <= i < |jobs|
      ensures jobs[i] in other
    {
      assert jobs[i] in multiset(jobs);
    }
    if jobs == [] {
      assert |multiset(ordered)| == 0;
    } else {
      SameProfiles(jobs, other, profileOf);
      FewestSwitches(Profiles(other, profileOf));
      FewestIsContiguous(Profiles(other, profileOf));
    }
  }

  lemma SameProfiles(jobs: seq<SessionJob>, other: seq<SessionJob>, profileOf: map<string, string>)
    requires Known(jobs, profileOf) && Known(other, profileOf) && jobs != []
    requires (forall i :: 0 <= i < |jobs| ==> jobs[i] in other) && forall i :: 0 <= i < |other| ==> other[i] in jobs
    ensures Distinct(Profiles(jobs, profileOf)) == Distinct(Profiles(other, profileOf)) && other != []
  {
    var ps, qs := Profiles(jobs, profileOf), Profiles(other, profileOf);
    forall p
      ensures p in ps <==> p in qs
    {
      if p in ps {
        var i :| 0 <= i < |ps| && ps[i] == p;
        var j :| 0 <= j < |other| && other[j] == jobs[i];
        assert qs[j] == p;
      }
      if p in qs {
        var j :| 0 <= j < |qs| && qs[j] == p;
        var i :| 0 <= i < |jobs| && jobs[i] == other[j];
        assert ps[i] == p;
      }
    }
    assert jobs[0] in other;
  }

  /** `sortedNames` is what sorting the names of the images that occur returns; each block is shuffled on its own. */
  method GroupJobsByFirmwareProfile(
    jobs: seq<SessionJob>, profileOf: map<string, string>, sortedNames: seq<string>,
    pickName: Picker, pickJob: nat -> Picker)
    returns (ordered: seq<SessionJob>)
    requires Known(jobs, profileOf)
    requires NoDuplicates(sortedNames) && forall p :: p in sortedNames <==> p in Profiles(jobs, profileOf)
    ensures IsGrouping(jobs, profileOf, ordered)
    ensures |sortedNames| == 1 ==> ordered == jobs
  {
    hide Grouped, IsGrouping, Switches, Selections, Select, Profiles, Shuffled;
    var grouped := GroupByProfile(jobs, profileOf);
    if |sortedNames| == 1 {
      OneProfile(jobs, profileOf, sortedNames);
      return jobs;
    }
    ShuffledKeeps(sortedNames, pickName);
    var names := Shuffled(sortedNames, pickName);
    ShuffledNames(sortedNames, names);
    ordered := [];
    NothingGrouped(jobs, profileOf, names);
    for k := 0 to |names|
      invariant Grouped(jobs, profileOf, names, k, ordered)
    {
      assert names[k] in names;
      SelectedProfile(jobs, profileOf, names[k]);
      ShuffledKeeps(grouped[names[k]], pickJob(k));
      var block := Shuffled(grouped[names[k]], pickJob(k));
      GroupedStep(jobs, profileOf, names, k, ordered, block);
      ordered := ordered + block;
    }
    GroupedAll(jobs, profileOf, names, ordered);
  }

  method GroupByProfile(jobs: seq<SessionJob>, profileOf: map<string, string>)
    returns (grouped: map<string, seq<SessionJob>>)
    requires Known(jobs, profileOf)
    ensures forall p :: p in grouped ==> grouped[p] == Select(jobs, profileOf, p)
    ensures forall p :: p !in grouped ==> Select(jobs, profileOf, p) == []
  {
    grouped := map[];
    for i := 0 to |jobs|
      invariant forall p :: p in grouped ==> grouped[p] == Select(jobs[..i], profileOf, p)
      invariant forall p :: p !in grouped ==> Select(jobs[..i], profileOf, p) == []
    {
      var p := Profile(jobs[i], profileOf);
      assert jobs[..i + 1][..i] == jobs[..i];
      grouped := grouped[p := (if p in grouped then grouped[p] else []) + [jobs[i]]];
    }
    assert jobs[..|jobs|] == jobs;
  }

  lemma NothingGrouped(jobs: seq<SessionJob>, profileOf: map<string, string>, names: seq<string>)
    requires Known(jobs, profileOf)
    ensures Grouped(jobs, profileOf, names, 0, [])
  {}

  lemma ShuffledNames(names: seq<string>, shuffled: seq<string>)
    requires NoDuplicates(names) && multiset(shuffled) == multiset(names)
    ensures NoDuplicates(shuffled) && forall p :: p in shuffled <==> p in names
  {
    forall p
      ensures (p in shuffled <==> p in names) && multiset(shuffled)[p] <= 1
    {
      assert p in shuffled <==> p in multiset(shuffled);
      assert p in names <==> p in multiset(names);
      AtMostOnce(names, p);
    }
    forall i, j | 0 <= i < j < |shuffled|
      ensures shuffled[i] != shuffled[j]
    {
      assert shuffled == shuffled[..j] + [shuffled[j]] + shuffled[j + 1..];
      assert shuffled[i] in multiset(shuffled[..j]);
      assert multiset(shuffled)[shuffled[j]] >= multiset(shuffled[..j])[shuffled[j]] + 1;
    }
  }

  lemma {:induction false} AtMostOnce(names: seq<string>, p: string)
    requires NoDuplicates(names)
    ensures multiset(names)[p] <= 1
  {
    if names != [] {
      var last := |names| - 1;
      assert names == names[..last] + [names[last]];
      AtMostOnce(names[..last], p);
      if names[last] == p { assert p !in names[..last]; }
    }
  }

  /** With a single image there is nothing to group. */
  lemma OneProfile(jobs: seq<SessionJob>, profileOf: map<string, string>, names: seq<string>)
    requires Known(jobs, profileOf) && |names| == 1 && forall p :: p in names <==> p in Profiles(jobs, profileOf)
    ensures IsGrouping(jobs, profileOf, jobs)
  {
    var keys := Profiles(jobs, profileOf);
    forall i | 0 <= i < |keys|
      ensures keys[i] == names[0]
    {
      assert keys[i] in keys;
    }
    assert names[0] in names;
    assert Distinct(keys) == {names[0]};
    NoSwitches(keys, names[0]);
  }

  lemma {:induction false} NoSwitches(keys: seq<string>, p: string)
    requires forall i :: 0 <= i < |keys| ==> keys[i] == p
    ensures Switches(keys) == 0
  {
    if |keys| > 1 { NoSwitches(keys[..|keys| - 1], p); }
  }
}
