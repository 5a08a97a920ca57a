/**
  The firmware's TLS send callback: bytes cut into SDUs, a retry loop around each, and a semaphore
  that completions of sent SDUs raise.
 */
module TlsSender {
  import opened Bytes
  import opened Uplink
  import ControlSender

  // ----- the link

  /**
    How the retry loop around one chunk ends; busy sends are repeated inside it. A call is aborted by
    an error of the send, which has reset the semaphore before, or by a connection that is gone.
   */
  datatype Attempt = Queued | NotAllocated | Aborted(reset: bool)

  /** What the link makes of one chunk: the attempt, and whether a completion is taken in time. */
  datatype Answer = Answer(attempt: Attempt, completed: bool)

  /** The semaphore, which holds at most one completion, and the SDUs whose completion has not come. */
  datatype Link = Link(given: bool, waiting: nat) {
    predicate CanComplete() {
      given || waiting > 0
    }

    predicate IsClean() {
      !CanComplete()
    }
  }

  const CLEAN: Link := Link(false, 0)

  /** A send resets the semaphore first. */
  function AfterAttempt(l: Link, a: Attempt): Link {
    match a
    case Queued => Link(false, l.waiting + 1)
    case NotAllocated => l
    case Aborted(reset) => if reset then Link(false, l.waiting) else l
  }

  /** A wait takes the completion that is there, or the next one that comes. */
  function AfterWait(l: Link, completed: bool): Link {
    if !completed || l.IsClean() then l
    else if l.given then Link(false, l.waiting)
    else Link(false, l.waiting - 1)
  }

  /** A completion that comes when nobody waits. */
  function AfterCompletion(l: Link): Link
    requires l.waiting > 0
  {
    Link(true, l.waiting - 1)
  }

  // ----- a call, on values

  /** How many chunks are counted, which SDUs are queued, whether the buffer is through, and the link left behind. */
  datatype Run = Run(counted: nat, sdus: seq<Stream>, complete: bool, link: Link)

  function Taken(chunk: Stream, a: Attempt): seq<Stream> {
    if a.Queued? then [chunk] else []
  }

  /**
    The chunk loop of `l2cap_wolfssl_send` from chunk `i` on. A chunk whose buffer could not be
    allocated leaves the retry loop with the error variable still zero, so the call goes on to wait.
   */
  function SendRun(chunks: seq<Stream>, answers: nat -> Answer, i: nat, l: Link): Run
    requires i <= |chunks|
    decreases |chunks| - i
  {
    if i == |chunks| then Run(i, [], true, l) else
    var a := answers(i);
    var taken, waiting := Taken(chunks[i], a.attempt), AfterAttempt(l, a.attempt);
    if a.attempt.Aborted? || !a.completed then Run(i, taken, false, waiting) else
    var rest := SendRun(chunks, answers, i + 1, AfterWait(waiting, true));
    rest.(sdus := taken + rest.sdus)
  }

  /** No completion is taken where none can come. */
  predicate IsPossible(chunks: seq<Stream>, answers: nat -> Answer, i: nat, l: Link)
    requires i <= |chunks|
    decreases |chunks| - i
  {
    if i == |chunks| || answers(i).attempt.Aborted? then true else
    var waiting := AfterAttempt(l, answers(i).attempt);
    answers(i).completed ==>
      waiting.CanComplete() && IsPossible(chunks, answers, i + 1, AfterWait(waiting, true))
  }

  function TlsChunks(buf: Stream, txMtu: uint16): (r: seq<Stream>)
    ensures forall c <- r :: 1 <= |c|
  {
    Chunks(buf, Mtu(txMtu))
  }

  function Mtu(txMtu: uint16): (mtu: nat)
    ensures mtu >= 1
    ensures mtu <= 5120 && (1 <= txMtu <= 5120 ==> mtu == txMtu)
  {
    var mtu := Min(txMtu, ControlSender.L2CAP_TX_SDU_MTU);
    if mtu == 0 then 23 else mtu
  }

  datatype TlsResult = Count(sent: nat) | Error

  /** What the call returns: the bytes of the counted chunks, or an error if there are none and the call broke off. */
  function ResultOf(chunks: seq<Stream>, run: Run): TlsResult
    requires run.counted <= |chunks|
  {
    if run.complete || run.counted > 0 then Count(|Concat(chunks[..run.counted])|) else Error
  }

  lemma {:induction false} CountedBound(chunks: seq<Stream>, answers: nat -> Answer, i: nat, l: Link)
    requires i <= |chunks|
    ensures var run := SendRun(chunks, answers, i, l);
            i <= run.counted <= |chunks| && (run.complete <==> run.counted == |chunks|)
    decreases |chunks| - i
  {
    if i < |chunks| {
      CountedBound(chunks, answers, i + 1, AfterWait(AfterAttempt(l, answers(i).attempt), true));
    }
  }

  // ----- the callback

  class Sender {
    /** The SDUs the link has taken. */
    var sdus: seq<Stream>
    var link: Link

    constructor (link: Link)
      ensures this.link == link && sdus == []
    {
      this.link, sdus := link, [];
    }

    /** The retry loop around one chunk. */
    method TryQueue(chunk: Stream, a: Attempt)
      modifies this
      ensures sdus == old(sdus) + Taken(chunk, a) && link == AfterAttempt(old(link), a)
    {
      match a
      case Queued =>
        link := Link(false, link.waiting + 1);
        sdus := sdus + [chunk];
      case NotAllocated =>
      case Aborted(reset) =>
        if reset { link := Link(false, link.waiting); }
    }

    /** `l2cap_wolfssl_send`, with what the link answers for each chunk. */
    method SendTls(buf: Stream, txMtu: uint16, connected: bool, answers: nat -> Answer) returns (r: TlsResult)
      modifies this
      ensures !connected ==> r == Error && sdus == old(sdus) && link == old(link)
      ensures connected ==>
        var all := TlsChunks(buf, txMtu);
        var run := SendRun(all, answers, 0, old(link));
        && run.counted <= |all| && r == ResultOf(all, run)
        && sdus == old(sdus) + run.sdus && link == run.link
    {
      hide Concat, Chunks, SendRun, At, IsRest, Taken, AfterAttempt, AfterWait, ResultOf;
      if !connected { return Error; }
      var mtu := if txMtu < ControlSender.L2CAP_TX_SDU_MTU then txMtu else ControlSender.L2CAP_TX_SDU_MTU;
      if mtu == 0 { mtu := 23; }
      ghost var all, before := TlsChunks(buf, txMtu), sdus;
      ghost var whole := SendRun(all, answers, 0, link);
      ChunksStart(buf, mtu);
      RunStart(all, answers, link, sdus);
      var n, sent := 0, 0;
      while sent < |buf|
        invariant At(all, n, buf, sent, mtu) && sent <= |buf| && n <= |all|
        invariant IsRest(whole, SendRun(all, answers, n, link), before, sdus)
      {
        var chunk := |buf| - sent;
        if chunk > mtu { chunk := mtu; }
        var a := answers(n);
        ChunkAt(all, n, buf, sent, mtu);
        RunStep(all, answers, n, link, whole, before, sdus);
        RunStops(all, n, buf, sent, mtu, whole);
        TryQueue(buf[sent..sent + chunk], a.attempt);
        if a.attempt.Aborted? { return if sent > 0 then Count(sent) else Error; }
        if !a.completed { return if sent > 0 then Count(sent) else Error; }
        link := AfterWait(link, true);
        n := n + 1;
        sent := sent + chunk;
      }
      RunEnd(all, answers, n, link, whole, before, sdus, buf, mtu);
      r := Count(sent);
    }
  }

  /** What is still to come of a run, behind what has been queued. */
  ghost predicate IsRest(whole: Run, rest: Run, before: seq<Stream>, sdus: seq<Stream>) {
    && whole.counted == rest.counted && whole.complete == rest.complete && whole.link == rest.link
    && before + whole.sdus == sdus + rest.sdus
  }

  lemma RunStep(
    all: seq<Stream>, answers: nat -> Answer, n: nat, l: Link, whole: Run, before: seq<Stream>, sdus: seq<Stream>)
    requires n < |all| && IsRest(whole, SendRun(all, answers, n, l), before, sdus)
    ensures var a := answers(n);
            var taken, waiting := Taken(all[n], a.attempt), AfterAttempt(l, a.attempt);
            if a.attempt.Aborted? || !a.completed then
              whole.counted == n && !whole.complete && whole.link == waiting && sdus + taken == before + whole.sdus
            else IsRest(whole, SendRun(all, answers, n + 1, AfterWait(waiting, true)), before, sdus + taken)
  {
    var a := answers(n);
    assert sdus + [] == sdus;
    if !a.attempt.Aborted? && a.completed {
      var taken := Taken(all[n], a.attempt);
      var rest := SendRun(all, answers, n + 1, AfterWait(AfterAttempt(l, a.attempt), true));
      assert sdus + (taken + rest.sdus) == (sdus + taken) + rest.sdus;
    }
  }

  lemma RunStart(all: seq<Stream>, answers: nat -> Answer, l: Link, sdus: seq<Stream>)
    ensures var whole := SendRun(all, answers, 0, l);
            whole.counted <= |all| && IsRest(whole, whole, sdus, sdus)
  {
    CountedBound(all, answers, 0, l);
  }

  lemma RunStops(all: seq<Stream>, n: nat, buf: Stream, sent: nat, mtu: nat, whole: Run)
    requires mtu >= 1 && At(all, n, buf, sent, mtu) && whole.counted <= |all|
    ensures whole.counted == n && !whole.complete ==> ResultOf(all, whole) == if sent > 0 then Count(sent) else Error
  {
    hide Concat, Chunks;
  }

  lemma RunEnd(
    all: seq<Stream>, answers: nat -> Answer, n: nat, l: Link, whole: Run, before: seq<Stream>, sdus: seq<Stream>,
    buf: Stream, mtu: nat)
    requires mtu >= 1 && At(all, n, buf, |buf|, mtu)
    requires n <= |all| && IsRest(whole, SendRun(all, answers, n, l), before, sdus)
    ensures whole.counted <= |all| && ResultOf(all, whole) == Count(|buf|)
    ensures sdus == before + whole.sdus && whole.link == l
  {
    SentSoFar(all, n, buf, |buf|, mtu);
    assert SendRun(all, answers, n, l) == Run(|all|, [], true, l);
    assert sdus + [] == sdus;
  }

  /** `n` chunks are behind `sent` bytes, and the others are the chunks of the rest. */
  ghost predicate At(all: seq<Stream>, n: nat, buf: Stream, sent: nat, mtu: nat)
    requires mtu >= 1
  {
    && n <= |all| && sent <= |buf|
    && sent == |Concat(all[..n])| && (n == 0 <==> sent == 0)
    && all[n..] == Chunks(buf[sent..], mtu)
  }

  lemma SentSoFar(all: seq<Stream>, n: nat, buf: Stream, sent: nat, mtu: nat)
    requires mtu >= 1 && At(all, n, buf, sent, mtu)
    ensures n <= |all| && sent == |Concat(all[..n])| && (n == 0 <==> sent == 0)
    ensures sent == |buf| ==> n == |all|
  {
    if sent == |buf| {
      assert buf[sent..] == [];
      assert all[n..] == [];
    }
  }

  lemma ChunksStart(buf: Stream, mtu: nat)
    requires mtu >= 1
    ensures At(Chunks(buf, mtu), 0, buf, 0, mtu)
  {
    hide Chunks;
    assert buf[0..] == buf;
    assert Chunks(buf, mtu)[..0] == [];
  }

  lemma ChunkAt(all: seq<Stream>, n: nat, buf: Stream, sent: nat, mtu: nat)
    requires mtu >= 1 && At(all, n, buf, sent, mtu) && sent < |buf|
    ensures var chunk := Min(|buf| - sent, mtu);
            n < |all| && all[n] == buf[sent..sent + chunk] && At(all, n + 1, buf, sent + chunk, mtu)
  {
    hide Chunks, Concat;
    ChunksStep(buf, sent, mtu);
    var rest := all[n..];
    assert all[n] == rest[0] && all[n + 1..] == rest[1..];
    OneMoreChunk(all, n);
  }

  lemma OneMoreChunk(all: seq<Stream>, n: nat)
    requires n < |all|
    ensures Concat(all[..n + 1]) == Concat(all[..n]) + all[n]
  {
    assert all[..n + 1] == all[..n] + [all[n]];
    ConcatAppend(all[..n], [all[n]]);
    ConcatOne(all[n]);
  }

  // ----- is the count right?

  /** The call broke off at a completion that did not come, with the chunk queued. */
  predicate EndsWaiting(run: Run, answers: nat -> Answer) {
    !run.complete && answers(run.counted).attempt.Queued?
  }

  predicate AllQueued(answers: nat -> Answer, i: nat, n: nat) {
    forall j :: i <= j < n ==> answers(j).attempt.Queued?
  }

  /** If every counted chunk was queued, the SDUs are these and the one that was waited for in vain. */
  lemma {:induction false} QueuedRun(chunks: seq<Stream>, answers: nat -> Answer, i: nat, l: Link)
    requires i <= |chunks|
    ensures var run := SendRun(chunks, answers, i, l);
            && i <= run.counted <= |chunks| && (run.complete <==> run.counted == |chunks|)
            && (AllQueued(answers, i, run.counted) ==>
                  run.sdus == chunks[i..run.counted] + if EndsWaiting(run, answers) then [chunks[run.counted]] else [])
    decreases |chunks| - i
  {
    CountedBound(chunks, answers, i, l);
    if i < |chunks| && !answers(i).attempt.Aborted? && answers(i).completed {
      var after := AfterWait(AfterAttempt(l, answers(i).attempt), true);
      QueuedRun(chunks, answers, i + 1, after);
      var run := SendRun(chunks, answers, i + 1, after);
      assert chunks[i..run.counted] == [chunks[i]] + chunks[i + 1..run.counted];
    }
  }

  /** If some counted chunk was not queued, and no other was, bytes are missing. */
  lemma {:induction false} BytesMissing(chunks: seq<Stream>, answers: nat -> Answer, i: nat, l: Link)
    requires i <= |chunks| && forall c <- chunks :: 1 <= |c|
    requires !EndsWaiting(SendRun(chunks, answers, i, l), answers)
    ensures var run := SendRun(chunks, answers, i, l);
            && i <= run.counted <= |chunks|
            && |Concat(run.sdus)| <= |Concat(chunks[i..run.counted])|
            && (!AllQueued(answers, i, run.counted) ==> |Concat(run.sdus)| < |Concat(chunks[i..run.counted])|)
    decreases |chunks| - i
  {
    hide Concat;
    CountedBound(chunks, answers, i, l);
    NoChunks();
    if i < |chunks| && !answers(i).attempt.Aborted? && answers(i).completed {
      var after := AfterWait(AfterAttempt(l, answers(i).attempt), true);
      BytesMissing(chunks, answers, i + 1, after);
      var rest := SendRun(chunks, answers, i + 1, after);
      assert chunks[i] in chunks;
      assert chunks[i..rest.counted] == [chunks[i]] + chunks[i + 1..rest.counted];
      ConcatAppend([chunks[i]], chunks[i + 1..rest.counted]);
      ConcatOne(chunks[i]);
      if answers(i).attempt.Queued? { ConcatAppend([chunks[i]], rest.sdus); }
      assert [] + rest.sdus == rest.sdus;
    }
  }

  lemma NoChunks()
    ensures Concat([]) == []
  {}

  /**
    A call that does not end at a missing completion has queued the bytes it counts exactly if every
    counted chunk got a buffer. One that does, and all whose chunks got a buffer, has queued a chunk
    more.
   */
  lemma CountIsHonest(buf: Stream, txMtu: uint16, answers: nat -> Answer, l: Link)
    ensures var all := TlsChunks(buf, txMtu);
            var run := SendRun(all, answers, 0, l);
            && run.counted <= |all| && (run.complete <==> run.counted == |all|)
            && Concat(all[..run.counted]) <= buf
            && (run.complete ==> Concat(all[..run.counted]) == buf)
            && (!EndsWaiting(run, answers) ==>
                  (Concat(run.sdus) == Concat(all[..run.counted]) <==> AllQueued(answers, 0, run.counted)))
            && (EndsWaiting(run, answers) && AllQueued(answers, 0, run.counted) ==>
                  Concat(run.sdus) == Concat(all[..run.counted]) + all[run.counted])
  {
    hide Concat, Chunks, SendRun;
    var all := TlsChunks(buf, txMtu);
    var run := SendRun(all, answers, 0, l);
    QueuedRun(all, answers, 0, l);
    CountedIsPrefix(buf, txMtu, run.counted);
    assert all[0..run.counted] == all[..run.counted];
    if !EndsWaiting(run, answers) {
      BytesMissing(all, answers, 0, l);
      assert all[..run.counted] + [] == all[..run.counted];
    } else if AllQueued(answers, 0, run.counted) {
      ConcatAppend(all[..run.counted], [all[run.counted]]);
      ConcatOne(all[run.counted]);
    }
  }

  lemma CountedIsPrefix(buf: Stream, txMtu: uint16, n: nat)
    requires n <= |TlsChunks(buf, txMtu)|
    ensures Concat(TlsChunks(buf, txMtu)[..n]) <= buf
    ensures n == |TlsChunks(buf, txMtu)| ==> Concat(TlsChunks(buf, txMtu)[..n]) == buf
  {
    hide Chunks, Concat;
    var all := TlsChunks(buf, txMtu);
    ChunksConcat(buf, Mtu(txMtu));
    assert all == all[..n] + all[n..];
    ConcatAppend(all[..n], all[n..]);
    if n == |all| { assert all[..n] == all; }
  }

  // ----- completions

  /** The completions that are there or can still come. */
  function Stock(l: Link): nat {
    l.waiting + if l.given then 1 else 0
  }

  /**
    Every counted chunk takes a completion, and only queued SDUs bring new ones. So no more chunks are
    counted without being queued than there were completions at the start.
   */
  lemma {:induction false} CompletionsAreSpent(chunks: seq<Stream>, answers: nat -> Answer, i: nat, l: Link)
    requires i <= |chunks| && IsPossible(chunks, answers, i, l)
    ensures var run := SendRun(chunks, answers, i, l);
            run.counted - i + Stock(run.link) <= |run.sdus| + Stock(l)
    decreases |chunks| - i
  {
    if i < |chunks| && !answers(i).attempt.Aborted? && answers(i).completed {
      CompletionsAreSpent(chunks, answers, i + 1, AfterWait(AfterAttempt(l, answers(i).attempt), true));
    }
  }

  /** A completion that comes when nobody waits is not lost if there was none, and is then there to be taken. */
  lemma CompletionIsKept(l: Link)
    requires l.waiting > 0
    ensures AfterCompletion(l).given && AfterCompletion(l).CanComplete()
    ensures Stock(AfterCompletion(l)) == Stock(l) - if l.given then 1 else 0
    ensures Stock(AfterWait(l, true)) == Stock(l) - 1 && AfterWait(l, false) == l
  {}

  // ----- when a chunk can be counted that was not queued

  /**
    From a clean link every counted chunk was queued, and unless the call ends at a missing
    completion the link stays clean.
   */
  lemma {:induction false} CleanLinkIsHonest(chunks: seq<Stream>, answers: nat -> Answer, i: nat)
    requires i <= |chunks| && IsPossible(chunks, answers, i, CLEAN)
    ensures var run := SendRun(chunks, answers, i, CLEAN);
            && AllQueued(answers, i, run.counted)
            && run.link == if EndsWaiting(run, answers) then Link(false, 1) else CLEAN
    decreases |chunks| - i
  {
    CountedBound(chunks, answers, i, CLEAN);
    if i < |chunks| && !answers(i).attempt.Aborted? && answers(i).completed {
      CleanLinkIsHonest(chunks, answers, i + 1);
    }
  }

  /** Some answers the link can give make the call count a chunk that was not queued. */
  ghost predicate CanLie(chunks: seq<Stream>, l: Link) {
    exists answers: nat -> Answer ::
      IsPossible(chunks, answers, 0, l) && !AllQueued(answers, 0, SendRun(chunks, answers, 0, l).counted)
  }

  /** That is so exactly if a completion of an earlier SDU is there or still to come. */
  lemma LiesIffNotClean(chunks: seq<Stream>, l: Link)
    requires chunks != []
    ensures CanLie(chunks, l) <==> !l.IsClean()
  {
    if l.IsClean() {
      assert l == CLEAN;
      forall answers: nat -> Answer | IsPossible(chunks, answers, 0, l)
        ensures AllQueued(answers, 0, SendRun(chunks, answers, 0, l).counted)
      {
        CleanLinkIsHonest(chunks, answers, 0);
      }
    } else {
      FirstNotQueued(chunks, l);
    }
  }

  /** No buffer for the first chunk, a completion taken for it, and then the link is gone. */
  function StaleCompletion(): nat -> Answer {
    n => if n == 0 then Answer(NotAllocated, true) else Answer(Aborted(false), false)
  }

  lemma FirstNotQueued(chunks: seq<Stream>, l: Link)
    requires chunks != [] && !l.IsClean()
    ensures IsPossible(chunks, StaleCompletion(), 0, l)
    ensures SendRun(chunks, StaleCompletion(), 0, l).counted == 1 && SendRun(chunks, StaleCompletion(), 0, l).sdus == []
    ensures !AllQueued(StaleCompletion(), 0, 1) && CanLie(chunks, l)
  {
    var after := AfterWait(l, true);
    assert SendRun(chunks, StaleCompletion(), 1, after).counted == 1;
    assert SendRun(chunks, StaleCompletion(), 1, after).sdus == [];
    assert !StaleCompletion()(0).attempt.Queued?;
  }

  /**
    How it comes about, from a clean link, with a buffer of one chunk: a call waits in vain for the
    completion of its SDU and reports an error; the completion comes late; the next call finds no
    buffer, takes that completion and reports its bytes as sent, and nothing is queued.
   */
  lemma LateCompletion(buf: Stream, txMtu: uint16, next: Stream)
    requires 1 <= |buf| <= Mtu(txMtu) && 1 <= |next| <= Mtu(txMtu)
    ensures var all, answers := TlsChunks(buf, txMtu), (n: nat) => Answer(Queued, false);
            var first := SendRun(all, answers, 0, CLEAN);
            && IsPossible(all, answers, 0, CLEAN)
            && first.counted <= |all| && ResultOf(all, first) == Error && first.link == Link(false, 1)
    ensures var all, late := TlsChunks(next, txMtu), AfterCompletion(Link(false, 1));
            var second := SendRun(all, StaleCompletion(), 0, late);
            && IsPossible(all, StaleCompletion(), 0, late)
            && second.counted <= |all| && ResultOf(all, second) == Count(|next|) && second.sdus == []
  {
    OneChunk(buf, txMtu);
    OneChunk(next, txMtu);
    FirstNotQueued([next], Link(true, 0));
    assert [next][..1] == [next];
    ConcatOne(next);
  }

  lemma OneChunk(buf: Stream, txMtu: uint16)
    requires 1 <= |buf| <= Mtu(txMtu)
    ensures TlsChunks(buf, txMtu) == [buf]
  {
    ChunksNil(Mtu(txMtu));
    assert buf[..|buf|] == buf && buf[|buf|..] == [];
    assert Chunks(buf, Mtu(txMtu)) == [buf[..|buf|]] + Chunks(buf[|buf|..], Mtu(txMtu));
  }
}
