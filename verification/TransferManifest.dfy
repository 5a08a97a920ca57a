/**
  The manifests of a transfer run: the rounds in one file and their operations in another, matched
  by execution order and case when the run is resumed.
 */
module TransferManifest {

  datatype Direction = Downlink | Uplink

  datatype Operation = Operation(order: int, iteration: int, direction: Direction, payloadBytes: int, payloadSeed: int)

  datatype Round = Round(sequence: int, caseId: string, roundIndex: int, operations: seq<Operation>)

  datatype RoundRow = RoundRow(executionOrder: int, sequence: int, caseId: string, roundIndex: int)

  datatype OperationRow = OperationRow(executionOrder: int, caseId: string, operation: Operation)

  // ----- writing

  function RoundRows(rounds: seq<Round>): (r: seq<RoundRow>)
    ensures |r| == |rounds|
  {
    seq(|rounds|, i requires 0 <= i < |rounds| =>
      RoundRow(i + 1, rounds[i].sequence, rounds[i].caseId, rounds[i].roundIndex))
  }

  function RowsOfRound(executionOrder: int, r: Round): seq<OperationRow> {
    seq(|r.operations|, k requires 0 <= k < |r.operations| => OperationRow(executionOrder, r.caseId, r.operations[k]))
  }

  function OperationRows(rounds: seq<Round>): seq<OperationRow> {
    if rounds == [] then []
    else OperationRows(rounds[..|rounds| - 1]) + RowsOfRound(|rounds|, rounds[|rounds| - 1])
  }

  // ----- reading

  /** A stable sort by an integer key. */
  function SortBy<T>(xs: seq<T>, key: T -> int): seq<T> {
    if xs == [] then [] else Insert(SortBy(xs[..|xs| - 1], key), xs[|xs| - 1], key)
  }

  function Insert<T>(xs: seq<T>, x: T, key: T -> int): seq<T> {
    if xs == [] || key(xs[|xs| - 1]) <= key(x) then xs + [x]
    else Insert(xs[..|xs| - 1], x, key) + [xs[|xs| - 1]]
  }

  function OperationsAt(rows: seq<OperationRow>, executionOrder: int, caseId: string): seq<Operation> {
    if rows == [] then [] else
    var last := rows[|rows| - 1];
    OperationsAt(rows[..|rows| - 1], executionOrder, caseId)
    + if last.executionOrder == executionOrder && last.caseId == caseId then [last.operation] else []
  }

  function LoadRounds(roundRows: seq<RoundRow>, operationRows: seq<OperationRow>): seq<Round> {
    var rows := SortBy(roundRows, (r: RoundRow) => r.executionOrder);
    seq(|rows|, i requires 0 <= i < |rows| =>
      Round(rows[i].sequence, rows[i].caseId, rows[i].roundIndex,
            SortBy(OperationsAt(operationRows, rows[i].executionOrder, rows[i].caseId), (o: Operation) => o.order)))
  }

  // ----- what is read back

  ghost predicate Ascending<T>(xs: seq<T>, key: T -> int) {
    forall i, j :: 0 <= i < j < |xs| ==> key(xs[i]) <= key(xs[j])
  }

  lemma {:induction false} SortedAlready<T>(xs: seq<T>, key: T -> int)
    requires Ascending(xs, key)
    ensures SortBy(xs, key) == xs
  {
    if xs != [] {
      var last := |xs| - 1;
      SortedAlready(xs[..last], key);
      assert xs == xs[..last] + [xs[last]];
    }
  }

  lemma {:induction false} OperationsAppend(a: seq<OperationRow>, b: seq<OperationRow>, order: int, caseId: string)
    ensures OperationsAt(a + b, order, caseId) == OperationsAt(a, order, caseId) + OperationsAt(b, order, caseId)
  {
    if b == [] {
      assert a + b == a;
    } else {
      var last := |b| - 1;
      assert (a + b)[..|a + b| - 1] == a + b[..last];
      OperationsAppend(a, b[..last], order, caseId);
    }
  }

  lemma {:induction false} OperationsOfRound(executionOrder: int, r: Round, order: int, caseId: string)
    ensures OperationsAt(RowsOfRound(executionOrder, r), order, caseId)
         == if executionOrder == order && r.caseId == caseId then r.operations else []
    decreases |r.operations|
  {
    var rows := RowsOfRound(executionOrder, r);
    if r.operations != [] {
      var last := |r.operations| - 1;
      var shorter := r.(operations := r.operations[..last]);
      assert rows[..last] == RowsOfRound(executionOrder, shorter);
      OperationsOfRound(executionOrder, shorter, order, caseId);
      assert r.operations == r.operations[..last] + [r.operations[last]];
    }
  }

  lemma {:induction false} OperationsWritten(rounds: seq<Round>, order: int, caseId: string)
    ensures OperationsAt(OperationRows(rounds), order, caseId)
         == if 1 <= order <= |rounds| && rounds[order - 1].caseId == caseId then rounds[order - 1].operations else []
  {
    hide OperationsAt, RowsOfRound;
    if rounds == [] {
      NoRows(order, caseId);
    } else {
      var last := |rounds| - 1;
      OperationsWritten(rounds[..last], order, caseId);
      OperationsAppend(OperationRows(rounds[..last]), RowsOfRound(|rounds|, rounds[last]), order, caseId);
      OperationsOfRound(|rounds|, rounds[last], order, caseId);
    }
  }

  lemma NoRows(order: int, caseId: string)
    ensures OperationsAt([], order, caseId) == []
  {}

  /** The operations of every round are in their order, as the plan numbers them. */
  ghost predicate AreOrdered(rounds: seq<Round>) {
    forall i :: 0 <= i < |rounds| ==> Ascending(rounds[i].operations, (o: Operation) => o.order)
  }

  /**
    What a resumed run reads when a crash left the rounds of the plan `a` next to the operations of
    the plan `b`: at each position the operations of `b`, if its case is the same there, else none.
   */
  lemma LoadedRounds(a: seq<Round>, b: seq<Round>)
    requires |a| == |b| && AreOrdered(b)
    ensures |LoadRounds(RoundRows(a), OperationRows(b))| == |a|
    ensures var loaded := LoadRounds(RoundRows(a), OperationRows(b));
            forall i :: 0 <= i < |a| ==>
              loaded[i] == a[i].(operations := if b[i].caseId == a[i].caseId then b[i].operations else [])
  {
    hide OperationRows, OperationsAt, SortBy;
    SortedAlready(RoundRows(a), (r: RoundRow) => r.executionOrder);
    forall i | 0 <= i < |a|
      ensures SortBy(OperationsAt(OperationRows(b), i + 1, a[i].caseId), (o: Operation) => o.order)
           == if b[i].caseId == a[i].caseId then b[i].operations else []
    {
      OperationsWritten(b, i + 1, a[i].caseId);
      SortedAlready(OperationsAt(OperationRows(b), i + 1, a[i].caseId), (o: Operation) => o.order);
    }
  }

  /** Files written from one plan read back as that plan. */
  lemma ManifestRoundTrip(rounds: seq<Round>)
    requires AreOrdered(rounds)
    ensures LoadRounds(RoundRows(rounds), OperationRows(rounds)) == rounds
  {
    hide LoadRounds;
    LoadedRounds(rounds, rounds);
  }

  /**
    Rounds of `a` next to operations of `b` read back as `a` exactly if `b` has, wherever `a` has
    operations, the same case with the same operations.
   */
  lemma TornManifest(a: seq<Round>, b: seq<Round>)
    requires |a| == |b| && AreOrdered(b)
    ensures LoadRounds(RoundRows(a), OperationRows(b)) == a
       <==> forall i :: 0 <= i < |a| ==>
              if a[i].caseId == b[i].caseId then a[i].operations == b[i].operations else a[i].operations == []
  {
    hide LoadRounds;
    LoadedRounds(a, b);
    var loaded := LoadRounds(RoundRows(a), OperationRows(b));
    assert loaded == a <==> forall i :: 0 <= i < |a| ==> loaded[i] == a[i];
  }

  /** Two cases that changed places between the two files lose their operations. */
  lemma SwappedRoundsLoseOperations(r: Round, s: Round)
    requires r.caseId != s.caseId && AreOrdered([r, s])
    ensures LoadRounds(RoundRows([s, r]), OperationRows([r, s])) == [s.(operations := []), r.(operations := [])]
  {
    hide LoadRounds;
    LoadedRounds([s, r], [r, s]);
  }
}
