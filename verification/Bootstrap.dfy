/**
  Cluster bootstrap of Pearson correlations: the form that resamples rows and the form that only
  weights per-cluster sums, over exact real arithmetic.
 */
module Bootstrap {

  datatype Row = Row(x: real, y: real)

  datatype Level = Pooled | BetweenCase | WithinCase

  /** The sufficient statistics of some rows. */
  datatype Sums = Sums(n: real, x: real, y: real, xx: real, yy: real, xy: real) {
    function Plus(other: Sums): Sums {
      Sums(n + other.n, x + other.x, y + other.y, xx + other.xx, yy + other.yy, xy + other.xy)
    }

    function Times(c: real): Sums {
      Sums(c * n, c * x, c * y, c * xx, c * yy, c * xy)
    }
  }

  const Nothing := Sums(0.0, 0.0, 0.0, 0.0, 0.0, 0.0)

  function SumsOfRow(r: Row): Sums {
    Sums(1.0, r.x, r.y, r.x * r.x, r.y * r.y, r.x * r.y)
  }

  function SumsOf(rows: seq<Row>): Sums {
    if rows == [] then Nothing else SumsOfRow(rows[0]).Plus(SumsOf(rows[1..]))
  }

  /** A correlation `covariance / sqrt(varianceX * varianceY)`, or none. */
  datatype Coefficient = Missing | Of(covariance: real, varianceX: real, varianceY: real)

  // ----- rows and their mean

  lemma {:induction false} SumsCount(rows: seq<Row>)
    ensures SumsOf(rows).n == |rows| as real
  {
    if rows != [] { SumsCount(rows[1..]); }
  }

  function Mean(rows: seq<Row>): Row
    requires rows != []
  {
    SumsCount(rows);
    var s := SumsOf(rows);
    Row(s.x / s.n, s.y / s.n)
  }

  function Minus(r: Row, m: Row): Row {
    Row(r.x - m.x, r.y - m.y)
  }

  function Shift(rows: seq<Row>, m: Row): (r: seq<Row>)
    ensures |r| == |rows|
  {
    seq(|rows|, i requires 0 <= i < |rows| => Minus(rows[i], m))
  }

  lemma {:induction false} SumsAppend(a: seq<Row>, b: seq<Row>)
    ensures SumsOf(a + b) == SumsOf(a).Plus(SumsOf(b))
  {
    hide SumsOfRow;
    if a == [] {
      assert a + b == b;
    } else {
      assert (a + b)[1..] == a[1..] + b;
      SumsAppend(a[1..], b);
    }
  }

  // ----- the form that resamples rows

  datatype LabelledRow = LabelledRow(draw: nat, row: Row)

  ghost predicate AreClusters(clusters: seq<seq<Row>>) {
    forall i :: 0 <= i < |clusters| ==> clusters[i] != []
  }

  ghost predicate AreIndexes(drawn: seq<nat>, clusters: seq<seq<Row>>) {
    forall d :: 0 <= d < |drawn| ==> drawn[d] < |clusters|
  }

  function Label(draw: nat, rows: seq<Row>): seq<LabelledRow> {
    seq(|rows|, i requires 0 <= i < |rows| => LabelledRow(draw, rows[i]))
  }

  /** The rows of the first `k` drawn clusters, each labelled with its draw. */
  function SampleTo(clusters: seq<seq<Row>>, drawn: seq<nat>, k: nat): seq<LabelledRow>
    requires k <= |drawn| && AreIndexes(drawn, clusters)
  {
    if k == 0 then [] else SampleTo(clusters, drawn, k - 1) + Label(k - 1, clusters[drawn[k - 1]])
  }

  function Rows(sample: seq<LabelledRow>): seq<Row> {
    seq(|sample|, i requires 0 <= i < |sample| => sample[i].row)
  }

  /** The group of the rows with this draw. */
  function Select(sample: seq<LabelledRow>, draw: nat): seq<Row> {
    if sample == [] then []
    else (if sample[0].draw == draw then [sample[0].row] else []) + Select(sample[1..], draw)
  }

  function MeanOrZero(rows: seq<Row>): Row {
    if rows == [] then Row(0.0, 0.0) else Mean(rows)
  }

  /** Each row of `part` centred on its group within `sample`. */
  function Centre(part: seq<LabelledRow>, sample: seq<LabelledRow>): seq<Row> {
    seq(|part|, i requires 0 <= i < |part| => Minus(part[i].row, MeanOrZero(Select(sample, part[i].draw))))
  }

  /** The rows `_correlation_at_level` hands to `safe_correlation`. */
  function LevelRows(level: Level, sample: seq<LabelledRow>, groups: nat): seq<Row> {
    match level
    case Pooled => Rows(sample)
    case WithinCase => Centre(sample, sample)
    case BetweenCase => seq(groups, draw requires 0 <= draw < groups => MeanOrZero(Select(sample, draw)))
  }

  predicate XVaries(rows: seq<Row>) {
    exists i, j :: 0 <= i < |rows| && 0 <= j < |rows| && rows[i].x != rows[j].x
  }

  predicate YVaries(rows: seq<Row>) {
    exists i, j :: 0 <= i < |rows| && 0 <= j < |rows| && rows[i].y != rows[j].y
  }

  /** Pearson's coefficient from the centred rows, where there are three rows and neither variable is constant. */
  function SafeCorrelation(rows: seq<Row>): Coefficient {
    if |rows| < 3 || !XVaries(rows) || !YVaries(rows) then Missing else
    var centred := SumsOf(Shift(rows, Mean(rows)));
    Of(centred.xy, centred.xx, centred.yy)
  }

  function SlowCoefficient(level: Level, clusters: seq<seq<Row>>, drawn: seq<nat>): Coefficient
    requires AreIndexes(drawn, clusters)
  {
    SafeCorrelation(LevelRows(level, SampleTo(clusters, drawn, |drawn|), |drawn|))
  }

  // ----- the form that weights sums

  /** What a cluster contributes at a level. */
  function Prepared(level: Level, cluster: seq<Row>): seq<Row>
    requires cluster != []
  {
    match level
    case Pooled => cluster
    case WithinCase => Shift(cluster, Mean(cluster))
    case BetweenCase => [Mean(cluster)]
  }

  function Statistics(level: Level, clusters: seq<seq<Row>>): (r: seq<Sums>)
    requires AreClusters(clusters)
    ensures |r| == |clusters|
  {
    seq(|clusters|, i requires 0 <= i < |clusters| => SumsOf(Prepared(level, clusters[i])))
  }

  function WeightedTo(statistics: seq<Sums>, counts: seq<nat>, k: nat): Sums
    requires k <= |statistics| == |counts|
  {
    if k == 0 then Nothing
    else WeightedTo(statistics, counts, k - 1).Plus(statistics[k - 1].Times(counts[k - 1] as real))
  }

  function FromTotals(t: Sums): Coefficient
    requires t.n != 0.0
  {
    var covariance := t.xy - t.x * t.y / t.n;
    var varianceX := t.xx - t.x * t.x / t.n;
    var varianceY := t.yy - t.y * t.y / t.n;
    Quotient(covariance, varianceX, varianceY)
  }

  /** A quotient that is not finite is dropped. */
  function Quotient(covariance: real, varianceX: real, varianceY: real): Coefficient {
    if varianceX * varianceY > 0.0 then Of(covariance, varianceX, varianceY) else Missing
  }

  function Occurrences(drawn: seq<nat>, i: nat): nat {
    if drawn == [] then 0
    else Occurrences(drawn[..|drawn| - 1], i) + if drawn[|drawn| - 1] == i then 1 else 0
  }

  /** How often each cluster was drawn. */
  function Counts(drawn: seq<nat>, clusters: nat): (r: seq<nat>)
    ensures |r| == clusters
  {
    seq(clusters, i requires 0 <= i < clusters => Occurrences(drawn, i))
  }

  // ----- the resampled rows are the prepared clusters

  /** The prepared rows of the first `k` drawn clusters. */
  function Resample(level: Level, clusters: seq<seq<Row>>, drawn: seq<nat>, k: nat): seq<Row>
    requires AreClusters(clusters) && k <= |drawn| && AreIndexes(drawn, clusters)
  {
    if k == 0 then []
    else Resample(level, clusters, drawn, k - 1) + Prepared(level, clusters[drawn[k - 1]])
  }

  lemma {:induction false} SelectAppend(a: seq<LabelledRow>, b: seq<LabelledRow>, draw: nat)
    ensures Select(a + b, draw) == Select(a, draw) + Select(b, draw)
  {
    if a == [] {
      assert a + b == b;
    } else {
      assert (a + b)[0] == a[0] && (a + b)[1..] == a[1..] + b;
      SelectAppend(a[1..], b, draw);
      var first := if a[0].draw == draw then [a[0].row] else [];
      assert first + (Select(a[1..], draw) + Select(b, draw)) == (first + Select(a[1..], draw)) + Select(b, draw);
    }
  }

  lemma {:induction false} SelectLabelled(rows: seq<Row>, draw: nat, wanted: nat)
    ensures Select(Label(draw, rows), wanted) == if draw == wanted then rows else []
  {
    if rows != [] {
      SelectLabelled(rows[1..], draw, wanted);
      assert Label(draw, rows)[1..] == Label(draw, rows[1..]);
      assert rows == [rows[0]] + rows[1..];
    }
  }

  /** Each draw is a group of its own, also when a cluster is drawn again. */
  lemma {:induction false} GroupOfDraw(clusters: seq<seq<Row>>, drawn: seq<nat>, k: nat, draw: nat)
    requires k <= |drawn| && AreIndexes(drawn, clusters)
    ensures Select(SampleTo(clusters, drawn, k), draw) == if draw < k then clusters[drawn[draw]] else []
  {
    hide Select, Label, SampleTo;
    SampleStep(clusters, drawn, k, draw);
    if k > 0 {
      GroupOfDraw(clusters, drawn, k - 1, draw);
      SelectLabelled(clusters[drawn[k - 1]], k - 1, draw);
    }
  }

  lemma SampleStep(clusters: seq<seq<Row>>, drawn: seq<nat>, k: nat, draw: nat)
    requires k <= |drawn| && AreIndexes(drawn, clusters)
    ensures k == 0 ==> Select(SampleTo(clusters, drawn, k), draw) == []
    ensures k > 0 ==>
      Select(SampleTo(clusters, drawn, k), draw)
        == Select(SampleTo(clusters, drawn, k - 1), draw) + Select(Label(k - 1, clusters[drawn[k - 1]]), draw)
  {
    hide Label;
    if k > 0 { SelectAppend(SampleTo(clusters, drawn, k - 1), Label(k - 1, clusters[drawn[k - 1]]), draw); }
  }

  lemma {:induction false} CentredSample(clusters: seq<seq<Row>>, drawn: seq<nat>, k: nat)
    requires AreClusters(clusters) && k <= |drawn| && AreIndexes(drawn, clusters)
    ensures Centre(SampleTo(clusters, drawn, k), SampleTo(clusters, drawn, |drawn|))
         == Resample(WithinCase, clusters, drawn, k)
  {
    if k > 0 {
      hide Label, Centre, Shift, Mean, SampleTo, Resample;
      OneDrawMore(clusters, drawn, k);
      CentredSample(clusters, drawn, k - 1);
      CentredDraw(clusters, drawn, k - 1);
      var before, whole := SampleTo(clusters, drawn, k - 1), SampleTo(clusters, drawn, |drawn|);
      CentreAppend(before, Label(k - 1, clusters[drawn[k - 1]]), whole);
    } else {
      NothingCentred(clusters, drawn);
    }
  }

  lemma NothingCentred(clusters: seq<seq<Row>>, drawn: seq<nat>)
    requires AreClusters(clusters) && AreIndexes(drawn, clusters)
    ensures Centre(SampleTo(clusters, drawn, 0), SampleTo(clusters, drawn, |drawn|))
         == Resample(WithinCase, clusters, drawn, 0)
  {}

  lemma OneDrawMore(clusters: seq<seq<Row>>, drawn: seq<nat>, k: nat)
    requires AreClusters(clusters) && 0 < k <= |drawn| && AreIndexes(drawn, clusters)
    ensures SampleTo(clusters, drawn, k) == SampleTo(clusters, drawn, k - 1) + Label(k - 1, clusters[drawn[k - 1]])
    ensures Resample(WithinCase, clusters, drawn, k)
         == Resample(WithinCase, clusters, drawn, k - 1)
            + Shift(clusters[drawn[k - 1]], Mean(clusters[drawn[k - 1]]))
  {
    hide Label, Shift, Mean;
  }

  lemma CentredDraw(clusters: seq<seq<Row>>, drawn: seq<nat>, draw: nat)
    requires AreClusters(clusters) && draw < |drawn| && AreIndexes(drawn, clusters)
    ensures Centre(Label(draw, clusters[drawn[draw]]), SampleTo(clusters, drawn, |drawn|))
         == Shift(clusters[drawn[draw]], Mean(clusters[drawn[draw]]))
  {
    hide SampleTo, Select, Mean;
    GroupOfDraw(clusters, drawn, |drawn|, draw);
  }

  lemma CentreAppend(a: seq<LabelledRow>, b: seq<LabelledRow>, sample: seq<LabelledRow>)
    ensures Centre(a + b, sample) == Centre(a, sample) + Centre(b, sample)
  {}

  lemma {:induction false} PooledSample(clusters: seq<seq<Row>>, drawn: seq<nat>, k: nat)
    requires AreClusters(clusters) && k <= |drawn| && AreIndexes(drawn, clusters)
    ensures Rows(SampleTo(clusters, drawn, k)) == Resample(Pooled, clusters, drawn, k)
  {
    if k > 0 {
      PooledSample(clusters, drawn, k - 1);
      var cluster := clusters[drawn[k - 1]];
      assert Rows(Label(k - 1, cluster)) == cluster;
      assert Rows(SampleTo(clusters, drawn, k)) == Rows(SampleTo(clusters, drawn, k - 1)) + Rows(Label(k - 1, cluster));
    }
  }

  lemma {:induction false} MeanSample(clusters: seq<seq<Row>>, drawn: seq<nat>, k: nat)
    requires AreClusters(clusters) && k <= |drawn| && AreIndexes(drawn, clusters)
    ensures |Resample(BetweenCase, clusters, drawn, k)| == k
    ensures forall d :: 0 <= d < k ==> Resample(BetweenCase, clusters, drawn, k)[d] == Mean(clusters[drawn[d]])
  {
    if k > 0 { MeanSample(clusters, drawn, k - 1); }
  }

  lemma ResampledRows(level: Level, clusters: seq<seq<Row>>, drawn: seq<nat>)
    requires AreClusters(clusters) && AreIndexes(drawn, clusters)
    ensures LevelRows(level, SampleTo(clusters, drawn, |drawn|), |drawn|) == Resample(level, clusters, drawn, |drawn|)
  {
    match level
    case Pooled => PooledSample(clusters, drawn, |drawn|);
    case WithinCase => CentredSample(clusters, drawn, |drawn|);
    case BetweenCase =>
      MeanSample(clusters, drawn, |drawn|);
      forall d | 0 <= d < |drawn|
        ensures MeanOrZero(Select(SampleTo(clusters, drawn, |drawn|), d)) == Mean(clusters[drawn[d]])
      {
        GroupOfDraw(clusters, drawn, |drawn|, d);
      }
  }

  // ----- the weighted totals are the sums of the resampled rows

  lemma {:induction false} OneMoreDraw(statistics: seq<Sums>, drawn: seq<nat>, e: nat, k: nat)
    requires k <= |statistics|
    ensures WeightedTo(statistics, Counts(drawn + [e], |statistics|), k)
         == WeightedTo(statistics, Counts(drawn, |statistics|), k).Plus(if e < k then statistics[e] else Nothing)
  {
    if k > 0 {
      OneMoreDraw(statistics, drawn, e, k - 1);
      assert (drawn + [e])[..|drawn|] == drawn;
      OneMore(statistics[k - 1], Occurrences(drawn, k - 1));
    }
  }

  lemma OneMore(s: Sums, c: nat)
    ensures s.Times((c + 1) as real) == s.Times(c as real).Plus(s)
  {}

  lemma {:induction false} NothingDrawn(statistics: seq<Sums>, k: nat)
    requires k <= |statistics|
    ensures WeightedTo(statistics, Counts([], |statistics|), k) == Nothing
  {
    if k > 0 { NothingDrawn(statistics, k - 1); }
  }

  /** Weighting per-cluster sums by how often each was drawn gives the sums over the resample. */
  lemma {:induction false} TotalsAreSums(level: Level, clusters: seq<seq<Row>>, drawn: seq<nat>)
    requires AreClusters(clusters) && AreIndexes(drawn, clusters)
    ensures WeightedTo(Statistics(level, clusters), Counts(drawn, |clusters|), |clusters|)
         == SumsOf(Resample(level, clusters, drawn, |drawn|))
    decreases |drawn|
  {
    hide Prepared;
    var statistics := Statistics(level, clusters);
    if drawn == [] {
      NothingDrawn(statistics, |clusters|);
    } else {
      var last := |drawn| - 1;
      var before, e := drawn[..last], drawn[last];
      assert before + [e] == drawn;
      TotalsAreSums(level, clusters, before);
      OneMoreDraw(statistics, before, e, |clusters|);
      ResamplePrefix(level, clusters, drawn, last, last);
      SumsAppend(Resample(level, clusters, drawn, last), Prepared(level, clusters[e]));
    }
  }

  lemma {:induction false} ResamplePrefix(level: Level, clusters: seq<seq<Row>>, drawn: seq<nat>, cut: nat, k: nat)
    requires AreClusters(clusters) && k <= cut <= |drawn| && AreIndexes(drawn, clusters)
    ensures Resample(level, clusters, drawn[..cut], k) == Resample(level, clusters, drawn, k)
  {
    if k > 0 { ResamplePrefix(level, clusters, drawn, cut, k - 1); }
  }

  // ----- sums over centred rows

  /** `t` are the sums of rows shifted by `m` whose own sums are `s`. */
  ghost predicate AreShifted(s: Sums, m: Row, t: Sums) {
    && t.xy == s.xy - m.x * s.y - m.y * s.x + s.n * (m.x * m.y)
    && t.xx == s.xx - 2.0 * (m.x * s.x) + s.n * (m.x * m.x)
    && t.yy == s.yy - 2.0 * (m.y * s.y) + s.n * (m.y * m.y)
  }

  lemma ShiftedRow(r: Row, m: Row)
    ensures AreShifted(SumsOfRow(r), m, SumsOfRow(Minus(r, m)))
  {}

  lemma ShiftedPlus(s: Sums, t: Sums, s': Sums, t': Sums, m: Row)
    requires AreShifted(s, m, t) && AreShifted(s', m, t')
    ensures AreShifted(s.Plus(s'), m, t.Plus(t'))
  {}

  lemma {:induction false} ShiftedSums(rows: seq<Row>, m: Row)
    ensures AreShifted(SumsOf(rows), m, SumsOf(Shift(rows, m)))
  {
    hide SumsOfRow, Minus;
    if rows != [] {
      hide AreShifted;
      ShiftedSums(rows[1..], m);
      assert Shift(rows, m)[1..] == Shift(rows[1..], m);
      ShiftedRow(rows[0], m);
      ShiftedPlus(SumsOfRow(rows[0]), SumsOfRow(Minus(rows[0], m)), SumsOf(rows[1..]), SumsOf(Shift(rows[1..], m)), m);
    }
  }

  lemma ProductOfQuotients(a: real, b: real, n: real)
    requires n > 0.0
    ensures (a / n) * b == a * b / n && n * ((a / n) * (b / n)) == a * b / n
  {
    var p, q := a / n, b / n;
    assert a == p * n && b == q * n;
    assert a * b == (p * b) * n;
  }

  /** The covariance and variances computed from totals are the sums over the rows centred on their mean. */
  lemma TotalsAreCentredSums(rows: seq<Row>)
    requires rows != []
    ensures SumsOf(rows).n == |rows| as real
    ensures AreCentred(SumsOf(rows), SumsOf(Shift(rows, Mean(rows))))
  {
    hide SumsOf;
    SumsCount(rows);
    ShiftedSums(rows, Mean(rows));
    ShiftByMean(SumsOf(rows), SumsOf(Shift(rows, Mean(rows))), Mean(rows));
  }

  ghost predicate AreCentred(s: Sums, centred: Sums) {
    && s.n > 0.0
    && s.xy - s.x * s.y / s.n == centred.xy
    && s.xx - s.x * s.x / s.n == centred.xx
    && s.yy - s.y * s.y / s.n == centred.yy
  }

  lemma ShiftByMean(s: Sums, t: Sums, m: Row)
    requires s.n > 0.0 && m == Row(s.x / s.n, s.y / s.n) && AreShifted(s, m, t)
    ensures AreCentred(s, t)
  {
    ProductOfQuotients(s.x, s.y, s.n);
    ProductOfQuotients(s.y, s.x, s.n);
    ProductOfQuotients(s.x, s.x, s.n);
    ProductOfQuotients(s.y, s.y, s.n);
  }

  // ----- the coefficient is between -1 and 1

  lemma SquareIsPositive(x: real, s: real)
    requires s == x * x
    ensures s >= 0.0 && (s == 0.0 <==> x == 0.0)
  {
    SignOfProduct(x, x, s);
  }

  lemma SignOfProduct(x: real, y: real, s: real)
    requires s == x * y
    ensures (x > 0.0 && y > 0.0) || (x < 0.0 && y < 0.0) ==> s > 0.0
    ensures x == 0.0 || y == 0.0 ==> s == 0.0
  {}

  lemma Opposite(x: real, y: real)
    requires y == -x
    ensures x * x == y * y
  {}

  lemma {:induction false} SquaresAreZero(rows: seq<Row>)
    ensures SumsOf(rows).xx >= 0.0
    ensures SumsOf(rows).xx == 0.0 <==> forall i :: 0 <= i < |rows| ==> rows[i].x == 0.0
    ensures SumsOf(rows).xx == 0.0 ==> SumsOf(rows).xy == 0.0
  {
    if rows != [] {
      hide SumsOfRow;
      SquaresAreZero(rows[1..]);
      SquareOfRow(rows[0]);
      FirstAndRest(rows);
    }
  }

  lemma SquareOfRow(r: Row)
    ensures var s := SumsOfRow(r); s.xx >= 0.0 && (s.xx == 0.0 ==> s.xy == 0.0) && (s.xx == 0.0 <==> r.x == 0.0)
  {
    SquareIsPositive(r.x, SumsOfRow(r).xx);
    SignOfProduct(r.x, r.y, SumsOfRow(r).xy);
  }

  lemma FirstAndRest(rows: seq<Row>)
    requires rows != []
    ensures (forall i :: 0 <= i < |rows| ==> rows[i].x == 0.0)
       <==> rows[0].x == 0.0 && forall i :: 0 <= i < |rows[1..]| ==> rows[1..][i].x == 0.0
  {
    assert forall i :: 0 < i < |rows| ==> rows[i] == rows[1..][i - 1];
    assert forall i :: 0 <= i < |rows[1..]| ==> rows[1..][i] == rows[i + 1];
  }

  /** The sum of the squares of `p x - q y`. */
  ghost function Combination(s: Sums, p: real, q: real): real {
    (p * p) * s.xx - 2.0 * ((p * q) * s.xy) + (q * q) * s.yy
  }

  lemma CombinationOfRow(r: Row, p: real, q: real)
    ensures Combination(SumsOfRow(r), p, q) >= 0.0
  {
    SquareOfDifference(p * r.x, q * r.y);
    SquareIsPositive(p * r.x - q * r.y, Combination(SumsOfRow(r), p, q));
  }

  lemma SquareOfDifference(a: real, b: real)
    ensures (a - b) * (a - b) == a * a - 2.0 * (a * b) + b * b
  {}

  lemma CombinationPlus(s: Sums, t: Sums, p: real, q: real)
    ensures Combination(s.Plus(t), p, q) == Combination(s, p, q) + Combination(t, p, q)
  {}

  lemma {:induction false} CombinationIsPositive(rows: seq<Row>, p: real, q: real)
    ensures Combination(SumsOf(rows), p, q) >= 0.0
  {
    if rows != [] {
      hide Combination, SumsOfRow;
      CombinationIsPositive(rows[1..], p, q);
      CombinationOfRow(rows[0], p, q);
      CombinationPlus(SumsOfRow(rows[0]), SumsOf(rows[1..]), p, q);
    }
  }

  function Swap(rows: seq<Row>): (r: seq<Row>)
    ensures |r| == |rows|
  {
    seq(|rows|, i requires 0 <= i < |rows| => Row(rows[i].y, rows[i].x))
  }

  function Swapped(s: Sums): Sums {
    Sums(s.n, s.y, s.x, s.yy, s.xx, s.xy)
  }

  lemma SwappedRow(r: Row)
    ensures SumsOfRow(Row(r.y, r.x)) == Swapped(SumsOfRow(r))
  {}

  lemma {:induction false} SwappedSums(rows: seq<Row>)
    ensures SumsOf(Swap(rows)) == Swapped(SumsOf(rows))
  {
    hide SumsOfRow;
    if rows != [] {
      SwappedSums(rows[1..]);
      SwappedRow(rows[0]);
      assert Swap(rows)[1..] == Swap(rows[1..]);
    }
  }

  lemma CauchySchwarz(rows: seq<Row>)
    ensures var s := SumsOf(rows); s.xy * s.xy <= s.xx * s.yy && s.xx >= 0.0 && s.yy >= 0.0
  {
    hide SumsOf;
    var s := SumsOf(rows);
    SquaresAreZero(rows);
    SwappedSums(rows);
    SquaresAreZero(Swap(rows));
    CombinationIsPositive(rows, s.yy, s.xy);
    Discriminant(s.xx, s.yy, s.xy);
  }

  lemma Discriminant(a: real, b: real, c: real)
    requires a >= 0.0 && b >= 0.0 && (b == 0.0 ==> c == 0.0)
    requires (b * b) * a - 2.0 * ((b * c) * c) + (c * c) * b >= 0.0
    ensures c * c <= a * b
  {
    if b > 0.0 {
      var d := a * b - c * c;
      assert (b * b) * a - 2.0 * ((b * c) * c) + (c * c) * b == b * d;
      if d < 0.0 { NegativeProduct(b, d); }
    }
  }

  lemma NegativeProduct(x: real, y: real)
    requires x > 0.0 && y < 0.0
    ensures x * y < 0.0
  {}

  /** Every coefficient the weighted form reports lies in [-1, 1], whatever root it divides by. */
  lemma CoefficientInRange(rows: seq<Row>, root: real)
    requires rows != []
    ensures SumsOf(rows).n > 0.0
    ensures var c := FromTotals(SumsOf(rows));
            c.Of? && root > 0.0 && root * root == c.varianceX * c.varianceY ==>
              c.varianceX > 0.0 && c.varianceY > 0.0 && -1.0 <= c.covariance / root <= 1.0
  {
    hide SumsOf;
    TotalsAreCentredSums(rows);
    CauchySchwarz(Shift(rows, Mean(rows)));
    InRange(SumsOf(rows), SumsOf(Shift(rows, Mean(rows))), root);
  }

  lemma InRange(s: Sums, centred: Sums, root: real)
    requires AreCentred(s, centred)
    requires centred.xy * centred.xy <= centred.xx * centred.yy && centred.xx >= 0.0 && centred.yy >= 0.0
    ensures var c := FromTotals(s);
            c.Of? && root > 0.0 && root * root == c.varianceX * c.varianceY ==>
              c.varianceX > 0.0 && c.varianceY > 0.0 && -1.0 <= c.covariance / root <= 1.0
  {
    var c := FromTotals(s);
    if c.Of? && root > 0.0 && root * root == c.varianceX * c.varianceY {
      FromCentred(s, centred);
      PositiveProduct(centred.xx, centred.yy);
      RootBound(centred.xy, root);
    }
  }

  lemma RootBound(c: real, root: real)
    requires root > 0.0 && c * c <= root * root
    ensures -1.0 <= c / root <= 1.0
  {
    AtMostRoot(c, root);
    Opposite(c, -c);
    AtMostRoot(-c, root);
    Negated(c, root);
  }

  lemma Negated(c: real, root: real)
    requires root > 0.0
    ensures -c / root == -(c / root)
  {}

  lemma AtMostRoot(c: real, root: real)
    requires root > 0.0 && c * c <= root * root
    ensures c / root <= 1.0
  {
    if c > root { Larger(c, root); }
    QuotientAtMost(c, root);
  }

  lemma Larger(c: real, root: real)
    requires c > root > 0.0
    ensures c * c > root * root
  {
    Product(c - root, c + root);
    assert (c - root) * (c + root) == c * c - root * root;
  }

  lemma QuotientAtMost(c: real, root: real)
    requires c <= root && root > 0.0
    ensures c / root <= 1.0
  {}

  lemma Product(x: real, y: real)
    requires 0.0 < x && 0.0 < y
    ensures 0.0 < x * y
  {}

  // ----- a variable is constant exactly if its variance is zero

  lemma {:induction false} ConstantSum(rows: seq<Row>, c: real)
    requires forall i :: 0 <= i < |rows| ==> rows[i].x == c
    ensures SumsOf(rows).x == SumsOf(rows).n * c
  {
    if rows != [] {
      assert rows[0].x == c;
      ConstantSum(rows[1..], c);
      assert (1.0 + SumsOf(rows[1..]).n) * c == c + SumsOf(rows[1..]).n * c;
    }
  }

  lemma VarianceIsZero(rows: seq<Row>)
    requires rows != []
    ensures SumsOf(Shift(rows, Mean(rows))).xx >= 0.0
    ensures SumsOf(Shift(rows, Mean(rows))).xx == 0.0 <==> !XVaries(rows)
  {
    hide SumsOf;
    SquaresAreZero(Shift(rows, Mean(rows)));
    ShiftToZero(rows, Mean(rows));
    if !XVaries(rows) { MeanIsConstant(rows); }
  }

  lemma ShiftToZero(rows: seq<Row>, m: Row)
    requires rows != []
    ensures (forall i :: 0 <= i < |rows| ==> Shift(rows, m)[i].x == 0.0)
       <==> (forall i :: 0 <= i < |rows| ==> rows[i].x == m.x)
  {
    assert forall i :: 0 <= i < |rows| ==> Shift(rows, m)[i].x == rows[i].x - m.x;
  }

  lemma MeanIsConstant(rows: seq<Row>)
    requires rows != [] && !XVaries(rows)
    ensures forall i :: 0 <= i < |rows| ==> rows[i].x == Mean(rows).x
  {
    hide SumsOf;
    var c := rows[0].x;
    assert forall i :: 0 <= i < |rows| ==> rows[i].x == c;
    ConstantSum(rows, c);
    SumsCount(rows);
    MeanOfConstant(SumsOf(rows).n, c);
  }

  lemma MeanOfConstant(n: real, c: real)
    requires n > 0.0
    ensures n * c / n == c
  {}

  lemma VarianceYIsZero(rows: seq<Row>)
    requires rows != []
    ensures SumsOf(Shift(rows, Mean(rows))).yy >= 0.0
    ensures SumsOf(Shift(rows, Mean(rows))).yy == 0.0 <==> !YVaries(rows)
  {
    hide SumsOf, XVaries, YVaries;
    var m := Mean(rows);
    VarianceIsZero(Swap(rows));
    SwappedSums(rows);
    SwappedSums(Shift(rows, m));
    assert Shift(Swap(rows), Row(m.y, m.x)) == Swap(Shift(rows, m));
    SwapVaries(rows);
  }

  lemma SwapVaries(rows: seq<Row>)
    ensures XVaries(Swap(rows)) <==> YVaries(rows)
  {
    if YVaries(rows) {
      var i, j :| 0 <= i < |rows| && 0 <= j < |rows| && rows[i].y != rows[j].y;
      assert Swap(rows)[i].x != Swap(rows)[j].x;
    }
    if XVaries(Swap(rows)) {
      var i, j :| 0 <= i < |rows| && 0 <= j < |rows| && Swap(rows)[i].x != Swap(rows)[j].x;
      assert rows[i].y != rows[j].y;
    }
  }

  lemma FromCentred(s: Sums, centred: Sums)
    requires AreCentred(s, centred)
    ensures FromTotals(s) == Quotient(centred.xy, centred.xx, centred.yy)
  {
    hide Quotient;
  }

  /** The two formulas differ only in that one wants three rows. */
  lemma FormulasAgree(rows: seq<Row>)
    requires rows != []
    ensures SumsOf(rows).n == |rows| as real
    ensures FromTotals(SumsOf(rows)) == Missing <==> !XVaries(rows) || !YVaries(rows)
    ensures SafeCorrelation(rows) == if |rows| < 3 then Missing else FromTotals(SumsOf(rows))
  {
    hide XVaries, YVaries, SumsOf;
    TotalsAreCentredSums(rows);
    VarianceIsZero(rows);
    VarianceYIsZero(rows);
    var s, centred := SumsOf(rows), SumsOf(Shift(rows, Mean(rows)));
    PositiveProduct(centred.xx, centred.yy);
    FromCentred(s, centred);
  }

  lemma PositiveProduct(x: real, y: real)
    requires x >= 0.0 && y >= 0.0
    ensures x * y > 0.0 <==> x != 0.0 && y != 0.0
  {
    if x > 0.0 && y > 0.0 { Product(x, y); }
    if x == 0.0 || y == 0.0 { assert x * y == 0.0; }
  }

  // ----- one draw, and all draws

  function FastCoefficient(level: Level, clusters: seq<seq<Row>>, drawn: seq<nat>): Coefficient
    requires AreClusters(clusters) && AreIndexes(drawn, clusters) && drawn != []
  {
    var totals := WeightedTo(Statistics(level, clusters), Counts(drawn, |clusters|), |clusters|);
    TotalsHaveRows(level, clusters, drawn);
    FromTotals(totals)
  }

  lemma TotalsHaveRows(level: Level, clusters: seq<seq<Row>>, drawn: seq<nat>)
    requires AreClusters(clusters) && AreIndexes(drawn, clusters) && drawn != []
    ensures WeightedTo(Statistics(level, clusters), Counts(drawn, |clusters|), |clusters|).n != 0.0
    ensures Resample(level, clusters, drawn, |drawn|) != []
  {
    hide SumsOf;
    TotalsAreSums(level, clusters, drawn);
    SumsCount(Resample(level, clusters, drawn, |drawn|));
  }

  /** A resample on which both forms report the same: three rows, or a variable that does not vary. */
  predicate Agreeable(rows: seq<Row>) {
    |rows| >= 3 || !XVaries(rows) || !YVaries(rows)
  }

  /**
    For every draw the two forms agree exactly on agreeable resamples; elsewhere only the weighted
    form reports a coefficient.
   */
  lemma FastIsSlow(level: Level, clusters: seq<seq<Row>>, drawn: seq<nat>)
    requires AreClusters(clusters) && AreIndexes(drawn, clusters) && drawn != []
    ensures var rows := LevelRows(level, SampleTo(clusters, drawn, |drawn|), |drawn|);
            var fast, slow := FastCoefficient(level, clusters, drawn), SlowCoefficient(level, clusters, drawn);
            && (fast == slow <==> Agreeable(rows))
            && (!Agreeable(rows) ==> fast.Of? && slow == Missing)
  {
    hide SumsOf, XVaries, YVaries;
    ResampledRows(level, clusters, drawn);
    TotalsAreSums(level, clusters, drawn);
    TotalsHaveRows(level, clusters, drawn);
    FormulasAgree(Resample(level, clusters, drawn, |drawn|));
  }

  /** Two cases of one row each, both drawn: only the weighted form reports a coefficient. */
  lemma TwoRowsDiffer()
    ensures var clusters := [[Row(0.0, 0.0)], [Row(1.0, 1.0)]];
            AreClusters(clusters) && AreIndexes([0, 1], clusters)
            && FastCoefficient(Pooled, clusters, [0, 1]).Of? && SlowCoefficient(Pooled, clusters, [0, 1]) == Missing
  {
    hide SumsOf, FastCoefficient, SlowCoefficient;
    var clusters := [[Row(0.0, 0.0)], [Row(1.0, 1.0)]];
    var sample := SampleTo(clusters, [0, 1], 2);
    assert sample == [LabelledRow(0, Row(0.0, 0.0)), LabelledRow(1, Row(1.0, 1.0))] by {
      assert SampleTo(clusters, [0, 1], 1) == [LabelledRow(0, Row(0.0, 0.0))];
    }
    var rows := LevelRows(Pooled, sample, 2);
    assert rows == [Row(0.0, 0.0), Row(1.0, 1.0)];
    assert rows[0].x != rows[1].x && rows[0].y != rows[1].y;
    assert XVaries(rows) && YVaries(rows) && !Agreeable(rows);
    FastIsSlow(Pooled, clusters, [0, 1]);
  }

  // ----- all draws

  /** The percentile interval: too few finite coefficients, or the percentiles of these. */
  datatype Interval = Unavailable | TooFew(valid: nat) | Percentiles(values: seq<Coefficient>)

  const LEAST_VALID := 20

  function Finite(cs: seq<Coefficient>): seq<Coefficient> {
    if cs == [] then []
    else Finite(cs[..|cs| - 1]) + if cs[|cs| - 1].Of? then [cs[|cs| - 1]] else []
  }

  function Summary(cs: seq<Coefficient>): Interval {
    Outcome(Finite(cs), |cs|)
  }

  function Outcome(finite: seq<Coefficient>, iterations: nat): Interval {
    if |finite| < LEAST_VALID || |finite| < iterations / 10 then TooFew(|finite|) else Percentiles(finite)
  }

  lemma FiniteStep(cs: seq<Coefficient>, c: Coefficient)
    ensures Finite(cs + [c]) == Finite(cs) + if c.Of? then [c] else []
    ensures Finite([]) == []
  {
    assert (cs + [c])[..|cs|] == cs;
  }

  /** An interval needs twenty finite coefficients, and one for every ten full draws. */
  lemma ReportedIff(cs: seq<Coefficient>)
    ensures Summary(cs) == Percentiles(Finite(cs)) <==> |Finite(cs)| >= 20 && 10 * |Finite(cs)| + 9 >= |cs|
    ensures Summary(cs) == TooFew(|Finite(cs)|) <==> |Finite(cs)| < 20 || 10 * |Finite(cs)| + 9 < |cs|
  {
    hide Finite;
  }

  ghost predicate AreDraws(draws: seq<seq<nat>>, clusters: seq<seq<Row>>) {
    forall i :: 0 <= i < |draws| ==> |draws[i]| == |clusters| && AreIndexes(draws[i], clusters)
  }

  function SlowCoefficients(level: Level, clusters: seq<seq<Row>>, draws: seq<seq<nat>>): (r: seq<Coefficient>)
    requires AreDraws(draws, clusters)
    ensures |r| == |draws|
  {
    seq(|draws|, i requires 0 <= i < |draws| => SlowCoefficient(level, clusters, draws[i]))
  }

  function FastCoefficients(level: Level, clusters: seq<seq<Row>>, draws: seq<seq<nat>>): (r: seq<Coefficient>)
    requires AreClusters(clusters) && AreDraws(draws, clusters) && |clusters| >= 2
    ensures |r| == |draws|
  {
    seq(|draws|, i requires 0 <= i < |draws| => FastCoefficient(level, clusters, draws[i]))
  }

  method ClusterBootstrap(level: Level, clusters: seq<seq<Row>>, draws: seq<seq<nat>>) returns (r: Interval)
    requires AreDraws(draws, clusters)
    ensures r == if draws == [] || |clusters| < 2 then Unavailable
                 else Summary(SlowCoefficients(level, clusters, draws))
  {
    hide SlowCoefficient;
    if draws == [] || |clusters| < 2 { return Unavailable; }
    var values: seq<Coefficient> := [];
    ghost var all := SlowCoefficients(level, clusters, draws);
    for i := 0 to |draws|
      invariant values == Finite(all[..i])
    {
      var value := SlowCoefficient(level, clusters, draws[i]);
      assert all[..i + 1][..i] == all[..i];
      if value.Of? { values := values + [value]; }
    }
    assert all[..|draws|] == all;
    if |values| < LEAST_VALID || |values| < |draws| / 10 { return TooFew(|values|); }
    return Percentiles(values);
  }

  method FastClusterBootstrap(level: Level, clusters: seq<seq<Row>>, draws: seq<seq<nat>>) returns (r: Interval)
    requires AreClusters(clusters) && AreDraws(draws, clusters)
    ensures r == if draws == [] || |clusters| < 2 then Unavailable
                 else Summary(FastCoefficients(level, clusters, draws))
  {
    hide Prepared, SumsOf, WeightedTo, FromTotals;
    if draws == [] || |clusters| < 2 { return Unavailable; }
    var statistics: seq<Sums> := [];
    for i := 0 to |clusters|
      invariant statistics == Statistics(level, clusters)[..i]
    {
      statistics := statistics + [SumsOf(Prepared(level, clusters[i]))];
    }
    assert statistics == Statistics(level, clusters);
    var coefficients := seq(|draws|, i requires 0 <= i < |draws| =>
      (TotalsHaveRows(level, clusters, draws[i]);
       FromTotals(WeightedTo(statistics, Counts(draws[i], |clusters|), |clusters|))));
    assert coefficients == FastCoefficients(level, clusters, draws);
    return Summary(coefficients);
  }

  /** `slow` is `fast` with some coefficients missing. */
  lemma {:induction false} FiniteAgree(fast: seq<Coefficient>, slow: seq<Coefficient>)
    requires |fast| == |slow|
    requires forall i :: 0 <= i < |fast| ==> slow[i] == fast[i] || (slow[i] == Missing && fast[i].Of?)
    ensures |Finite(slow)| <= |Finite(fast)|
    ensures fast == slow ==> Finite(slow) == Finite(fast)
    ensures |Finite(slow)| == |Finite(fast)| ==> fast == slow
  {
    if fast != [] {
      var last := |fast| - 1;
      FiniteAgree(fast[..last], slow[..last]);
      assert fast == fast[..last] + [fast[last]] && slow == slow[..last] + [slow[last]];
    }
  }

  /**
    Over any draws the two forms report the same interval, and the same number of valid draws,
    exactly if every resample has three rows or a variable that does not vary.
   */
  lemma IntervalsAgree(level: Level, clusters: seq<seq<Row>>, draws: seq<seq<nat>>)
    requires AreClusters(clusters) && AreDraws(draws, clusters) && |clusters| >= 2
    ensures Summary(FastCoefficients(level, clusters, draws)) == Summary(SlowCoefficients(level, clusters, draws))
       <==> forall i :: 0 <= i < |draws| ==>
              Agreeable(LevelRows(level, SampleTo(clusters, draws[i], |draws[i]|), |draws[i]|))
  {
    hide FastCoefficient, SlowCoefficient, Agreeable, LevelRows, Finite;
    var fast, slow := FastCoefficients(level, clusters, draws), SlowCoefficients(level, clusters, draws);
    forall i | 0 <= i < |draws|
      ensures fast[i] == slow[i] <==> Agreeable(LevelRows(level, SampleTo(clusters, draws[i], |draws[i]|), |draws[i]|))
      ensures slow[i] == fast[i] || (slow[i] == Missing && fast[i].Of?)
    {
      FastIsSlow(level, clusters, draws[i]);
    }
    FiniteAgree(fast, slow);
  }

  // ----- what a caller can check before any draw

  predicate SharesValue(r: Row, other: Row) {
    r.x == other.x || r.y == other.y
  }

  /**
    The clusters for which the two forms agree whatever is drawn: three of them; or the level within
    cases; or two clusters that have three rows together or equal values where there are only two.
   */
  predicate AlwaysAgree(level: Level, clusters: seq<seq<Row>>)
    requires AreClusters(clusters) && |clusters| >= 2
  {
    |clusters| >= 3 ||
    match level
    case WithinCase => true
    case Pooled => |clusters[0]| + |clusters[1]| >= 3 || SharesValue(clusters[0][0], clusters[1][0])
    case BetweenCase => SharesValue(Mean(clusters[0]), Mean(clusters[1]))
  }

  lemma {:induction false} ResampleLength(level: Level, clusters: seq<seq<Row>>, drawn: seq<nat>, k: nat)
    requires AreClusters(clusters) && AreIndexes(drawn, clusters) && k <= |drawn|
    ensures |Resample(level, clusters, drawn, k)| >= k
  {
    if k > 0 { ResampleLength(level, clusters, drawn, k - 1); }
  }

  lemma TwoDrawn(level: Level, clusters: seq<seq<Row>>, drawn: seq<nat>)
    requires AreClusters(clusters) && AreIndexes(drawn, clusters) && |drawn| == 2
    ensures Resample(level, clusters, drawn, 2)
         == Prepared(level, clusters[drawn[0]]) + Prepared(level, clusters[drawn[1]])
  {
    hide Prepared;
    assert Resample(level, clusters, drawn, 1) == [] + Prepared(level, clusters[drawn[0]]);
  }

  lemma AgreeableRows(rows: seq<Row>)
    ensures |rows| >= 3 ==> Agreeable(rows)
    ensures |rows| == 2 ==> (Agreeable(rows) <==> SharesValue(rows[0], rows[1]))
  {
    if |rows| == 2 {
      assert XVaries(rows) <==> rows[0].x != rows[1].x;
      assert YVaries(rows) <==> rows[0].y != rows[1].y;
    }
  }

  /** A row alone is its own mean. */
  lemma MeanOfOne(cluster: seq<Row>)
    requires |cluster| == 1
    ensures Mean(cluster) == cluster[0]
    ensures Shift(cluster, Mean(cluster)) == [Row(0.0, 0.0)]
  {
    SumsCount(cluster);
    assert cluster[1..] == [];
  }

  /** What two clusters contribute if it is one row each. */
  lemma PreparedOne(level: Level, cluster: seq<Row>)
    requires cluster != []
    ensures var rows := Prepared(level, cluster);
            && rows != []
            && (level.BetweenCase? ==> rows == [Mean(cluster)])
            && (level.Pooled? ==> rows == cluster)
            && (level.WithinCase? && |rows| == 1 ==> rows == [Row(0.0, 0.0)])
  {
    hide Mean;
    if level.WithinCase? && |cluster| == 1 { MeanOfOne(cluster); }
  }

  lemma DrawOfTwo(level: Level, clusters: seq<seq<Row>>, drawn: seq<nat>)
    requires AreClusters(clusters) && |clusters| == |drawn| == 2 && AreIndexes(drawn, clusters)
    requires AlwaysAgree(level, clusters)
    ensures Agreeable(Resample(level, clusters, drawn, 2))
  {
    hide Prepared, Mean, Agreeable;
    var rows := Resample(level, clusters, drawn, 2);
    TwoDrawn(level, clusters, drawn);
    PreparedOne(level, clusters[drawn[0]]);
    PreparedOne(level, clusters[drawn[1]]);
    AgreeableRows(rows);
    if drawn[0] != drawn[1] {
      assert drawn[0] + drawn[1] == 1;
      assert {drawn[0], drawn[1]} == {0, 1};
    }
  }

  lemma DrawOfBoth(level: Level, clusters: seq<seq<Row>>)
    requires AreClusters(clusters) && |clusters| == 2 && !AlwaysAgree(level, clusters)
    ensures AreIndexes([0, 1], clusters) && !Agreeable(Resample(level, clusters, [0, 1], 2))
  {
    hide Prepared, Mean, Agreeable;
    TwoDrawn(level, clusters, [0, 1]);
    PreparedOne(level, clusters[0]);
    PreparedOne(level, clusters[1]);
    AgreeableRows(Resample(level, clusters, [0, 1], 2));
  }

  /** If the clusters agree always, so they do on each draw. */
  lemma DrawAgrees(level: Level, clusters: seq<seq<Row>>, drawn: seq<nat>)
    requires AreClusters(clusters) && |clusters| == |drawn| >= 2 && AreIndexes(drawn, clusters)
    requires AlwaysAgree(level, clusters)
    ensures FastCoefficient(level, clusters, drawn) == SlowCoefficient(level, clusters, drawn)
  {
    hide Resample, LevelRows, FastCoefficient, SlowCoefficient, Agreeable, AlwaysAgree;
    FastIsSlow(level, clusters, drawn);
    ResampledRows(level, clusters, drawn);
    ResampleLength(level, clusters, drawn, |drawn|);
    AgreeableRows(Resample(level, clusters, drawn, |drawn|));
    if |drawn| == 2 { DrawOfTwo(level, clusters, drawn); }
  }

  /** The draw of both clusters tells the forms apart, if anything does. */
  lemma BothDiffer(level: Level, clusters: seq<seq<Row>>)
    requires AreClusters(clusters) && |clusters| >= 2 && !AlwaysAgree(level, clusters)
    ensures |clusters| == 2 && AreIndexes([0, 1], clusters)
    ensures FastCoefficient(level, clusters, [0, 1]) != SlowCoefficient(level, clusters, [0, 1])
  {
    hide Resample, LevelRows, FastCoefficient, SlowCoefficient, Agreeable;
    DrawOfBoth(level, clusters);
    FastIsSlow(level, clusters, [0, 1]);
    ResampledRows(level, clusters, [0, 1]);
  }

  /** The two forms agree on every draw exactly for the clusters for which `AlwaysAgree` says so. */
  lemma AgreeOnEveryDraw(level: Level, clusters: seq<seq<Row>>)
    requires AreClusters(clusters) && |clusters| >= 2
    ensures AlwaysAgree(level, clusters) <==>
      forall drawn: seq<nat> :: |drawn| == |clusters| && AreIndexes(drawn, clusters) ==>
        FastCoefficient(level, clusters, drawn) == SlowCoefficient(level, clusters, drawn)
  {
    hide FastCoefficient, SlowCoefficient, AlwaysAgree;
    if AlwaysAgree(level, clusters) {
      forall drawn: seq<nat> | |drawn| == |clusters| && AreIndexes(drawn, clusters)
        ensures FastCoefficient(level, clusters, drawn) == SlowCoefficient(level, clusters, drawn)
      {
        DrawAgrees(level, clusters, drawn);
      }
    } else {
      BothDiffer(level, clusters);
    }
  }

  /** And so they report the same interval and number of valid draws for all draws exactly for these clusters. */
  lemma SameIntervalAlways(level: Level, clusters: seq<seq<Row>>)
    requires AreClusters(clusters) && |clusters| >= 2
    ensures AlwaysAgree(level, clusters) <==>
      forall draws :: AreDraws(draws, clusters) ==>
        Summary(FastCoefficients(level, clusters, draws)) == Summary(SlowCoefficients(level, clusters, draws))
  {
    hide FastCoefficient, SlowCoefficient, AlwaysAgree, Summary;
    if AlwaysAgree(level, clusters) {
      forall draws | AreDraws(draws, clusters)
        ensures FastCoefficients(level, clusters, draws) == SlowCoefficients(level, clusters, draws)
      {
        forall i | 0 <= i < |draws|
          ensures FastCoefficient(level, clusters, draws[i]) == SlowCoefficient(level, clusters, draws[i])
        {
          DrawAgrees(level, clusters, draws[i]);
        }
      }
    } else {
      BothDiffer(level, clusters);
      OneDraw(level, clusters, [0, 1]);
    }
  }

  lemma OneDraw(level: Level, clusters: seq<seq<Row>>, drawn: seq<nat>)
    requires AreClusters(clusters) && |clusters| == |drawn| >= 2 && AreIndexes(drawn, clusters)
    requires FastCoefficient(level, clusters, drawn) != SlowCoefficient(level, clusters, drawn)
    ensures AreDraws([drawn], clusters)
    ensures Summary(FastCoefficients(level, clusters, [drawn])) != Summary(SlowCoefficients(level, clusters, [drawn]))
  {
    hide FastCoefficient, SlowCoefficient, LevelRows;
    IntervalsAgree(level, clusters, [drawn]);
    FastIsSlow(level, clusters, drawn);
    assert [drawn][0] == drawn;
  }
}
