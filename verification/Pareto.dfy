/**
  Ranking benchmark cases by peeling off fronts of undominated points, and the case nearest to the
  ideal point.
 */
module Pareto {

  /** One value per objective; smaller is better. */
  type Point = seq<real>

  predicate Dominates(p: Point, q: Point) {
    && |p| == |q|
    && (forall k :: 0 <= k < |p| ==> p[k] <= q[k])
    && (exists k :: 0 <= k < |p| && p[k] < q[k])
  }

  function Dominators(values: seq<Point>, i: nat): set<nat>
    requires i < |values|
  {
    set j: nat | j < |values| && Dominates(values[j], values[i])
  }

  /** The points among `indexes` that no point among them dominates. */
  function Front(values: seq<Point>, indexes: set<nat>): set<nat>
    requires forall i <- indexes :: i < |values|
  {
    set i <- indexes | forall j <- indexes :: !Dominates(values[j], values[i])
  }

  /** Another point that is as good in every objective. */
  ghost predicate NowhereWorse(p: Point, q: Point) {
    |p| == |q| && p != q && forall k :: 0 <= k < |p| ==> p[k] <= q[k]
  }

  /** Of two different points, the one that is nowhere worse is somewhere better. */
  lemma DominatesIff(p: Point, q: Point)
    ensures Dominates(p, q) <==> NowhereWorse(p, q)
  {
    if NowhereWorse(p, q) {
      var k :| 0 <= k < |p| && p[k] != q[k];
      assert p[k] < q[k];
    }
  }

  lemma DominatorsAre(values: seq<Point>, i: nat)
    requires i < |values|
    ensures Dominators(values, i) == set j: nat | j < |values| && NowhereWorse(values[j], values[i])
  {
    hide Dominates, NowhereWorse;
    forall j: nat | j < |values|
      ensures Dominates(values[j], values[i]) <==> NowhereWorse(values[j], values[i])
    {
      DominatesIff(values[j], values[i]);
    }
  }

  /** What dominates a dominator dominates, and so does the dominator itself. */
  lemma MoreDominators(values: seq<Point>, j: nat, i: nat)
    requires i < |values| && j < |values| && Dominates(values[j], values[i])
    ensures |Dominators(values, j)| < |Dominators(values, i)|
  {
    var a, b := Dominators(values, j), Dominators(values, i);
    forall k | k in a
      ensures k in b
    {
      DominatesIsTransitive(values[k], values[j], values[i]);
    }
    assert j in b && j !in a;
    Smaller(a, b, j);
  }

  lemma Smaller(a: set<nat>, b: set<nat>, x: nat)
    requires a <= b && x in b && x !in a
    ensures |a| < |b|
  {
    assert a <= b - {x};
    Subset(a, b - {x});
  }

  lemma {:induction false} Subset(a: set<nat>, b: set<nat>)
    requires a <= b
    ensures |a| <= |b|
  {
    if x :| x in a { Subset(a - {x}, b - {x}); }
  }

  // ----- every front has a point

  lemma DominatesIsTransitive(p: Point, q: Point, r: Point)
    requires Dominates(p, q) && Dominates(q, r)
    ensures Dominates(p, r)
  {
    var k :| 0 <= k < |p| && p[k] < q[k];
    assert p[k] < q[k] <= r[k];
  }

  /** The fallback for an empty front is never taken. */
  lemma {:induction false} FrontHasAPoint(values: seq<Point>, indexes: set<nat>)
    requires indexes != {} && forall i <- indexes :: i < |values|
    ensures {} != Front(values, indexes) <= indexes
  {
    var i :| i in indexes;
    var rest := indexes - {i};
    assert forall j <- indexes :: j == i || j in rest;
    if rest == {} {
      assert i in Front(values, indexes);
    } else {
      FrontHasAPoint(values, rest);
      var m :| m in Front(values, rest);
      if Dominates(values[i], values[m]) {
        forall j <- indexes
          ensures !Dominates(values[j], values[i])
        {
          if Dominates(values[j], values[i]) {
            DominatesIsTransitive(values[j], values[i], values[m]);
          }
        }
        assert i in Front(values, indexes);
      } else {
        assert m in Front(values, indexes);
      }
    }
  }

  // ----- dominance chains

  /** Each point of the chain dominates the next, and `i` is the last. */
  ghost predicate IsChain(values: seq<Point>, chain: seq<nat>, i: nat) {
    && chain != [] && chain[|chain| - 1] == i
    && (forall k :: 0 <= k < |chain| ==> chain[k] < |values|)
    && (forall k :: 0 < k < |chain| ==> Dominates(values[chain[k - 1]], values[chain[k]]))
  }

  ghost predicate HasChain(values: seq<Point>, i: nat, length: nat) {
    exists chain :: IsChain(values, chain, i) && |chain| == length
  }

  /** `length` is the length of the longest dominance chain that ends at `i`. */
  ghost predicate IsLongestChain(values: seq<Point>, i: nat, length: nat) {
    && HasChain(values, i, length)
    && (forall chain :: IsChain(values, chain, i) ==> |chain| <= length)
  }

  lemma ChainGrows(values: seq<Point>, j: nat, i: nat, length: nat)
    requires HasChain(values, j, length) && i < |values| && j < |values| && Dominates(values[j], values[i])
    ensures HasChain(values, i, length + 1)
  {
    var chain :| IsChain(values, chain, j) && |chain| == length;
    assert IsChain(values, chain + [i], i);
  }

  /** A chain is one longer than the chain to one of the dominators of its end. */
  lemma ChainBound(values: seq<Point>, i: nat, length: nat)
    requires i < |values|
    requires forall j: nat, chain ::
               j < |values| && Dominates(values[j], values[i]) && IsChain(values, chain, j) ==> |chain| <= length
    ensures forall chain :: IsChain(values, chain, i) ==> |chain| <= length + 1
  {
    forall chain | IsChain(values, chain, i)
      ensures |chain| <= length + 1
    {
      if |chain| > 1 {
        var last := |chain| - 1;
        assert IsChain(values, chain[..last], chain[last - 1]);
      }
    }
  }

  // ----- ranking

  /** What peeling the fronts before `rank` has established. */
  ghost predicate Peeled(values: seq<Point>, ranks: seq<nat>, remaining: set<nat>, rank: nat) {
    && |ranks| == |values|
    && (forall i <- remaining :: i < |values| && HasChain(values, i, rank))
    && (forall i :: 0 <= i < |values| && i !in remaining ==> 0 < ranks[i] < rank && IsLongestChain(values, i, ranks[i]))
  }

  lemma PeelingStarts(values: seq<Point>, ranks: seq<nat>, remaining: set<nat>)
    requires |ranks| == |values|
    requires forall i: nat :: i in remaining <==> i < |values|
    ensures Peeled(values, ranks, remaining, 1)
  {
    forall i <- remaining
      ensures HasChain(values, i, 1)
    {
      assert IsChain(values, [i], i);
    }
  }

  lemma FrontIsNext(values: seq<Point>, ranks: seq<nat>, remaining: set<nat>, rank: nat, i: nat)
    requires Peeled(values, ranks, remaining, rank) && rank > 0 && i in Front(values, remaining)
    ensures IsLongestChain(values, i, rank)
  {
    forall j: nat, chain | j < |values| && Dominates(values[j], values[i]) && IsChain(values, chain, j)
      ensures |chain| <= rank - 1
    {
      assert j !in remaining;
    }
    ChainBound(values, i, rank - 1);
  }

  lemma PeelingKeeps(values: seq<Point>, ranks: seq<nat>, remaining: set<nat>, rank: nat, after: seq<nat>)
    requires Peeled(values, ranks, remaining, rank) && rank > 0 && |after| == |values|
    requires forall i :: 0 <= i < |values| ==> after[i] == if i in Front(values, remaining) then rank else ranks[i]
    ensures Peeled(values, after, remaining - Front(values, remaining), rank + 1)
  {
    var front := Front(values, remaining);
    forall i | i in remaining && i !in front
      ensures HasChain(values, i, rank + 1)
    {
      var j :| j in remaining && Dominates(values[j], values[i]);
      ChainGrows(values, j, i, rank);
    }
    forall i | 0 <= i < |values| && i !in remaining - front
      ensures 0 < after[i] < rank + 1 && IsLongestChain(values, i, after[i])
    {
      if i in front { FrontIsNext(values, ranks, remaining, rank, i); }
    }
  }

  lemma PeelingEnds(values: seq<Point>, ranks: seq<nat>, rank: nat)
    requires Peeled(values, ranks, {}, rank)
    ensures |ranks| == |values|
    ensures forall i :: 0 <= i < |values| ==> IsLongestChain(values, i, ranks[i])
  {}

  /** A point heads the ranking exactly if nothing dominates it. */
  lemma FirstRank(values: seq<Point>, i: nat, rank: nat)
    requires i < |values| && IsLongestChain(values, i, rank)
    ensures rank == 1 <==> Dominators(values, i) == {}
  {
    var chain :| IsChain(values, chain, i) && |chain| == rank;
    if |chain| > 1 { assert chain[|chain| - 2] in Dominators(values, i); }
    if j :| j in Dominators(values, i) { assert IsChain(values, [j, i], i); }
  }

  /** A dominator has a shorter longest chain. */
  lemma DominatorRanksBefore(values: seq<Point>, j: nat, i: nat, rankJ: nat, rankI: nat)
    requires i < |values| && j < |values| && Dominates(values[j], values[i])
    requires IsLongestChain(values, j, rankJ) && IsLongestChain(values, i, rankI)
    ensures rankJ < rankI
  {
    ChainGrows(values, j, i, rankJ);
  }

  /** Ranks and counts in the values themselves. */
  ghost predicate AreRanks(values: seq<Point>, ranks: seq<nat>, dominatedBy: seq<nat>)
    requires |ranks| == |dominatedBy| == |values|
  {
    && (forall i :: 0 <= i < |values| ==>
          dominatedBy[i] == |set j: nat | j < |values| && NowhereWorse(values[j], values[i])|)
    && (forall i, j :: 0 <= i < |values| && 0 <= j < |values| && NowhereWorse(values[j], values[i]) ==>
          ranks[j] < ranks[i] && dominatedBy[j] < dominatedBy[i])
  }

  lemma RanksMean(values: seq<Point>, ranks: seq<nat>, dominatedBy: seq<nat>)
    requires |ranks| == |dominatedBy| == |values|
    requires forall i :: 0 <= i < |values| ==> dominatedBy[i] == |Dominators(values, i)|
    requires forall i :: 0 <= i < |values| ==> IsLongestChain(values, i, ranks[i])
    ensures AreRanks(values, ranks, dominatedBy)
  {
    hide Dominates, NowhereWorse, IsLongestChain, Dominators;
    forall i: nat | i < |values|
      ensures dominatedBy[i] == |set j: nat | j < |values| && NowhereWorse(values[j], values[i])|
    {
      DominatorsAre(values, i);
    }
    forall i, j | 0 <= i < |values| && 0 <= j < |values| && NowhereWorse(values[j], values[i])
      ensures ranks[j] < ranks[i] && dominatedBy[j] < dominatedBy[i]
    {
      DominatesIff(values[j], values[i]);
      DominatorRanksBefore(values, j, i, ranks[j], ranks[i]);
      MoreDominators(values, j, i);
    }
  }

  lemma NoneCounted(s: set<nat>)
    ensures |s| == 0 <==> s == {}
  {}

  method ParetoRanks(values: seq<Point>) returns (ranks: seq<nat>, dominatedBy: seq<nat>)
    ensures |ranks| == |dominatedBy| == |values|
    ensures forall i :: 0 <= i < |values| ==> dominatedBy[i] == |Dominators(values, i)|
    ensures forall i :: 0 <= i < |values| ==> IsLongestChain(values, i, ranks[i])
    ensures forall i :: 0 <= i < |values| ==> (ranks[i] == 1 <==> dominatedBy[i] == 0)
    ensures AreRanks(values, ranks, dominatedBy)
  {
    hide IsLongestChain, Peeled, Front, Dominators, AreRanks;
    var n := |values|;
    var rankOf := new nat[n](_ => 0);
    var count := new nat[n](_ => 0);
    for index := 0 to n
      invariant forall i :: 0 <= i < index ==> count[i] == |Dominators(values, i)|
    {
      count[index] := |Dominators(values, index)|;
    }
    var remaining := new bool[n](_ => true);
    var indexes := set i: nat | i < n && remaining[i];
    var rank := 1;
    PeelingStarts(values, rankOf[..], indexes);
    while indexes != {}
      invariant indexes == set i: nat | i < n && remaining[i]
      invariant rank > 0 && Peeled(values, rankOf[..], indexes, rank)
      invariant forall i :: 0 <= i < n ==> count[i] == |Dominators(values, i)|
      decreases indexes
    {
      var front := Front(values, indexes);
      FrontHasAPoint(values, indexes);
      ghost var before, former := rankOf[..], indexes;
      forall i | 0 <= i < n && i in front { rankOf[i] := rank; }
      forall i | 0 <= i < n && i in front { remaining[i] := false; }
      PeelingKeeps(values, before, indexes, rank, rankOf[..]);
      indexes := set i: nat | i < n && remaining[i];
      assert forall i :: 0 <= i < n ==> (remaining[i] <==> i in former && i !in front);
      assert indexes == former - front;
      rank := rank + 1;
    }
    PeelingEnds(values, rankOf[..], rank);
    ranks, dominatedBy := rankOf[..], count[..];
    RanksMean(values, ranks, dominatedBy);
    forall i | 0 <= i < n
      ensures ranks[i] == 1 <==> dominatedBy[i] == 0
    {
      FirstRank(values, i, ranks[i]);
      NoneCounted(Dominators(values, i));
    }
  }

  // ----- the ideal point

  function Column(values: seq<Point>, k: nat): seq<real>
    requires forall p <- values :: k < |p|
  {
    seq(|values|, i requires 0 <= i < |values| => values[i][k])
  }

  function Least(xs: seq<real>): (r: real)
    requires xs != []
    ensures r in xs && forall x <- xs :: r <= x
  {
    if |xs| == 1 then xs[0] else
    var r := Least(xs[1..]);
    assert forall x <- xs :: x == xs[0] || x in xs[1..];
    if xs[0] <= r then xs[0] else r
  }

  function Greatest(xs: seq<real>): (r: real)
    requires xs != []
    ensures r in xs && forall x <- xs :: x <= r
  {
    if |xs| == 1 then xs[0] else
    var r := Greatest(xs[1..]);
    assert forall x <- xs :: x == xs[0] || x in xs[1..];
    if r <= xs[0] then xs[0] else r
  }

  function Spread(values: seq<Point>, k: nat): (r: real)
    requires values != [] && forall p <- values :: k < |p|
    ensures r > 0.0
  {
    var column := Column(values, k);
    assert Least(column) <= Greatest(column);
    if Greatest(column) == Least(column) then 1.0 else Greatest(column) - Least(column)
  }

  function Normalized(values: seq<Point>, p: Point): (r: Point)
    requires values != [] && forall q <- values :: |q| == |p|
    ensures |r| == |p|
  {
    seq(|p|, k requires 0 <= k < |p| => (p[k] - Least(Column(values, k))) / Spread(values, k))
  }

  function Squared(x: real): real { x * x }

  function SumOfSquares(p: Point): real {
    if p == [] then 0.0 else Squared(p[0]) + SumOfSquares(p[1..])
  }

  lemma NormalizedKeepsOrder(values: seq<Point>, i: nat, j: nat)
    requires i < |values| && j < |values| && forall q <- values :: |q| == |values[i]|
    requires Dominates(values[j], values[i])
    ensures Dominates(Normalized(values, values[j]), Normalized(values, values[i]))
    ensures forall k :: 0 <= k < |values[i]| ==>
              0.0 <= Normalized(values, values[j])[k] <= Normalized(values, values[i])[k]
  {
    var p, q := Normalized(values, values[j]), Normalized(values, values[i]);
    forall k | 0 <= k < |p|
      ensures 0.0 <= p[k] <= q[k] && (values[j][k] < values[i][k] ==> p[k] < q[k])
    {
      assert Column(values, k)[j] in Column(values, k);
      Scaling(values[j][k], values[i][k], Least(Column(values, k)), Spread(values, k));
    }
  }

  /**
    Normalized objectives lie between 0, at the least value, and 1, at the greatest unless all are the
    same, and keep the proportions between the values.
   */
  lemma NormalizedMeans(values: seq<Point>, i: nat, k: nat)
    requires i < |values| && (forall q <- values :: |q| == |values[i]|) && k < |values[i]|
    ensures var low, high := Least(Column(values, k)), Greatest(Column(values, k));
            IsShare(values[i][k], low, high, Normalized(values, values[i])[k])
  {
    hide Normalized, Spread, Least, Greatest, Column, IsShare;
    var column := Column(values, k);
    NormalizedIs(values, i, k);
    InColumn(values, i, k);
    Share(values[i][k], Least(column), Greatest(column), Spread(values, k), Normalized(values, values[i])[k]);
  }

  lemma InColumn(values: seq<Point>, i: nat, k: nat)
    requires i < |values| && (forall q <- values :: |q| == |values[i]|) && k < |values[i]|
    ensures Least(Column(values, k)) <= values[i][k] <= Greatest(Column(values, k))
  {
    assert Column(values, k)[i] in Column(values, k);
  }

  lemma NormalizedIs(values: seq<Point>, i: nat, k: nat)
    requires i < |values| && (forall q <- values :: |q| == |values[i]|) && k < |values[i]|
    ensures var low, high := Least(Column(values, k)), Greatest(Column(values, k));
            && Spread(values, k) == (if high == low then 1.0 else high - low)
            && Normalized(values, values[i])[k] == (values[i][k] - low) / Spread(values, k)
  {
    hide Least, Greatest;
  }

  /** `r` is where `x` lies between `low` and `high`. */
  ghost predicate IsShare(x: real, low: real, high: real, r: real) {
    && 0.0 <= r <= 1.0 && (r == 0.0 <==> x == low) && (r == 1.0 <==> x == high && high != low)
    && r * (high - low) == x - low
  }

  lemma Share(x: real, low: real, high: real, spread: real, r: real)
    requires low <= x <= high && spread == (if high == low then 1.0 else high - low) && r == (x - low) / spread
    ensures IsShare(x, low, high, r)
  {}

  lemma Scaling(x: real, y: real, least: real, spread: real)
    requires least <= x <= y && spread > 0.0
    ensures 0.0 <= (x - least) / spread <= (y - least) / spread
    ensures x < y ==> (x - least) / spread < (y - least) / spread
  {}

  lemma {:induction false} SumOfSquaresGrows(p: Point, q: Point)
    requires |p| == |q| && forall k :: 0 <= k < |p| ==> 0.0 <= p[k] <= q[k]
    ensures SumOfSquares(p) <= SumOfSquares(q)
    ensures Dominates(p, q) ==> SumOfSquares(p) < SumOfSquares(q)
  {
    hide Squared;
    if p != [] {
      SumOfSquaresGrows(p[1..], q[1..]);
      Square(p[0], q[0]);
      if Dominates(p, q) && p[0] == q[0] {
        var k :| 0 <= k < |p| && p[k] < q[k];
        assert p[1..][k - 1] < q[1..][k - 1];
      }
    }
  }

  lemma Square(x: real, y: real)
    requires 0.0 <= x <= y
    ensures Squared(x) <= Squared(y) && (x < y ==> Squared(x) < Squared(y))
  {
    if x < y {
      Product(y - x, y + x);
      assert (y - x) * (y + x) == y * y - x * x;
    }
  }

  lemma Product(x: real, y: real)
    requires 0.0 < x && 0.0 < y
    ensures 0.0 < x * y
  {}

  /** All cases have the same objectives. */
  ghost predicate IsTable(values: seq<Point>) {
    forall i, j :: 0 <= i < |values| && 0 <= j < |values| ==> |values[i]| == |values[j]|
  }

  /** The distances to the ideal point: roots of the sums of squares of the normalized objectives. */
  ghost predicate AreDistances(values: seq<Point>, distances: seq<real>)
    requires IsTable(values)
  {
    && |distances| == |values|
    && forall j :: 0 <= j < |values| ==>
         distances[j] >= 0.0 && Squared(distances[j]) == SumOfSquares(Normalized(values, values[j]))
  }

  /** A case no farther from the ideal point than any other is on the first front. */
  lemma NearestIsOptimal(values: seq<Point>, distances: seq<real>, i: nat, rank: nat)
    requires i < |values| == |distances| && IsTable(values)
    ensures AreDistances(values, distances) && IsLongestChain(values, i, rank)
         && (forall j :: 0 <= j < |values| ==> distances[i] <= distances[j])
        ==> rank == 1
  {
    hide Squared, SumOfSquares, Normalized, IsLongestChain;
    if AreDistances(values, distances) && IsLongestChain(values, i, rank)
       && forall j :: 0 <= j < |values| ==> distances[i] <= distances[j]
    {
      FirstRank(values, i, rank);
      if j :| j in Dominators(values, i) {
        NormalizedKeepsOrder(values, i, j);
        assert Squared(distances[i]) == SumOfSquares(Normalized(values, values[i]));
        SumOfSquaresGrows(Normalized(values, values[j]), Normalized(values, values[i]));
        Square(distances[i], distances[j]);
        assert false;
      }
    }
  }
}
