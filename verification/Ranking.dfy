/** Ranks with ties averaged, as rank correlations need them. */
module Ranking {
  import opened Permutations

  // ----- what a rank is

  function Smaller(values: seq<real>, x: real): nat {
    if values == [] then 0
    else Smaller(values[..|values| - 1], x) + if values[|values| - 1] < x then 1 else 0
  }

  function Equal(values: seq<real>, x: real): nat {
    if values == [] then 0
    else Equal(values[..|values| - 1], x) + if values[|values| - 1] == x then 1 else 0
  }

  /** The mean of the places that the values equal to `x` take. */
  function Rank(values: seq<real>, x: real): real {
    Smaller(values, x) as real + (Equal(values, x) + 1) as real / 2.0
  }

  // ----- ranks order values as the values are ordered

  lemma {:induction false} CountsGrow(values: seq<real>, x: real, y: real)
    requires x < y
    ensures Smaller(values, x) + Equal(values, x) <= Smaller(values, y)
  {
    if values != [] { CountsGrow(values[..|values| - 1], x, y); }
  }

  lemma {:induction false} OccursInItself(values: seq<real>, i: nat)
    requires i < |values|
    ensures Equal(values, values[i]) >= 1
  {
    if i < |values| - 1 { OccursInItself(values[..|values| - 1], i); }
  }

  lemma RanksKeepOrder(values: seq<real>, i: nat, j: nat)
    requires i < |values| && j < |values|
    ensures values[i] < values[j] <==> Rank(values, values[i]) < Rank(values, values[j])
    ensures values[i] == values[j] <==> Rank(values, values[i]) == Rank(values, values[j])
  {
    hide Smaller, Equal;
    OccursInItself(values, i);
    OccursInItself(values, j);
    if values[i] < values[j] { CountsGrow(values, values[i], values[j]); }
    if values[j] < values[i] { CountsGrow(values, values[j], values[i]); }
  }

  // ----- the sum of the ranks

  /** How the values of `b` stand below those of `a`: one for a smaller value, a half for an equal one. */
  function Below(a: seq<real>, b: seq<real>): real {
    if a == [] then 0.0
    else Below(a[..|a| - 1], b) + Smaller(b, a[|a| - 1]) as real + Equal(b, a[|a| - 1]) as real / 2.0
  }

  lemma {:induction false} BelowAppend(a: seq<real>, b: seq<real>, y: real)
    ensures Below(a, b + [y]) == Below(a, b) + (|a| - Smaller(a, y)) as real - Equal(a, y) as real / 2.0
  {
    if a != [] {
      BelowAppend(a[..|a| - 1], b, y);
      assert (b + [y])[..|b|] == b;
    }
  }

  /** Of any two values one is below the other, or each is half below. */
  lemma {:induction false} BelowEachOther(a: seq<real>)
    ensures Below(a, a) == (|a| * |a|) as real / 2.0
  {
    if a != [] {
      var n := |a| - 1;
      BelowEachOther(a[..n]);
      assert a == a[..n] + [a[n]];
      BelowAppend(a[..n], a[..n], a[n]);
      assert (n + 1) * (n + 1) == n * n + 2 * n + 1;
    }
  }

  function SumOfRanks(some: seq<real>, values: seq<real>): real {
    if some == [] then 0.0 else SumOfRanks(some[..|some| - 1], values) + Rank(values, some[|some| - 1])
  }

  lemma {:induction false} SumIsBelow(some: seq<real>, values: seq<real>)
    ensures SumOfRanks(some, values) == Below(some, values) + |some| as real / 2.0
  {
    if some != [] { SumIsBelow(some[..|some| - 1], values); }
  }

  lemma RanksSum(values: seq<real>)
    ensures SumOfRanks(values, values) == (|values| * (|values| + 1)) as real / 2.0
  {
    SumIsBelow(values, values);
    BelowEachOther(values);
  }

  // ----- the program

  /** `order` lists every position once, smallest value first; ties in any order. */
  ghost predicate IsSorting(values: seq<real>, order: seq<nat>) {
    && |order| == |values| && AreDistinct(order) && AreBelow(order, |values|)
    && (forall k, l :: 0 <= k < l < |order| ==> Sorted(values, order)[k] <= Sorted(values, order)[l])
  }

  function Sorted(values: seq<real>, order: seq<nat>): (r: seq<real>)
    requires AreBelow(order, |values|)
    ensures |r| == |order| && forall k :: 0 <= k < |r| ==> r[k] == values[order[k]]
  {
    seq(|order|, k requires 0 <= k < |order| => values[order[k]])
  }

  lemma {:induction false} CountsAppend(a: seq<real>, b: seq<real>, x: real)
    ensures Smaller(a + b, x) == Smaller(a, x) + Smaller(b, x)
    ensures Equal(a + b, x) == Equal(a, x) + Equal(b, x)
  {
    if b == [] {
      assert a + b == a;
    } else {
      assert (a + b)[..|a + b| - 1] == a + b[..|b| - 1];
      CountsAppend(a, b[..|b| - 1], x);
    }
  }

  lemma CountsInsert(a: seq<real>, v: real, b: seq<real>, x: real)
    ensures Smaller(a + [v] + b, x) == Smaller(a + b, x) + Smaller([v], x)
    ensures Equal(a + [v] + b, x) == Equal(a + b, x) + Equal([v], x)
  {
    hide Smaller, Equal;
    CountsAppend(a + [v], b, x);
    CountsAppend(a, [v], x);
    CountsAppend(a, b, x);
  }

  lemma SortedWithoutLast(values: seq<real>, order: seq<nat>, k: nat)
    requires values != [] && |order| == |values| && AreDistinct(order) && AreBelow(order, |values|)
    requires k < |order| && order[k] == |values| - 1
    ensures AreDistinct(Without(order, k)) && AreBelow(Without(order, k), |values| - 1)
    ensures var all, n := Sorted(values, order), |values| - 1;
            && Sorted(values[..n], Without(order, k)) == all[..k] + all[k + 1..]
            && all == all[..k] + [values[n]] + all[k + 1..]
  {
    WithoutLargest(order, |values|, k);
  }

  lemma CountsLast(values: seq<real>, x: real)
    requires values != []
    ensures var n := |values| - 1;
            && Smaller(values, x) == Smaller(values[..n], x) + Smaller([values[n]], x)
            && Equal(values, x) == Equal(values[..n], x) + Equal([values[n]], x)
  {
    var n := |values| - 1;
    assert values == values[..n] + [values[n]];
    CountsAppend(values[..n], [values[n]], x);
  }

  lemma CountsWithoutLast(values: seq<real>, order: seq<nat>, k: nat, x: real)
    requires values != [] && |order| == |values| && AreDistinct(order) && AreBelow(order, |values|)
    requires k < |order| && order[k] == |values| - 1
    ensures AreDistinct(Without(order, k)) && AreBelow(Without(order, k), |values| - 1)
    ensures var n := |values| - 1; var rest := Sorted(values[..n], Without(order, k));
            && Smaller(Sorted(values, order), x) == Smaller(rest, x) + Smaller([values[n]], x)
            && Equal(Sorted(values, order), x) == Equal(rest, x) + Equal([values[n]], x)
  {
    hide Smaller, Equal, Sorted, AreDistinct, AreBelow, Without;
    SortedWithoutLast(values, order, k);
    var all := Sorted(values, order);
    CountsInsert(all[..k], values[|values| - 1], all[k + 1..], x);
  }

  /** Counting does not depend on the order. */
  lemma {:induction false} SortedCounts(values: seq<real>, order: seq<nat>, x: real)
    requires |order| == |values| && AreDistinct(order) && AreBelow(order, |values|)
    ensures Smaller(Sorted(values, order), x) == Smaller(values, x)
    ensures Equal(Sorted(values, order), x) == Equal(values, x)
    decreases |values|
  {
    if values != [] {
      hide Smaller, Equal, Sorted, AreDistinct, AreBelow, Without;
      var n := |values| - 1;
      var k := AllOccur(order, |values|, n);
      CountsWithoutLast(values, order, k, x);
      SortedCounts(values[..n], Without(order, k), x);
      CountsLast(values, x);
    }
  }

  /** Between `start` and `end` lies the block of the values equal to the one at `start`. */
  ghost predicate IsBlock(sorted: seq<real>, start: nat, end: nat) {
    && start < end <= |sorted|
    && (forall k :: 0 <= k < start ==> sorted[k] < sorted[start])
    && (forall k :: start <= k < end ==> sorted[k] == sorted[start])
    && (forall k :: end <= k < |sorted| ==> sorted[start] < sorted[k])
  }

  lemma {:induction false} BlockCounts(sorted: seq<real>, start: nat, end: nat, x: real, n: nat)
    requires n <= |sorted| && start <= end <= |sorted|
    requires forall k :: 0 <= k < start ==> sorted[k] < x
    requires forall k :: start <= k < end ==> sorted[k] == x
    requires forall k :: end <= k < |sorted| ==> x < sorted[k]
    ensures Smaller(sorted[..n], x) == if n < start then n else start
    ensures Equal(sorted[..n], x) == if n < start then 0 else if n < end then n - start else end - start
  {
    if n > 0 {
      BlockCounts(sorted, start, end, x, n - 1);
      assert sorted[..n][..n - 1] == sorted[..n - 1];
    }
  }

  lemma BlockRank(values: seq<real>, order: seq<nat>, start: nat, end: nat)
    requires IsSorting(values, order) && IsBlock(Sorted(values, order), start, end)
    ensures (start + end - 1) as real / 2.0 + 1.0 == Rank(values, Sorted(values, order)[start])
  {
    hide Smaller, Equal;
    var sorted := Sorted(values, order);
    SortedCounts(values, order, sorted[start]);
    BlockCounts(sorted, start, end, sorted[start], |sorted|);
    assert sorted[..|sorted|] == sorted;
  }

  method RankValues(values: seq<real>, order: seq<nat>) returns (ranks: seq<real>)
    requires IsSorting(values, order)
    ensures |ranks| == |values|
    ensures forall i :: 0 <= i < |values| ==> ranks[i] == Rank(values, values[i])
  {
    hide Rank;
    ghost var sorted := Sorted(values, order);
    var rankOf := new real[|values|](_ => 0.0);
    var start := 0;
    while start < |values|
      invariant 0 <= start <= |values|
      invariant 0 < start < |values| ==> sorted[start - 1] < sorted[start]
      invariant forall k :: 0 <= k < start ==> rankOf[order[k]] == Rank(values, values[order[k]])
    {
      var end := start + 1;
      while end < |values| && values[order[end]] == values[order[start]]
        invariant start < end <= |values|
        invariant forall k :: start <= k < end ==> sorted[k] == sorted[start]
      {
        end := end + 1;
      }
      assert end < |values| ==> sorted[end - 1] < sorted[end];
      BlockRank(values, order, start, end);
      var k := start;
      while k < end
        invariant start <= k <= end
        invariant forall l :: 0 <= l < k ==> rankOf[order[l]] == Rank(values, values[order[l]])
      {
        rankOf[order[k]] := (start + end - 1) as real / 2.0 + 1.0;
        k := k + 1;
      }
      start := end;
    }
    forall i | 0 <= i < |values|
      ensures rankOf[i] == Rank(values, values[i])
    {
      var k := AllOccur(order, |values|, i);
    }
    ranks := rankOf[..];
  }
}
