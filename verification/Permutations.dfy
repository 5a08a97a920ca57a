/** Removing one element, and numbers below a bound that occur once each. */
module Permutations {

  ghost predicate AreDistinct(xs: seq<nat>) {
    forall i, j :: 0 <= i < j < |xs| ==> xs[i] != xs[j]
  }

  ghost predicate AreBelow(xs: seq<nat>, m: nat) {
    forall i :: 0 <= i < |xs| ==> xs[i] < m
  }

  /** All elements but the `i`-th. */
  function Without<T>(xs: seq<T>, i: nat): (r: seq<T>)
    requires i < |xs|
    ensures |r| == |xs| - 1
  {
    xs[..i] + xs[i + 1..]
  }

  lemma WithoutLargest(xs: seq<nat>, m: nat, i: nat)
    requires AreDistinct(xs) && AreBelow(xs, m) && i < |xs| && xs[i] == m - 1
    ensures m > 0 && AreDistinct(Without(xs, i)) && AreBelow(Without(xs, i), m - 1)
  {}

  /** Distinct numbers below `m` are at most `m`. */
  lemma {:induction false} Pigeonhole(xs: seq<nat>, m: nat)
    requires AreDistinct(xs) && AreBelow(xs, m)
    ensures |xs| <= m
    decreases m
  {
    if xs != [] {
      assert xs[0] < m;
      if i :| 0 <= i < |xs| && xs[i] == m - 1 {
        WithoutLargest(xs, m, i);
        Pigeonhole(Without(xs, i), m - 1);
      } else {
        Pigeonhole(xs, m - 1);
      }
    }
  }

  /** As many distinct numbers below `m` as `m` are all of them. */
  lemma AllOccur(xs: seq<nat>, m: nat, x: nat) returns (i: nat)
    requires AreDistinct(xs) && AreBelow(xs, m) && |xs| == m && x < m
    ensures i < |xs| && xs[i] == x
  {
    if j: nat :| j < |xs| && xs[j] == x {
      i := j;
    } else {
      Pigeonhole(xs + [x], m);
      assert false;
    }
  }
}
