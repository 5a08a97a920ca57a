/**
  First-fit-decreasing packing of trust anchors into firmware images, and how far from the least
  number of images it can be.

  Proofs work on the sizes in packing order and on the image each root was put into; `placed[i]` is
  the index of the image of the `i`-th root.
 */
module RootPacking {
  import opened Permutations

  datatype PackResult = Profiles(profiles: seq<set<string>>) | TooLarge(root: string)

  // ----- what a packing is

  /** The roots, each once, largest first; equal sizes in any order (the program orders them by name). */
  ghost predicate IsSortedListing(order: seq<string>, sizes: map<string, nat>) {
    && (forall root :: root in sizes <==> root in order)
    && (forall i, j :: 0 <= i < j < |order| ==> order[i] != order[j])
    && (forall i, j :: 0 <= i < j < |order| ==> sizes[order[j]] <= sizes[order[i]])
  }

  function SizesOf(order: seq<string>, sizes: map<string, nat>): (s: seq<nat>)
    requires forall root <- order :: root in sizes
    ensures |s| == |order|
  {
    seq(|order|, i requires 0 <= i < |order| => sizes[order[i]])
  }

  /** The bytes a set of roots takes. */
  function SizeOf(order: seq<string>, s: seq<nat>, roots: set<string>): nat
    requires |order| == |s|
  {
    if order == [] then 0
    else SizeOf(order[1..], s[1..], roots) + if order[0] in roots then s[0] else 0
  }

  /** Every root is in some image and every image fits. */
  ghost predicate IsPacking(order: seq<string>, s: seq<nat>, capacity: int, images: seq<set<string>>)
    requires |order| == |s|
  {
    && (forall root <- order :: exists b :: 0 <= b < |images| && root in images[b])
    && (forall b :: 0 <= b < |images| ==> SizeOf(order, s, images[b]) <= capacity)
  }

  // ----- loads

  function Total(s: seq<nat>): nat {
    if s == [] then 0 else s[0] + Total(s[1..])
  }

  function Load(s: seq<nat>, placed: seq<nat>, b: nat): nat
    requires |s| == |placed|
  {
    if s == [] then 0 else (if placed[0] == b then s[0] else 0) + Load(s[1..], placed[1..], b)
  }

  function Count(placed: seq<nat>, b: nat): nat {
    if placed == [] then 0 else (if placed[0] == b then 1 else 0) + Count(placed[1..], b)
  }

  /** The loads of the first `k` images together. */
  function Loads(s: seq<nat>, placed: seq<nat>, k: nat): nat
    requires |s| == |placed|
  {
    if k == 0 then 0 else Loads(s, placed, k - 1) + Load(s, placed, k - 1)
  }

  /** The sizes of the roots in images from `j` on. */
  function Late(s: seq<nat>, placed: seq<nat>, j: nat): seq<nat>
    requires |s| == |placed|
  {
    if s == [] then [] else (if placed[0] >= j then [s[0]] else []) + Late(s[1..], placed[1..], j)
  }

  lemma {:induction false} LoadAppend(s: seq<nat>, placed: seq<nat>, x: nat, p: nat, b: nat)
    requires |s| == |placed|
    ensures Load(s + [x], placed + [p], b) == Load(s, placed, b) + if p == b then x else 0
  {
    if s != [] {
      assert (s + [x])[1..] == s[1..] + [x] && (placed + [p])[1..] == placed[1..] + [p];
      LoadAppend(s[1..], placed[1..], x, p, b);
    }
  }

  lemma {:induction false} LoadsStep(s: seq<nat>, placed: seq<nat>, k: nat)
    requires |s| == |placed| && s != []
    ensures Loads(s, placed, k) == Loads(s[1..], placed[1..], k) + if placed[0] < k then s[0] else 0
  {
    if k > 0 { LoadsStep(s, placed, k - 1); }
  }

  lemma {:induction false} LoadsOfNothing(k: nat)
    ensures Loads([], [], k) == 0
  {
    if k > 0 { LoadsOfNothing(k - 1); }
  }

  /** All sizes are the loads of the first images and the late roots. */
  lemma {:induction false} TotalSplits(s: seq<nat>, placed: seq<nat>, j: nat)
    requires |s| == |placed|
    ensures Total(s) == Loads(s, placed, j) + Total(Late(s, placed, j))
  {
    if s == [] {
      LoadsOfNothing(j);
    } else {
      TotalSplits(s[1..], placed[1..], j);
      LoadsStep(s, placed, j);
      var late := Late(s[1..], placed[1..], j);
      assert ([s[0]] + late)[1..] == late && [] + late == late;
    }
  }

  lemma {:induction false} LoadsBounded(s: seq<nat>, placed: seq<nat>, k: nat, capacity: int)
    requires |s| == |placed| && forall b :: 0 <= b < k ==> Load(s, placed, b) <= capacity
    ensures Loads(s, placed, k) <= k * capacity
  {
    if k > 0 {
      LoadsBounded(s, placed, k - 1, capacity);
      assert k * capacity == (k - 1) * capacity + capacity;
    }
  }

  lemma {:induction false} LoadAtLeast(s: seq<nat>, placed: seq<nat>, i: nat)
    requires |s| == |placed| && i < |s|
    ensures Load(s, placed, placed[i]) >= s[i]
  {
    if i > 0 { LoadAtLeast(s[1..], placed[1..], i - 1); }
  }

  // ----- what first fit guarantees

  /**
    Each root is in the first image, opened or not, that had room for it when it was placed. There is
    one such placement.
   */
  ghost predicate IsFirstFit(s: seq<nat>, placed: seq<nat>, capacity: int) {
    && |s| == |placed|
    && forall i :: 0 <= i < |s| ==> IsFirstRoom(s[..i], placed[..i], s[i], capacity, placed[i])
  }

  ghost predicate IsFirstRoom(s: seq<nat>, placed: seq<nat>, x: nat, capacity: int, p: nat)
    requires |s| == |placed|
  {
    && Load(s, placed, p) + x <= capacity
    && (forall b :: 0 <= b < p ==> Load(s, placed, b) + x > capacity)
  }

  lemma FirstFitAppend(s: seq<nat>, placed: seq<nat>, x: nat, capacity: int, p: nat)
    requires IsFirstFit(s, placed, capacity) && IsFirstRoom(s, placed, x, capacity, p)
    ensures IsFirstFit(s + [x], placed + [p], capacity)
  {
    hide IsFirstRoom;
    forall i | 0 <= i <= |s|
      ensures IsFirstRoom((s + [x])[..i], (placed + [p])[..i], (s + [x])[i], capacity, (placed + [p])[i])
    {
      assert (s + [x])[..i] == s[..i] && (placed + [p])[..i] == placed[..i];
      if i == |s| { assert s[..i] == s && placed[..i] == placed; }
    }
  }

  lemma {:induction false} FirstFitIsUnique(s: seq<nat>, placed: seq<nat>, other: seq<nat>, capacity: int)
    requires IsFirstFit(s, placed, capacity) && IsFirstFit(s, other, capacity)
    ensures placed == other
  {
    if s != [] {
      var n := |s| - 1;
      FirstFitPrefix(s, placed, capacity);
      FirstFitPrefix(s, other, capacity);
      FirstFitIsUnique(s[..n], placed[..n], other[..n], capacity);
      assert IsFirstRoom(s[..n], placed[..n], s[n], capacity, placed[n]);
      assert IsFirstRoom(s[..n], placed[..n], s[n], capacity, other[n]);
      assert placed == placed[..n] + [placed[n]] && other == other[..n] + [other[n]];
    }
  }

  lemma FirstFitPrefix(s: seq<nat>, placed: seq<nat>, capacity: int)
    requires IsFirstFit(s, placed, capacity) && s != []
    ensures IsFirstFit(s[..|s| - 1], placed[..|s| - 1], capacity)
  {
    hide IsFirstRoom;
    var n := |s| - 1;
    forall i | 0 <= i < n
      ensures IsFirstRoom(s[..n][..i], placed[..n][..i], s[..n][i], capacity, placed[..n][i])
    {
      assert s[..n][..i] == s[..i] && placed[..n][..i] == placed[..i];
    }
  }

  /**
    What the bound needs of it: `k` images are opened in order, none is overfull, and no root fits
    an image it passed over.
   */
  ghost predicate IsTight(s: seq<nat>, placed: seq<nat>, capacity: int, k: nat) {
    && |s| == |placed|
    && (forall i :: 0 <= i < |s| ==> placed[i] < k)
    && (forall b :: 0 <= b < k ==> Load(s, placed, b) <= capacity)
    && (forall i, b :: 0 <= i < |s| && 0 <= b < placed[i] ==> Load(s, placed, b) + s[i] > capacity)
    && (forall i, b :: 0 <= i < |s| && 0 <= b < placed[i] ==> OpenBefore(placed, i, b))
    && (forall b :: 0 <= b < k ==> OpenBefore(placed, |s|, b))
  }

  /** Image `b` got a root before the `i`-th. */
  ghost predicate OpenBefore(placed: seq<nat>, i: nat, b: nat)
    requires i <= |placed|
  {
    exists i' :: 0 <= i' < i && placed[i'] == b
  }

  ghost predicate Descending(s: seq<nat>) {
    forall i, j :: 0 <= i < j < |s| ==> s[j] <= s[i]
  }

  lemma {:induction false} PlacingKeeps(s: seq<nat>, placed: seq<nat>, capacity: int, k: nat, x: nat, p: nat)
    requires IsTight(s, placed, capacity, k)
    requires p <= k && x <= capacity
    requires p < k ==> Load(s, placed, p) + x <= capacity
    requires forall b :: 0 <= b < p ==> Load(s, placed, b) + x > capacity
    requires Load(s, placed, k) == 0
    ensures IsTight(s + [x], placed + [p], capacity, if p == k then k + 1 else k)
  {
    var s', placed', k' := s + [x], placed + [p], if p == k then k + 1 else k;
    forall b: nat
      ensures Load(s', placed', b) == Load(s, placed, b) + if p == b then x else 0
    {
      LoadAppend(s, placed, x, p, b);
    }
    forall i, b | 0 <= i < |s'| && 0 <= b < placed'[i]
      ensures OpenBefore(placed', i, b)
    {
      if i < |s| {
        assert OpenBefore(placed, i, b);
      } else {
        assert OpenBefore(placed, |s|, b);
      }
      var i' :| 0 <= i' < (if i < |s| then i else |s|) && placed[i'] == b;
      assert placed'[i'] == b;
    }
    forall b | 0 <= b < k'
      ensures OpenBefore(placed', |s'|, b)
    {
      if b == p {
        assert placed'[|s|] == b;
      } else {
        assert OpenBefore(placed, |s|, b);
        var i' :| 0 <= i' < |s| && placed[i'] == b;
        assert placed'[i'] == b;
      }
    }
  }

  lemma {:induction false} UnusedImage(s: seq<nat>, placed: seq<nat>, k: nat)
    requires |s| == |placed| && forall i :: 0 <= i < |s| ==> placed[i] < k
    ensures Load(s, placed, k) == 0
  {
    if s != [] { UnusedImage(s[1..], placed[1..], k); }
  }

  /** Any two images together exceed the capacity. */
  lemma TwoImagesExceed(s: seq<nat>, placed: seq<nat>, capacity: int, k: nat, a: nat, b: nat)
    requires IsTight(s, placed, capacity, k) && a < b < k
    ensures Load(s, placed, a) + Load(s, placed, b) > capacity
  {
    assert OpenBefore(placed, |s|, b);
    var i :| 0 <= i < |s| && placed[i] == b;
    LoadAtLeast(s, placed, i);
  }

  // ----- the approximation bound

  /** Roots of more than half the capacity need an image each. */
  lemma {:induction false} BigRootsApart(s: seq<nat>, other: seq<nat>, capacity: int, i: nat, j: nat)
    requires |s| == |other| && i < j < |s| && other[i] == other[j]
    ensures Load(s, other, other[i]) >= s[i] + s[j]
  {
    if i == 0 {
      LoadAtLeast(s[1..], other[1..], j - 1);
    } else {
      BigRootsApart(s[1..], other[1..], capacity, i - 1, j - 1);
    }
  }

  ghost predicate Fits(s: seq<nat>, other: seq<nat>, capacity: int, m: nat) {
    && |other| == |s|
    && (forall i :: 0 <= i < |s| ==> other[i] < m)
    && (forall b :: 0 <= b < m ==> Load(s, other, b) <= capacity)
  }

  /** One root per image, up to the root `i` itself: all of them at least as large as it. */
  lemma {:induction false} FirstRoots(placed: seq<nat>, i: nat, n: nat) returns (roots: seq<nat>)
    requires i < |placed| && n <= placed[i] && forall b :: 0 <= b < placed[i] ==> OpenBefore(placed, i, b)
    ensures |roots| == n && forall b :: 0 <= b < n ==> roots[b] < i && placed[roots[b]] == b
  {
    if n == 0 {
      roots := [];
    } else {
      var before := FirstRoots(placed, i, n - 1);
      assert OpenBefore(placed, i, n - 1);
      var i': nat :| i' < i && placed[i'] == n - 1;
      roots := before + [i'];
    }
  }

  /** If image `j` has a root of more than half the capacity, any packing needs more than `j` images. */
  lemma BigCase(s: seq<nat>, placed: seq<nat>, capacity: int, k: nat, i: nat, other: seq<nat>, m: nat)
    requires IsTight(s, placed, capacity, k) && Descending(s) && i < |s| && 2 * s[i] > capacity
    requires Fits(s, other, capacity, m)
    ensures m > placed[i]
  {
    var roots := FirstRoots(placed, i, placed[i]);
    var all := roots + [i];
    var images := seq(|all|, b requires 0 <= b < |all| => other[all[b]]);
    forall b, c | 0 <= b < c < |images|
      ensures images[b] != images[c]
    {
      var x, y := all[b], all[c];
      assert placed[x] == b && placed[y] == c;
      if other[x] == other[y] {
        if x < y { BigRootsApart(s, other, capacity, x, y); } else { BigRootsApart(s, other, capacity, y, x); }
      }
    }
    Pigeonhole(images, m);
  }

  lemma {:induction false} CountPositive(placed: seq<nat>, i: nat)
    requires i < |placed|
    ensures Count(placed, placed[i]) >= 1
  {
    if i > 0 { CountPositive(placed[1..], i - 1); }
  }

  lemma {:induction false} SingleSmall(s: seq<nat>, placed: seq<nat>, b: nat, capacity: int)
    requires |s| == |placed| && forall i :: 0 <= i < |s| && placed[i] == b ==> 2 * s[i] <= capacity
    requires Count(placed, b) <= 1 && capacity >= 0
    ensures 2 * Load(s, placed, b) <= capacity
    ensures Count(placed, b) == 0 ==> Load(s, placed, b) == 0
  {
    if s != [] {
      assert forall i :: 0 <= i < |s[1..]| && placed[1..][i] == b ==> 2 * s[1..][i] <= capacity;
      if placed[0] == b { assert 2 * s[0] <= capacity; }
      SingleSmall(s[1..], placed[1..], b, capacity);
    }
  }

  /** How many roots are in the images from `j` up to `k`. */
  function CountFrom(placed: seq<nat>, j: nat, k: nat): nat
    requires j <= k
  {
    if j == k then 0 else Count(placed, k - 1) + CountFrom(placed, j, k - 1)
  }

  lemma {:induction false} CountFromStep(placed: seq<nat>, j: nat, k: nat)
    requires j <= k && placed != []
    ensures CountFrom(placed, j, k) == CountFrom(placed[1..], j, k) + if j <= placed[0] < k then 1 else 0
  {
    if j < k { CountFromStep(placed, j, k - 1); }
  }

  lemma {:induction false} CountFromNothing(j: nat, k: nat)
    requires j <= k
    ensures CountFrom([], j, k) == 0
  {
    if j < k { CountFromNothing(j, k - 1); }
  }

  lemma {:induction false} LateCount(s: seq<nat>, placed: seq<nat>, j: nat, k: nat)
    requires |s| == |placed| && j <= k && forall i :: 0 <= i < |s| ==> placed[i] < k
    ensures |Late(s, placed, j)| == CountFrom(placed, j, k)
  {
    if s == [] {
      CountFromNothing(j, k);
    } else {
      LateCount(s[1..], placed[1..], j, k);
      CountFromStep(placed, j, k);
    }
  }

  lemma {:induction false} TwoEach(placed: seq<nat>, j: nat, k: nat)
    requires j <= k && forall b :: j <= b < k ==> Count(placed, b) >= 2
    ensures CountFrom(placed, j, k) >= 2 * (k - j)
  {
    if j < k { TwoEach(placed, j, k - 1); }
  }

  lemma {:induction false} LateDoNotFit(s: seq<nat>, placed: seq<nat>, j: nat, bound: int)
    requires |s| == |placed| && forall i :: 0 <= i < |s| && placed[i] >= j ==> s[i] >= bound
    ensures forall x <- Late(s, placed, j) :: x >= bound
  {
    if s != [] {
      assert forall i :: 0 <= i < |s[1..]| && placed[1..][i] >= j ==> s[1..][i] >= bound;
      if placed[0] >= j { assert s[0] >= bound; }
      LateDoNotFit(s[1..], placed[1..], j, bound);
    }
  }

  /** Pairing the first `j` images with `j` roots that fit none of them fills more than `j` images. */
  lemma {:induction false} Pairing(s: seq<nat>, placed: seq<nat>, late: seq<nat>, j: nat, capacity: int)
    requires |s| == |placed| && j <= |late|
    requires forall b, x :: 0 <= b < j && x in late ==> Load(s, placed, b) + x > capacity
    ensures Loads(s, placed, j) + Total(late) >= j * (capacity + 1)
  {
    if j > 0 {
      var rest := late[1..];
      assert late[0] in late && forall x <- rest :: x in late;
      assert Load(s, placed, j - 1) + late[0] > capacity;
      Pairing(s, placed, rest, j - 1, capacity);
      assert j * (capacity + 1) == (j - 1) * (capacity + 1) + (capacity + 1);
    }
  }

  /** If image `j` has only roots of at most half the capacity, the late roots overfill the first images. */
  lemma SmallCase(s: seq<nat>, placed: seq<nat>, capacity: int, k: nat, j: nat, other: seq<nat>, m: nat)
    requires IsTight(s, placed, capacity, k) && Descending(s) && 3 * j + 1 <= 2 * k && j < k
    requires forall i :: 0 <= i < |s| && placed[i] == j ==> 2 * s[i] <= capacity
    requires Fits(s, other, capacity, m)
    ensures m > j
  {
    LateAreSmall(s, placed, capacity, k, j);
    ManyLate(s, placed, capacity, k, j);
    LateOverfill(s, placed, capacity, k, j);
    FitsTotal(s, other, capacity, m);
    assert OpenBefore(placed, |s|, j);
    assert Load(s, placed, j) <= capacity;
    var i :| 0 <= i < |s| && placed[i] == j;
    assert other[i] < m;
    if m <= j { Grows(m, j, capacity); }
  }

  lemma LateOverfill(s: seq<nat>, placed: seq<nat>, capacity: int, k: nat, j: nat)
    requires IsTight(s, placed, capacity, k) && j <= |Late(s, placed, j)|
    ensures Total(s) >= j * (capacity + 1)
  {
    forall b, x | 0 <= b < j && x in Late(s, placed, j)
      ensures Load(s, placed, b) + x > capacity
    {
      LateDoNotFit(s, placed, j, capacity + 1 - Load(s, placed, b));
    }
    Pairing(s, placed, Late(s, placed, j), j, capacity);
    TotalSplits(s, placed, j);
  }

  lemma FitsTotal(s: seq<nat>, other: seq<nat>, capacity: int, m: nat)
    requires Fits(s, other, capacity, m)
    ensures Total(s) <= m * capacity
  {
    TotalSplits(s, other, m);
    LoadsBounded(s, other, m, capacity);
    NoneLate(s, other, m);
  }

  lemma Grows(m: nat, j: nat, capacity: int)
    requires m <= j && capacity >= 0
    ensures m * capacity <= j * capacity == j * (capacity + 1) - j
  {}

  lemma {:induction false} NoneLate(s: seq<nat>, other: seq<nat>, m: nat)
    requires |s| == |other| && forall i :: 0 <= i < |s| ==> other[i] < m
    ensures Late(s, other, m) == []
  {
    if s != [] { NoneLate(s[1..], other[1..], m); }
  }

  lemma LateAreSmall(s: seq<nat>, placed: seq<nat>, capacity: int, k: nat, j: nat)
    requires IsTight(s, placed, capacity, k) && Descending(s) && j < k
    requires forall i :: 0 <= i < |s| && placed[i] == j ==> 2 * s[i] <= capacity
    ensures forall i :: 0 <= i < |s| && placed[i] >= j ==> 2 * s[i] <= capacity
  {
    forall i | 0 <= i < |s| && placed[i] > j
      ensures 2 * s[i] <= capacity
    {
      assert OpenBefore(placed, i, j);
      var i' :| 0 <= i' < i && placed[i'] == j;
      assert s[i] <= s[i'];
    }
  }

  lemma ManyLate(s: seq<nat>, placed: seq<nat>, capacity: int, k: nat, j: nat)
    requires IsTight(s, placed, capacity, k) && j < k && 3 * j + 1 <= 2 * k
    requires forall i :: 0 <= i < |s| && placed[i] >= j ==> 2 * s[i] <= capacity
    ensures |Late(s, placed, j)| >= j
  {
    forall b | j <= b < k - 1
      ensures Count(placed, b) >= 2
    {
      assert OpenBefore(placed, |s|, b + 1);
      var i :| 0 <= i < |s| && placed[i] == b + 1;
      assert Load(s, placed, b) + s[i] > capacity;
      assert Load(s, placed, b) <= capacity;
      if Count(placed, b) <= 1 { SingleSmall(s, placed, b, capacity); }
    }
    TwoEach(placed, j, k - 1);
    assert OpenBefore(placed, |s|, k - 1);
    var i :| 0 <= i < |s| && placed[i] == k - 1;
    CountPositive(placed, i);
    LateCount(s, placed, j, k);
  }

  /** First fit decreasing uses at most three halves of the images any packing needs. */
  lemma WithinThreeHalves(s: seq<nat>, placed: seq<nat>, capacity: int, k: nat, other: seq<nat>, m: nat)
    requires IsTight(s, placed, capacity, k) && Descending(s)
    requires Fits(s, other, capacity, m)
    ensures 2 * k <= 3 * m
  {
    if k > 0 {
      var j := (2 * k + 2) / 3 - 1;
      if i: nat :| i < |s| && placed[i] == j && 2 * s[i] > capacity {
        BigCase(s, placed, capacity, k, i, other, m);
      } else {
        SmallCase(s, placed, capacity, k, j, other, m);
      }
    }
  }

  // ----- images as sets of roots

  /** `images[b]` holds the roots placed there. */
  ghost predicate Holds(order: seq<string>, placed: seq<nat>, images: seq<set<string>>) {
    && |order| == |placed|
    && (forall i, b :: 0 <= i < |order| && 0 <= b < |images| ==> (order[i] in images[b] <==> placed[i] == b))
    && (forall b, root :: 0 <= b < |images| && root in images[b] ==> root in order)
  }

  lemma {:induction false} SizeIsLoad(order: seq<string>, s: seq<nat>, placed: seq<nat>, image: set<string>, b: nat)
    requires |order| == |s| == |placed|
    requires forall i :: 0 <= i < |order| ==> (order[i] in image <==> placed[i] == b)
    ensures SizeOf(order, s, image) == Load(s, placed, b)
  {
    if order != [] { SizeIsLoad(order[1..], s[1..], placed[1..], image, b); }
  }

  lemma {:induction false} LoadWithin(order: seq<string>, s: seq<nat>, other: seq<nat>, image: set<string>, b: nat)
    requires |order| == |s| == |other|
    requires forall i :: 0 <= i < |order| && other[i] == b ==> order[i] in image
    ensures Load(s, other, b) <= SizeOf(order, s, image)
  {
    if order != [] { LoadWithin(order[1..], s[1..], other[1..], image, b); }
  }

  /** Assigning each root to one image that holds it keeps every load within the capacity. */
  lemma Assign(order: seq<string>, s: seq<nat>, capacity: int, images: seq<set<string>>) returns (other: seq<nat>)
    requires |order| == |s| && IsPacking(order, s, capacity, images)
    ensures Fits(s, other, capacity, |images|)
  {
    other := AssignImages(order, images);
    forall b | 0 <= b < |images|
      ensures Load(s, other, b) <= capacity
    {
      LoadWithin(order, s, other, images[b], b);
    }
  }

  lemma {:induction false} AssignImages(order: seq<string>, images: seq<set<string>>) returns (other: seq<nat>)
    requires forall root <- order :: exists b :: 0 <= b < |images| && root in images[b]
    ensures |other| == |order|
    ensures forall i :: 0 <= i < |order| ==> other[i] < |images| && order[i] in images[other[i]]
  {
    if order == [] {
      other := [];
    } else {
      assert order[0] in order;
      var b: nat :| b < |images| && order[0] in images[b];
      assert forall root <- order[1..] :: root in order;
      var rest := AssignImages(order[1..], images);
      other := [b] + rest;
    }
  }

  /** The images hold every root exactly once and nothing else, and each fits. */
  ghost predicate IsPartition(order: seq<string>, s: seq<nat>, capacity: int, images: seq<set<string>>)
    requires |order| == |s|
  {
    && IsPacking(order, s, capacity, images)
    && (forall b, root :: 0 <= b < |images| && root in images[b] ==> root in order)
    && (forall b, c :: 0 <= b < c < |images| ==> images[b] !! images[c])
    && (forall b :: 0 <= b < |images| ==> images[b] != {})
  }

  lemma PlacedIsPartition(order: seq<string>, s: seq<nat>, placed: seq<nat>, capacity: int, images: seq<set<string>>)
    requires |order| == |s| && Holds(order, placed, images) && IsTight(s, placed, capacity, |images|)
    ensures IsPartition(order, s, capacity, images)
  {
    forall root | root in order
      ensures exists b :: 0 <= b < |images| && root in images[b]
    {
      var i :| 0 <= i < |order| && order[i] == root;
      assert root in images[placed[i]];
    }
    forall b | 0 <= b < |images|
      ensures SizeOf(order, s, images[b]) <= capacity && images[b] != {}
    {
      SizeIsLoad(order, s, placed, images[b], b);
      assert OpenBefore(placed, |s|, b);
      var i :| 0 <= i < |s| && placed[i] == b;
      assert order[i] in images[b];
    }
    forall b, c, root | 0 <= b < c < |images| && root in images[b]
      ensures root !in images[c]
    {
      assert root in order;
      var i :| 0 <= i < |order| && order[i] == root;
    }
  }

  /** No root of a later image fits an earlier one, and so any two images together exceed the capacity. */
  ghost predicate IsFull(order: seq<string>, s: seq<nat>, capacity: int, images: seq<set<string>>)
    requires |order| == |s|
  {
    && (forall b, c, i :: 0 <= b < c < |images| && 0 <= i < |order| && order[i] in images[c] ==>
          SizeOf(order, s, images[b]) + s[i] > capacity)
    && (forall b, c :: 0 <= b < c < |images| ==>
          SizeOf(order, s, images[b]) + SizeOf(order, s, images[c]) > capacity)
  }

  lemma PlacedIsFull(order: seq<string>, s: seq<nat>, placed: seq<nat>, capacity: int, images: seq<set<string>>)
    requires |order| == |s| && Holds(order, placed, images) && IsTight(s, placed, capacity, |images|)
    ensures IsFull(order, s, capacity, images)
  {
    forall b | 0 <= b < |images|
      ensures SizeOf(order, s, images[b]) == Load(s, placed, b)
    {
      SizeIsLoad(order, s, placed, images[b], b);
    }
    forall b, c | 0 <= b < c < |images|
      ensures Load(s, placed, b) + Load(s, placed, c) > capacity
    {
      TwoImagesExceed(s, placed, capacity, |images|, b, c);
    }
  }

  lemma PlacedIsNearLeast(
    order: seq<string>, s: seq<nat>, placed: seq<nat>, capacity: int, k: nat, images: seq<set<string>>)
    requires |order| == |s| && IsTight(s, placed, capacity, k) && Descending(s)
    requires IsPacking(order, s, capacity, images)
    ensures 2 * k <= 3 * |images|
  {
    var other := Assign(order, s, capacity, images);
    WithinThreeHalves(s, placed, capacity, k, other, |images|);
  }

  // ----- where first fit is least

  /** Two for a root that leaves no room for one of size `x`, and one for any other. */
  function Weights(s: seq<nat>, x: nat, capacity: int): (t: seq<nat>)
    ensures |t| == |s| && forall i :: 0 <= i < |s| ==> t[i] == if s[i] + x > capacity then 2 else 1
  {
    seq(|s|, i requires 0 <= i < |s| => if s[i] + x > capacity then 2 else 1)
  }

  lemma WeightsRest(s: seq<nat>, x: nat, capacity: int)
    requires s != []
    ensures Weights(s, x, capacity)[1..] == Weights(s[1..], x, capacity)
  {}

  /** An image that had no room for `x` weighs at least two. */
  lemma {:induction false} FullImageWeight(s: seq<nat>, placed: seq<nat>, x: nat, capacity: int, b: nat)
    requires |s| == |placed|
    ensures var weight, load := Load(Weights(s, x, capacity), placed, b), Load(s, placed, b);
            || weight >= 2
            || (weight == 1 && load + x <= capacity)
            || weight == load == 0
  {
    if s != [] {
      FullImageWeight(s[1..], placed[1..], x, capacity, b);
      WeightsRest(s, x, capacity);
    }
  }

  /** An image of roots of at least `x`, each of more than a third of the capacity, weighs at most two if it fits. */
  lemma {:induction false} FittingImageWeight(s: seq<nat>, other: seq<nat>, x: nat, capacity: int, b: nat)
    requires |s| == |other| && 3 * x > capacity
    requires forall i :: 0 <= i < |s| ==> s[i] >= x
    ensures var weight, load := Load(Weights(s, x, capacity), other, b), Load(s, other, b);
            || load > capacity
            || weight == load == 0
            || (weight == 1 && load >= x)
            || (weight == 2 && load + x > capacity)
  {
    if s != [] {
      assert s[0] >= x && forall i :: 0 <= i < |s[1..]| ==> s[1..][i] == s[i + 1];
      FittingImageWeight(s[1..], other[1..], x, capacity, b);
      WeightsRest(s, x, capacity);
    }
  }

  lemma {:induction false} LoadOfPrefix(s: seq<nat>, placed: seq<nat>, n: nat, b: nat)
    requires |s| == |placed| && n <= |s|
    ensures Load(s[..n], placed[..n], b) <= Load(s, placed, b)
  {
    if n > 0 {
      assert s[..n][1..] == s[1..][..n - 1] && placed[..n][1..] == placed[1..][..n - 1];
      LoadOfPrefix(s[1..], placed[1..], n - 1, b);
    }
  }

  lemma {:induction false} LoadsAtLeast(t: seq<nat>, placed: seq<nat>, k: nat, least: nat)
    requires |t| == |placed| && forall b :: 0 <= b < k ==> Load(t, placed, b) >= least
    ensures Loads(t, placed, k) >= k * least
  {
    if k > 0 {
      LoadsAtLeast(t, placed, k - 1, least);
      assert k * least == (k - 1) * least + least;
    }
  }

  lemma TotalAppend(t: seq<nat>, x: nat)
    ensures Total(t + [x]) == Total(t) + x
  {
    if t != [] {
      assert (t + [x])[1..] == t[1..] + [x];
      TotalAppend(t[1..], x);
    }
  }

  /** The roots before the `i`-th weigh two for each image it passed over. */
  lemma WeightBefore(s: seq<nat>, placed: seq<nat>, capacity: int, i: nat)
    requires IsFirstFit(s, placed, capacity) && i < |s|
    ensures Total(Weights(s[..i], s[i], capacity)) >= 2 * placed[i]
  {
    hide Load, Loads, Total;
    var t, x := Weights(s[..i], s[i], capacity), s[i];
    assert IsFirstRoom(s[..i], placed[..i], x, capacity, placed[i]);
    forall b | 0 <= b < placed[i]
      ensures Load(t, placed[..i], b) >= 2
    {
      FullImageWeight(s[..i], placed[..i], x, capacity, b);
    }
    LoadsAtLeast(t, placed[..i], placed[i], 2);
    TotalSplits(t, placed[..i], placed[i]);
  }

  /** The roots up to the `i`-th weigh at most two for each image of a packing. */
  lemma WeightOfPacking(s: seq<nat>, other: seq<nat>, capacity: int, m: nat, i: nat)
    requires Fits(s, other, capacity, m) && Descending(s) && i < |s| && 3 * s[i] > capacity
    ensures Total(Weights(s[..i + 1], s[i], capacity)) <= 2 * m
  {
    hide Load, Loads, Total;
    var n, x := i + 1, s[i];
    var t := Weights(s[..n], x, capacity);
    forall b | 0 <= b < m
      ensures Load(t, other[..n], b) <= 2
    {
      LoadOfPrefix(s, other, n, b);
      FittingImageWeight(s[..n], other[..n], x, capacity, b);
    }
    LoadsBounded(t, other[..n], m, 2);
    TotalSplits(t, other[..n], m);
    NoneLate(t, other[..n], m);
    NothingTotal();
  }

  lemma NothingTotal()
    ensures Total([]) == 0
  {}

  /** With roots of more than a third of the capacity each, no packing has fewer images than first fit has opened. */
  lemma LeastOfThirds(s: seq<nat>, placed: seq<nat>, capacity: int, other: seq<nat>, m: nat, i: nat)
    requires IsFirstFit(s, placed, capacity) && Descending(s)
    requires forall j :: 0 <= j < |s| ==> 3 * s[j] > capacity
    requires Fits(s, other, capacity, m) && i < |s|
    ensures placed[i] < m
  {
    hide IsFirstFit, Fits, Total;
    WeightBefore(s, placed, capacity, i);
    WeightOfPacking(s, other, capacity, m, i);
    var weights := Weights(s[..i + 1], s[i], capacity);
    assert weights == Weights(s[..i], s[i], capacity) + [weights[i]];
    TotalAppend(Weights(s[..i], s[i], capacity), Weights(s[..i + 1], s[i], capacity)[i]);
  }

  /** Every root takes more than a third of the capacity. */
  ghost predicate AreThirds(s: seq<nat>, capacity: int) {
    forall i :: 0 <= i < |s| ==> 3 * s[i] > capacity
  }

  lemma PlacedIsLeast(
    order: seq<string>, s: seq<nat>, placed: seq<nat>, capacity: int, k: nat, images: seq<set<string>>)
    requires |order| == |s| && IsFirstFit(s, placed, capacity) && IsTight(s, placed, capacity, k) && Descending(s)
    requires AreThirds(s, capacity) && IsPacking(order, s, capacity, images)
    ensures k <= |images|
  {
    if k > 0 {
      var other := Assign(order, s, capacity, images);
      assert OpenBefore(placed, |s|, k - 1);
      var i :| 0 <= i < |s| && placed[i] == k - 1;
      LeastOfThirds(s, placed, capacity, other, |images|, i);
    }
  }

  // ----- the bound is met

  /** The images hold what first fit puts into them. */
  ghost predicate IsFirstFitPacking(order: seq<string>, s: seq<nat>, capacity: int, images: seq<set<string>>) {
    exists placed :: IsFirstFit(s, placed, capacity) && Holds(order, placed, images)
  }

  lemma ExampleLoads()
    ensures Load([4], [0], 0) == 4 && Load([4, 4], [0, 0], 0) == 8
    ensures Load([4, 4, 3], [0, 0, 1], 0) == 8 && Load([4, 4, 3], [0, 0, 1], 1) == 3
    ensures Load([4, 4, 3, 3], [0, 0, 1, 1], 0) == 8 && Load([4, 4, 3, 3], [0, 0, 1, 1], 1) == 6
    ensures Load([4, 4, 3, 3, 3], [0, 0, 1, 1, 1], 0) == 8 && Load([4, 4, 3, 3, 3], [0, 0, 1, 1, 1], 1) == 9
    ensures Load([4, 4, 3, 3, 3, 3], [0, 1, 0, 0, 1, 1], 0) == 10
    ensures Load([4, 4, 3, 3, 3, 3], [0, 1, 0, 0, 1, 1], 1) == 10
  {}

  lemma ExampleStarts()
    ensures IsFirstFit([4, 4, 3], [0, 0, 1], 10)
  {
    hide IsFirstFit, Load;
    var nothing: seq<nat> := [];
    FirstFitStarts(10);
    ExampleLoads();
    assert nothing + [4] == [4] && nothing + [0] == [0] && [4] + [4] == [4, 4] && [0] + [0] == [0, 0];
    UnusedImage([], [], 0);
    FirstFitAppend([], [], 4, 10, 0);
    FirstFitAppend([4], [0], 4, 10, 0);
    UnusedImage([4, 4], [0, 0], 1);
    FirstFitAppend([4, 4], [0, 0], 3, 10, 1);
    assert [4, 4] + [3] == [4, 4, 3] && [0, 0] + [1] == [0, 0, 1];
  }

  lemma FirstFitStarts(capacity: int)
    ensures IsFirstFit([], [], capacity)
  {}

  lemma ExampleGoesOn()
    requires IsFirstFit([4, 4, 3], [0, 0, 1], 10)
    ensures IsFirstFit([4, 4, 3, 3, 3, 3], [0, 0, 1, 1, 1, 2], 10)
  {
    hide IsFirstFit, Load;
    ExampleLoads();
    assert [4, 4, 3] + [3] == [4, 4, 3, 3] && [0, 0, 1] + [1] == [0, 0, 1, 1];
    assert [4, 4, 3, 3] + [3] == [4, 4, 3, 3, 3] && [0, 0, 1, 1] + [1] == [0, 0, 1, 1, 1];
    assert [4, 4, 3, 3, 3] + [3] == [4, 4, 3, 3, 3, 3] && [0, 0, 1, 1, 1] + [2] == [0, 0, 1, 1, 1, 2];
    FirstFitAppend([4, 4, 3], [0, 0, 1], 3, 10, 1);
    FirstFitAppend([4, 4, 3, 3], [0, 0, 1, 1], 3, 10, 1);
    UnusedImage([4, 4, 3, 3, 3], [0, 0, 1, 1, 1], 2);
    FirstFitAppend([4, 4, 3, 3, 3], [0, 0, 1, 1, 1], 3, 10, 2);
  }

  /**
    Whatever the names of six roots of 4, 4, 3, 3, 3 and 3, the program puts them into three images of
    10, and two would do. So the bound of three halves is met.
   */
  lemma FirstFitIsNotLeast(order: seq<string>, images: seq<set<string>>) returns (two: seq<set<string>>)
    requires |order| == 6 && forall i, j :: 0 <= i < j < 6 ==> order[i] != order[j]
    requires IsPartition(order, [4, 4, 3, 3, 3, 3], 10, images)
    requires IsFirstFitPacking(order, [4, 4, 3, 3, 3, 3], 10, images)
    ensures |images| == 3
    ensures |two| == 2 && IsPacking(order, [4, 4, 3, 3, 3, 3], 10, two)
  {
    hide IsFirstFit, IsPacking;
    var placed :| IsFirstFit([4, 4, 3, 3, 3, 3], placed, 10) && Holds(order, placed, images);
    ExampleStarts();
    ExampleGoesOn();
    FirstFitIsUnique([4, 4, 3, 3, 3, 3], placed, [0, 0, 1, 1, 1, 2], 10);
    ThreeImages(order, images);
    two := TwoImages(order);
  }

  lemma ThreeImages(order: seq<string>, images: seq<set<string>>)
    requires |order| == 6 && Holds(order, [0, 0, 1, 1, 1, 2], images)
    requires IsPartition(order, [4, 4, 3, 3, 3, 3], 10, images)
    ensures |images| == 3
  {
    hide SizeOf;
    if |images| > 3 {
      var root :| root in images[3];
      assert root in order;
      var i :| 0 <= i < 6 && order[i] == root;
      assert false;
    }
    assert order[5] in order;
    var b :| 0 <= b < |images| && order[5] in images[b];
    assert [0, 0, 1, 1, 1, 2][5] == b;
  }

  lemma TwoImages(order: seq<string>) returns (two: seq<set<string>>)
    requires |order| == 6 && forall i, j :: 0 <= i < j < 6 ==> order[i] != order[j]
    ensures |two| == 2 && IsPacking(order, [4, 4, 3, 3, 3, 3], 10, two)
  {
    hide SizeOf, Load;
    two := [{order[0], order[2], order[3]}, {order[1], order[4], order[5]}];
    ExampleLoads();
    SizeIsLoad(order, [4, 4, 3, 3, 3, 3], [0, 1, 0, 0, 1, 1], two[0], 0);
    SizeIsLoad(order, [4, 4, 3, 3, 3, 3], [0, 1, 0, 0, 1, 1], two[1], 1);
    forall root | root in order
      ensures root in two[0] || root in two[1]
    {
      assert root in order;
      var i :| 0 <= i < 6 && order[i] == root;
    }
  }

  // ----- the program

  datatype Profile = Profile(used: nat, members: set<string>)

  /** `order` is what sorting the roots by descending size returns. */
  method PackRootProfiles(sizes: map<string, nat>, order: seq<string>, capacity: int) returns (r: PackResult)
    requires IsSortedListing(order, sizes)
    ensures r.TooLarge? <==> exists root <- sizes :: sizes[root] > capacity
    ensures r.TooLarge? ==> r.root == order[0]
    ensures r.Profiles? ==> IsPartition(order, SizesOf(order, sizes), capacity, r.profiles)
    ensures r.Profiles? ==> IsFirstFitPacking(order, SizesOf(order, sizes), capacity, r.profiles)
    ensures r.Profiles? ==> IsFull(order, SizesOf(order, sizes), capacity, r.profiles)
    ensures r.Profiles? ==>
      forall images :: IsPacking(order, SizesOf(order, sizes), capacity, images) ==> 2 * |r.profiles| <= 3 * |images|
    ensures r.Profiles? && (forall root <- sizes :: 3 * sizes[root] > capacity) ==>
      forall images :: IsPacking(order, SizesOf(order, sizes), capacity, images) ==> |r.profiles| <= |images|
  {
    hide Filled, IsPartition, IsFull, IsPacking, IsFirstFitPacking;
    var profiles: seq<Profile> := [];
    ghost var s: seq<nat> := SizesOf(order, sizes);
    ghost var placed: seq<nat> := [];
    FilledStart(order, s, capacity);
    for i := 0 to |order|
      invariant Filled(order, s, placed, i, capacity, profiles)
      invariant forall j :: 0 <= j < i ==> s[j] <= capacity
    {
      var root := order[i];
      var size := sizes[root];
      assert i > 0 ==> size <= s[0] <= capacity;
      var index := 0;
      while index < |profiles| && profiles[index].used + size > capacity
        invariant 0 <= index <= |profiles|
        invariant forall b :: 0 <= b < index ==> profiles[b].used + size > capacity
      {
        index := index + 1;
      }
      if index == |profiles| && size > capacity {
        return TooLarge(root);
      }
      FilledStep(order, s, placed, i, capacity, profiles, index);
      if index < |profiles| {
        profiles := profiles[index := Profile(profiles[index].used + size, profiles[index].members + {root})];
      } else {
        profiles := profiles + [Profile(size, {root})];
      }
      placed := placed + [index];
    }
    var images := Members(profiles);
    FilledAll(order, s, placed, capacity, profiles);
    forall root | root in sizes
      ensures sizes[root] <= capacity
    {
      assert root in order;
      var i :| 0 <= i < |order| && order[i] == root;
      assert s[i] == sizes[root];
    }
    assert forall i :: 0 <= i < |order| ==> s[i] == sizes[order[i]] && order[i] in sizes;
    return Profiles(images);
  }

  /** What the loop has built after `i` roots. */
  ghost predicate Filled(
    order: seq<string>, s: seq<nat>, placed: seq<nat>, i: nat, capacity: int, profiles: seq<Profile>)
  {
    && |order| == |s| && i <= |s| && |placed| == i
    && IsFirstFit(s[..i], placed, capacity)
    && IsTight(s[..i], placed, capacity, |profiles|)
    && Holds(order[..i], placed, Members(profiles))
    && (forall b :: 0 <= b < |profiles| ==> profiles[b].used == Load(s[..i], placed, b))
  }

  lemma FilledStart(order: seq<string>, s: seq<nat>, capacity: int)
    requires |order| == |s|
    ensures Filled(order, s, [], 0, capacity, [])
  {}

  lemma FilledAll(order: seq<string>, s: seq<nat>, placed: seq<nat>, capacity: int, profiles: seq<Profile>)
    requires Filled(order, s, placed, |order|, capacity, profiles) && |order| == |s| && Descending(s)
    ensures IsPartition(order, s, capacity, Members(profiles))
    ensures IsFull(order, s, capacity, Members(profiles))
    ensures IsFirstFitPacking(order, s, capacity, Members(profiles))
    ensures forall other :: IsPacking(order, s, capacity, other) ==> 2 * |profiles| <= 3 * |other|
    ensures AreThirds(s, capacity) ==>
      forall other :: IsPacking(order, s, capacity, other) ==> |profiles| <= |other|
  {
    hide IsFirstFit, IsTight, IsPacking, Holds;
    assert s[..|order|] == s && order[..|order|] == order;
    PlacedIsPartition(order, s, placed, capacity, Members(profiles));
    PlacedIsFull(order, s, placed, capacity, Members(profiles));
    forall other | IsPacking(order, s, capacity, other)
      ensures 2 * |profiles| <= 3 * |other|
    {
      PlacedIsNearLeast(order, s, placed, capacity, |profiles|, other);
    }
    if AreThirds(s, capacity) {
      forall other | IsPacking(order, s, capacity, other)
        ensures |profiles| <= |other|
      {
        PlacedIsLeast(order, s, placed, capacity, |profiles|, other);
      }
    }
  }

  lemma FilledStep(
    order: seq<string>, s: seq<nat>, placed: seq<nat>, i: nat, capacity: int, profiles: seq<Profile>, p: nat)
    requires Filled(order, s, placed, i, capacity, profiles) && i < |s|
    requires forall j, j' :: 0 <= j < j' < |order| ==> order[j] != order[j']
    requires p <= |profiles| && s[i] <= capacity
    requires forall b :: 0 <= b < p ==> profiles[b].used + s[i] > capacity
    requires p < |profiles| ==> profiles[p].used + s[i] <= capacity
    ensures Filled(order, s, placed + [p], i + 1, capacity,
                   if p < |profiles|
                   then profiles[p := Profile(profiles[p].used + s[i], profiles[p].members + {order[i]})]
                   else profiles + [Profile(s[i], {order[i]})])
  {
    UnusedImage(s[..i], placed, |profiles|);
    PlacingKeeps(s[..i], placed, capacity, |profiles|, s[i], p);
    FirstFitAppend(s[..i], placed, s[i], capacity, p);
    assert s[..i + 1] == s[..i] + [s[i]];
    forall b: nat
      ensures Load(s[..i + 1], placed + [p], b) == Load(s[..i], placed, b) + if p == b then s[i] else 0
    {
      LoadAppend(s[..i], placed, s[i], p, b);
    }
    var after := if p < |profiles|
                 then profiles[p := Profile(profiles[p].used + s[i], profiles[p].members + {order[i]})]
                 else profiles + [Profile(s[i], {order[i]})];
    HoldsStep(order, placed, i, profiles, after, p);
  }

  function Members(profiles: seq<Profile>): (images: seq<set<string>>)
    ensures |images| == |profiles|
    ensures forall b :: 0 <= b < |profiles| ==> images[b] == profiles[b].members
  {
    seq(|profiles|, b requires 0 <= b < |profiles| => profiles[b].members)
  }

  lemma HoldsStep(order: seq<string>, placed: seq<nat>, i: nat, profiles: seq<Profile>, after: seq<Profile>, p: nat)
    requires i < |order| && Holds(order[..i], placed, Members(profiles))
    requires forall j :: 0 <= j < i ==> placed[j] < |profiles|
    requires forall j, j' :: 0 <= j < j' < |order| ==> order[j] != order[j']
    requires p <= |profiles| && |after| == |profiles| + if p == |profiles| then 1 else 0
    requires forall b :: 0 <= b < |after| && b != p ==> after[b].members == profiles[b].members
    requires after[p].members == (if p < |profiles| then profiles[p].members else {}) + {order[i]}
    ensures Holds(order[..i + 1], placed + [p], Members(after))
  {
    var images, images', order' := Members(profiles), Members(after), order[..i + 1];
    forall b, root | 0 <= b < |after| && root in images'[b]
      ensures root in order'
    {
      if root == order[i] {
        assert order'[i] == root;
      } else {
        assert root in images[b];
        assert root in order[..i];
        var j :| 0 <= j < i && order[..i][j] == root;
        assert order'[j] == root;
      }
    }
    assert order[i] !in order[..i];
    assert forall b :: 0 <= b < |images| ==> order[i] !in images[b];
    forall j, b | 0 <= j <= i && 0 <= b < |after|
      ensures order'[j] in images'[b] <==> (placed + [p])[j] == b
    {
      if j < i && b < |profiles| {
        assert order[..i][j] in images[b] <==> placed[j] == b;
      }
    }
  }
}
