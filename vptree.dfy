/**
 * The vantage-point tree `buildFromPoints` lays over `_indices`.
 *
 * A node never owns items: a leaf names a range `[left, right)` of `_indices`,
 * and an inner node splits its range at `middle1`, `median + 1` and `middle2`
 * into four quadrants. The source's inner node keeps only the vantage item, the
 * radius and the four children; the range bounds it computes while building are
 * kept here as well, so that the shape of the tree can be stated.
 */
module VpTree {
  import opened DistanceOracle
  import opened Sequences

  /** `maxNumberOfElementInLeaf`: ranges of at most this many items become leaves. */
  const MaxNumberOfElementInLeaf: nat := 16

  /** `Null` stands for a NULL child. */
  datatype Node =
    | Null
    | Leaf(left: nat, right: nat)
    | Inner(vpindex: nat, radius: real,
            left: nat, middle1: nat, median: nat, middle2: nat, right: nat,
            ll: Node, lr: Node, rl: Node, rr: Node)

  /**
   * Half of `x`, rounded down, by repeated subtraction. Written recursively so
   * that the solver meets integer division only in `HalfIsDivision`.
   */
  function Half(x: nat): (h: nat)
    ensures h <= x
    ensures x >= 2 ==> h >= 1
  {
    if x < 2 then 0 else 1 + Half(x - 2)
  }

  lemma {:induction false} HalfIsDivision(x: nat)
    ensures Half(x) == x / 2
  {
    if x >= 2 {
      HalfIsDivision(x - 2);
    }
  }

  /** The median position chosen for the range `[left, right)`: strictly inside it once it has three items. */
  function Median(left: nat, right: nat): (m: nat)
    requires left < right
    ensures left <= m < right
    ensures right - left >= 3 ==> left < m
  {
    left + Half(right - left - 1)
  }

  /** `Median` is the source's `(right + left - 1) / 2`. */
  lemma MedianIsMidpoint(left: nat, right: nat)
    requires left < right
    ensures Median(left, right) == (right + left - 1) / 2
  {
    HalfIsDivision(right - left - 1);
  }

  /**
   * The two splits of an inner node over `[lo, hi)`: by index relative to the
   * vantage item (`ll`, `rl` hold items not above it) and by distance from it
   * (the first half `[lo, mid)` lies within `radius`, the second half not inside it).
   */
  ghost predicate NodeSplit(s: seq<nat>, f: Callback, vp: nat, radius: real,
                            lo: nat, m1: nat, mid: nat, m2: nat, hi: nat)
    requires lo <= m1 <= mid <= m2 <= hi <= |s|
  {
    && (forall x :: x in Items(s, lo, m1) ==> x <= vp)
    && (forall x :: x in Items(s, m1, mid) ==> x > vp)
    && (forall x :: x in Items(s, mid, m2) ==> x <= vp)
    && (forall x :: x in Items(s, m2, hi) ==> x > vp)
    && (forall x :: x in Items(s, lo, mid) ==> Dist(f, vp, x) <= radius)
    && (forall x :: x in Items(s, mid, hi) ==> Dist(f, vp, x) >= radius)
  }

  /**
   * `t` is the tree `buildFromPoints(lo, hi)` may return over the arrangement `s`
   * of `_indices`: empty ranges have no node, small ranges are leaves, larger
   * ones are split at their median into four quadrants, recursively.
   */
  ghost predicate Wf(t: Node, lo: nat, hi: nat, s: seq<nat>, f: Callback)
  {
    match t
    case Null => lo == hi <= |s|
    case Leaf(l, r) => l == lo && r == hi && lo < hi <= |s| && hi - lo <= MaxNumberOfElementInLeaf
    case Inner(vp, radius, l, m1, med, m2, r, ll, lr, rl, rr) =>
      && l == lo && r == hi && hi - lo > MaxNumberOfElementInLeaf
      && med == Median(lo, hi)
      && lo <= m1 <= med + 1 <= m2 <= hi <= |s|
      && vp < |s|
      && NodeSplit(s, f, vp, radius, lo, m1, med + 1, m2, hi)
      && Wf(ll, lo, m1, s, f) && Wf(lr, m1, med + 1, s, f)
      && Wf(rl, med + 1, m2, s, f) && Wf(rr, m2, hi, s, f)
  }

  /** The items of the leaves, left to right. */
  function Flatten(t: Node, s: seq<nat>): seq<nat>
  {
    match t
    case Null => []
    case Leaf(l, r) => if l <= r <= |s| then s[l..r] else []
    case Inner(_, _, _, _, _, _, _, ll, lr, rl, rr) =>
      Flatten(ll, s) + Flatten(lr, s) + Flatten(rl, s) + Flatten(rr, s)
  }

  /** The leaves of a well-formed tree tile its range: read left to right they are exactly `s[lo..hi]`. */
  lemma {:induction false} FlattenIsRange(t: Node, lo: nat, hi: nat, s: seq<nat>, f: Callback)
    requires Wf(t, lo, hi, s, f)
    ensures lo <= hi <= |s|
    ensures Flatten(t, s) == s[lo..hi]
  {
    match t
    case Null =>
    case Leaf(_, _) =>
    case Inner(_, _, _, m1, med, m2, _, ll, lr, rl, rr) =>
      var mid := med + 1;
      FlattenIsRange(ll, lo, m1, s, f);
      FlattenIsRange(lr, m1, mid, s, f);
      FlattenIsRange(rl, mid, m2, s, f);
      FlattenIsRange(rr, m2, hi, s, f);
      SplitFour(s, lo, m1, mid, m2, hi);
  }

  /** When `s` is a permutation of `0..n-1`, every item lies in exactly one leaf of the tree over `[0, n)`. */
  lemma EveryItemInOneLeaf(t: Node, n: nat, s: seq<nat>, f: Callback)
    requires Wf(t, 0, n, s, f) && |s| == n
    requires multiset(s) == multiset(Iota(n))
    ensures forall x: nat :: multiset(Flatten(t, s))[x] == if x < n then 1 else 0
  {
    FlattenIsRange(t, 0, n, s, f);
    assert s[0..n] == s;
    forall x: nat
      ensures multiset(Flatten(t, s))[x] == if x < n then 1 else 0
    {
      MultisetIota(n, x);
    }
  }

  /** The splits of a node survive any rearrangement inside each of its quadrants. */
  lemma NodeSplitPermuted(s: seq<nat>, s': seq<nat>, f: Callback, vp: nat, radius: real,
                          lo: nat, m1: nat, mid: nat, m2: nat, hi: nat)
    requires lo <= m1 <= mid <= m2 <= hi <= |s| && hi <= |s'|
    requires NodeSplit(s, f, vp, radius, lo, m1, mid, m2, hi)
    requires multiset(s[lo..m1]) == multiset(s'[lo..m1])
    requires multiset(s[m1..mid]) == multiset(s'[m1..mid])
    requires multiset(s[mid..m2]) == multiset(s'[mid..m2])
    requires multiset(s[m2..hi]) == multiset(s'[m2..hi])
    ensures NodeSplit(s', f, vp, radius, lo, m1, mid, m2, hi)
  {
    ItemsOfPermutedRange(s, s', lo, m1);
    ItemsOfPermutedRange(s, s', m1, mid);
    ItemsOfPermutedRange(s, s', mid, m2);
    ItemsOfPermutedRange(s, s', m2, hi);
    ItemsSplit(s, lo, m1, mid);
    ItemsSplit(s', lo, m1, mid);
    ItemsSplit(s, mid, m2, hi);
    ItemsSplit(s', mid, m2, hi);
  }

  /** A tree depends only on the part of `_indices` it covers. */
  lemma {:induction false} WfFrame(t: Node, lo: nat, hi: nat, s: seq<nat>, s': seq<nat>, f: Callback)
    requires Wf(t, lo, hi, s, f)
    requires |s| == |s'| && hi <= |s'| && s[lo..hi] == s'[lo..hi]
    ensures Wf(t, lo, hi, s', f)
  {
    match t
    case Null =>
    case Leaf(_, _) =>
    case Inner(vp, radius, _, m1, med, m2, _, ll, lr, rl, rr) =>
      var mid := med + 1;
      InnerSlice(s, s', lo, hi, lo, m1);
      InnerSlice(s, s', lo, hi, m1, mid);
      InnerSlice(s, s', lo, hi, mid, m2);
      InnerSlice(s, s', lo, hi, m2, hi);
      NodeSplitPermuted(s, s', f, vp, radius, lo, m1, mid, m2, hi);
      WfFrame(ll, lo, m1, s, s', f);
      WfFrame(lr, m1, mid, s, s', f);
      WfFrame(rl, mid, m2, s, s', f);
      WfFrame(rr, m2, hi, s, s', f);
  }
}
