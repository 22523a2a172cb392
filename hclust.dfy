/**
 * The clustering engine `HClustSingleBiVpTree`: the shuffled index array the
 * vantage-point tree is laid over, the memoising distance oracle, the lazily
 * refilled nearest-neighbour buffers of every item and the disjoint-set
 * partition of the items into clusters.
 */
module HClust {
  import opened Wrappers
  import opened Sequences
  import opened ExtReals
  import opened DistanceOracle
  import opened DisjointSets
  import opened HeapItems
  import opened VpTree
  import opened NeighborSearch
  import opened MergeEngine
  import opened MergeMatrix

  /**
   * The splits of a freshly selected and partitioned range. `s1` is the range after
   * the selection around `median` (`mid == median + 1`), `sA` after the partition of
   * the first half, `s2` after that of the second half. The vantage item, first in
   * `s1`, ends in the first quadrant.
   */
  lemma SplitAfterSelection(f: Callback, vp: nat, radius: real, s1: seq<nat>, sA: seq<nat>, s2: seq<nat>,
                            left: nat, m1: nat, median: nat, mid: nat, m2: nat, right: nat)
    requires IsMetric(f)
    requires mid == median + 1 && left < median && left <= m1 <= mid <= m2 <= right <= |s1|
    requires s1[left] == vp
    requires radius == Dist(f, vp, s1[median])
    requires forall k :: left < k < median ==> Dist(f, vp, s1[k]) <= radius
    requires forall k :: median < k < right ==> radius <= Dist(f, vp, s1[k])
    requires PermutesWithin(s1, sA, left, mid) && PermutesWithin(sA, s2, mid, right)
    requires forall k :: left <= k < m1 ==> sA[k] <= vp
    requires forall k :: m1 <= k < mid ==> sA[k] > vp
    requires forall k :: mid <= k < m2 ==> s2[k] <= vp
    requires forall k :: m2 <= k < right ==> s2[k] > vp
    ensures NodeSplit(s2, f, vp, radius, left, m1, mid, m2, right)
    ensures vp in Items(s2, left, m1)
  {
    assert Dist(f, vp, vp) == 0.0;
    forall x | x in Items(s1, left, mid)
      ensures Dist(f, vp, x) <= radius
    {
      var k :| left <= k < mid && s1[k] == x;
    }
    forall x | x in Items(s1, mid, right)
      ensures Dist(f, vp, x) >= radius
    {
      var k :| mid <= k < right && s1[k] == x;
    }
    PermutesWithinRange(s1, sA, left, mid);
    PermutesWithinOutside(s1, sA, left, mid, mid, right);
    PermutesWithinRange(sA, s2, mid, right);
    PermutesWithinOutside(sA, s2, mid, right, left, mid);
    assert forall k :: left <= k < mid ==> s2[k] == sA[k];
    assert vp in Items(sA, left, mid) by {
      assert s1[left] in s1[left..mid];
    }
    var k :| left <= k < mid && sA[k] == vp;
    assert s2[k] in s2[left..m1];
  }

  /**
   * An inner node whose quadrants were split in `s2` and whose subtrees were then
   * built one after the other (`s3` to `s6`) is a well-formed tree over the final arrangement.
   */
  lemma FinishNode(t: Node, f: Callback, mid: nat, s2: seq<nat>, s3: seq<nat>, s4: seq<nat>, s5: seq<nat>, s6: seq<nat>)
    requires t.Inner? && t.right - t.left > MaxNumberOfElementInLeaf && t.median == Median(t.left, t.right)
    requires mid == t.median + 1
    requires t.left <= t.middle1 <= mid <= t.middle2 <= t.right <= |s2|
    requires NodeSplit(s2, f, t.vpindex, t.radius, t.left, t.middle1, mid, t.middle2, t.right)
    requires PermutesWithin(s2, s3, t.left, t.middle1) && Wf(t.ll, t.left, t.middle1, s3, f)
    requires PermutesWithin(s3, s4, t.middle1, mid) && Wf(t.lr, t.middle1, mid, s4, f)
    requires PermutesWithin(s4, s5, mid, t.middle2) && Wf(t.rl, mid, t.middle2, s5, f)
    requires PermutesWithin(s5, s6, t.middle2, t.right) && Wf(t.rr, t.middle2, t.right, s6, f)
    requires t.vpindex < |s6|
    ensures Wf(t, t.left, t.right, s6, f)
  {
    var lo, m1, m2, hi := t.left, t.middle1, t.middle2, t.right;
    assert s3[lo..m1] == s6[lo..m1] by {
      PermutesWithinOutside(s3, s4, m1, mid, lo, m1);
      PermutesWithinOutside(s4, s5, mid, m2, lo, m1);
      PermutesWithinOutside(s5, s6, m2, hi, lo, m1);
    }
    assert s4[m1..mid] == s6[m1..mid] by {
      PermutesWithinOutside(s4, s5, mid, m2, m1, mid);
      PermutesWithinOutside(s5, s6, m2, hi, m1, mid);
    }
    assert s5[mid..m2] == s6[mid..m2] by {
      PermutesWithinOutside(s5, s6, m2, hi, mid, m2);
    }
    WfFrame(t.ll, lo, m1, s3, s6, f);
    WfFrame(t.lr, m1, mid, s4, s6, f);
    WfFrame(t.rl, mid, m2, s5, s6, f);
    assert multiset(s2[lo..m1]) == multiset(s6[lo..m1]) by {
      PermutesWithinRange(s2, s3, lo, m1);
    }
    assert multiset(s2[m1..mid]) == multiset(s6[m1..mid]) by {
      PermutesWithinOutside(s2, s3, lo, m1, m1, mid);
      PermutesWithinRange(s3, s4, m1, mid);
    }
    assert multiset(s2[mid..m2]) == multiset(s6[mid..m2]) by {
      PermutesWithinOutside(s2, s3, lo, m1, mid, m2);
      PermutesWithinOutside(s3, s4, m1, mid, mid, m2);
      PermutesWithinRange(s4, s5, mid, m2);
    }
    assert multiset(s2[m2..hi]) == multiset(s6[m2..hi]) by {
      PermutesWithinOutside(s2, s3, lo, m1, m2, hi);
      PermutesWithinOutside(s3, s4, m1, mid, m2, hi);
      PermutesWithinOutside(s4, s5, mid, m2, m2, hi);
      PermutesWithinRange(s5, s6, m2, hi);
    }
    NodeSplitPermuted(s2, s6, f, t.vpindex, t.radius, lo, m1, mid, m2, hi);
  }

  /** Each of `s[lo..i]` is no farther from `vp` than anything after it in `[lo, hi)`. */
  ghost predicate OrderedPrefix(f: Callback, vp: nat, s: seq<nat>, lo: nat, i: nat, hi: nat)
    requires hi <= |s|
  {
    forall k, l :: lo <= k < i && k < l < hi ==> Dist(f, vp, s[k]) <= Dist(f, vp, s[l])
  }

  /**
   * One round of the selection: with `[lo, i)` already holding the nearest items in
   * order and `best` a nearest item of `[i, hi)`, exchanging it into position `i`
   * extends the ordered prefix by one.
   */
  lemma SelectionStep(f: Callback, vp: nat, a: seq<nat>, b: seq<nat>, lo: nat, i: nat, best: nat, hi: nat)
    requires lo <= i <= best < hi <= |a|
    requires b == a[i := a[best]][best := a[i]]
    requires OrderedPrefix(f, vp, a, lo, i, hi)
    requires forall l :: i <= l < hi ==> Dist(f, vp, a[best]) <= Dist(f, vp, a[l])
    ensures OrderedPrefix(f, vp, b, lo, i + 1, hi)
  {
    forall k, l | lo <= k <= i && k < l < hi
      ensures Dist(f, vp, b[k]) <= Dist(f, vp, b[l])
    {
      if k < i {
        assert b[k] == a[k];
        if l == i {
          assert b[l] == a[best];
        } else if l == best {
          assert b[l] == a[i];
        } else {
          assert b[l] == a[l];
        }
      } else {
        assert b[k] == a[best];
        if l == best {
          assert b[l] == a[i];
        } else {
          assert b[l] == a[l];
        }
      }
    }
  }

  /** The `pop` loop of the leaf visit: drops every heap entry tied at `maxR` from the top. */
  method DropTies(heap: seq<Neighbor>, maxR: ExtReal) returns (heap': seq<Neighbor>)
    ensures heap' == PopTies(heap, maxR)
  {
    heap' := heap;
    while heap' != [] && Fin(heap'[|heap'| - 1].dist) == maxR
      invariant PopTies(heap', maxR) == PopTies(heap, maxR)
    {
      heap' := heap'[..|heap'| - 1];
    }
  }

  /** The rest of a leaf turn once the distance `d` to `x` is known; each early return is a `continue`. */
  method AdmitNeighbor(heap: seq<Neighbor>, maxR: ExtReal, minR: ExtReal, x: nat, d: real)
    returns (heap': seq<Neighbor>, maxR': ExtReal)
    ensures (heap', maxR') == Admit(heap, maxR, minR, x, d)
  {
    heap', maxR' := heap, maxR;
    if Lt(maxR, Fin(d)) || Lt(Fin(d), minR) {
      return;
    }
    var h1 := heap;
    if |heap| >= MaxNearestNeighborPrefetch && Lt(Fin(d), maxR) {
      h1 := DropTies(heap, maxR);
    }
    heap' := PushNeighbor(h1, Neighbor(x, d));
    maxR' := Fin(heap'[|heap'| - 1].dist);
  }

  class HClustSingleBiVpTree {
    /** `_n`, the number of items. */
    const n: nat
    /** `_distance`. */
    const distance: Distance
    /** `_indices`, the permutation of the items the tree is laid over. */
    const indices: array<nat>
    /** `_root`. */
    var root: Node
    var neighborsCount: seq<nat>
    /** The distance of the last batch found for each item; -INFINITY before the first. */
    var minRadiuses: seq<ExtReal>
    var shouldFind: seq<bool>
    /** The neighbour buffers, closest first. */
    var nearestNeighbors: seq<seq<Neighbor>>
    var ds: DisjointSets

    /** What building the tree needs: a metric oracle over the `n` items and an index array of items. */
    ghost predicate Ready()
      reads distance, indices
    {
      && distance.Valid() && distance.size == n
      && IsMetric(distance.callback)
      && InRange()
    }

    /** `_indices` has one slot per item and holds items. */
    ghost predicate InRange()
      reads indices
    {
      indices.Length == n && forall k :: 0 <= k < n ==> indices[k] < n
    }

    /**
     * The object invariant: `_indices` is a permutation of the items, `_root` is a
     * tree over all of it, the per-item vectors have one entry per item, and `ds`
     * partitions the items.
     */
    ghost predicate Valid()
      reads this, distance, indices
    {
      Ready() && n >= 1 && Permuted() && TreeOk() && StateOk()
    }

    /** `_indices` holds every item once. */
    ghost predicate Permuted()
      reads indices
    {
      multiset(indices[..]) == multiset(Iota(n))
    }

    /** `_root` is a tree over `_indices[0..n)`. */
    ghost predicate TreeOk()
      reads this, indices
    {
      Wf(root, 0, n, indices[..], distance.callback)
    }

    /** The per-item vectors have one entry per item, and `ds` partitions the items. */
    ghost predicate StateOk()
      reads this
    {
      && |neighborsCount| == n && |minRadiuses| == n && |shouldFind| == n && |nearestNeighbors| == n
      && (forall a :: 0 <= a < n ==> minRadiuses[a] != PosInf)
      && WellFormed(ds) && |ds.rep| == n
    }

    /** What a search needs: the oracle, the items and the partition, but not the tree. */
    ghost predicate Searchable()
      reads this, distance, indices
    {
      Ready() && WellFormed(ds) && |ds.rep| == n
    }

    /**
     * Shuffles the items into `_indices` (Fisher–Yates with an arbitrary choice in
     * `[0, i]` for each `i`), makes every item a singleton set and builds the tree.
     */
    constructor (n: nat, callback: Callback)
      requires n >= 1
      requires IsMetric(callback)
      ensures Valid()
      ensures this.n == n && distance.callback == callback
      ensures Lists() == InitialBuffers(n)
      ensures ds == MakeSets(n)
      ensures fresh(distance) && fresh(indices)
    {
      this.n := n;
      distance := new Distance(n, callback);
      indices := new nat[n];
      root := Null;
      var initial := InitialBuffers(n);
      neighborsCount := initial.counts;
      minRadiuses := initial.minR;
      shouldFind := initial.shouldFind;
      nearestNeighbors := initial.lists;
      new;
      ShuffleIndices();
      ds := MakeSets(n);
      root := BuildFromPoints(0, n);
    }

    /**
     * The start of the constructor: `_indices` becomes `0..n-1`, then a random
     * permutation of it by Fisher–Yates; the random choice in `[0, i]` is left arbitrary.
     */
    method ShuffleIndices()
      requires indices.Length == n
      modifies indices
      ensures multiset(indices[..]) == multiset(Iota(n))
      ensures InRange()
    {
      var i := 0;
      while i < n
        invariant 0 <= i <= n
        invariant forall k :: 0 <= k < i ==> indices[k] == k
      {
        indices[i] := i;
        i := i + 1;
      }
      assert indices[..] == Iota(n);
      var t: int := n - 1;
      while t >= 1
        invariant -1 <= t < n
        invariant multiset(indices[..]) == multiset(Iota(n))
        invariant InRange()
      {
        var j :| 0 <= j <= t;
        Swap(t, j, 0, n);
        t := t - 1;
      }
    }

    /** `std::swap` of the positions `i` and `j` of `_indices`, both inside `[lo, hi)`. */
    method Swap(i: nat, j: nat, ghost lo: nat, ghost hi: nat)
      requires InRange() && lo <= i < hi && lo <= j < hi && hi <= n
      modifies indices
      ensures InRange()
      ensures indices[..] == old(indices[..])[i := old(indices[j])][j := old(indices[i])]
      ensures PermutesWithin(old(indices[..]), indices[..], lo, hi)
    {
      ghost var before := indices[..];
      indices[i], indices[j] := indices[j], indices[i];
      SwapPermutes(before, indices[..], i, j, lo, hi);
    }

    /** A call of the oracle `distance(a, b)`: the distance of the two items; only its cache changes. */
    method Measure(a: nat, b: nat) returns (d: real)
      requires Ready() && a < n && b < n
      modifies distance
      ensures Ready()
      ensures d == Dist(distance.callback, a, b)
    {
      d := distance.Call(a, b);
    }

    /** The position of an item of `[lo, hi)` nearest to `vp`; only the oracle's cache changes. */
    method NearestIn(lo: nat, hi: nat, vp: nat) returns (best: nat)
      requires Ready() && vp < n
      requires lo < hi <= n
      modifies distance
      ensures Ready()
      ensures lo <= best < hi
      ensures forall l :: lo <= l < hi ==>
        Dist(distance.callback, vp, indices[best]) <= Dist(distance.callback, vp, indices[l])
    {
      ghost var f := distance.callback;
      best := lo;
      var bestDist := Measure(vp, indices[lo]);
      var j := lo + 1;
      while j < hi
        invariant lo < j <= hi && lo <= best < j
        invariant Ready()
        invariant bestDist == Dist(f, vp, indices[best])
        invariant forall l :: lo <= l < j ==> bestDist <= Dist(f, vp, indices[l])
      {
        best, bestDist := Closer(lo, j, vp, best, bestDist);
        j := j + 1;
      }
    }

    /** One turn of the scan of `NearestIn`: the item at `j` replaces the best so far when it is strictly nearer. */
    method Closer(ghost lo: nat, j: nat, vp: nat, best: nat, bestDist: real) returns (best': nat, bestDist': real)
      requires Ready() && vp < n && lo <= best < j < n
      requires bestDist == Dist(distance.callback, vp, indices[best])
      requires forall l :: lo <= l < j ==> bestDist <= Dist(distance.callback, vp, indices[l])
      modifies distance
      ensures Ready() && lo <= best' <= j
      ensures bestDist' == Dist(distance.callback, vp, indices[best'])
      ensures forall l :: lo <= l <= j ==> bestDist' <= Dist(distance.callback, vp, indices[l])
    {
      var d := Measure(vp, indices[j]);
      best', bestDist' := best, bestDist;
      if d < bestDist {
        best', bestDist' := j, d;
      }
    }

    /**
     * `std::nth_element` over `[lo, hi)` with the order of distance from `vp`: the
     * range is rearranged so that nothing before `nth` is farther than the item at
     * `nth` and nothing after it is nearer. Done by selecting the nearest remaining
     * item for each position up to `nth`.
     */
    method NthElement(lo: nat, nth: nat, hi: nat, vp: nat)
      requires Ready() && vp < n
      requires lo <= nth < hi <= n
      modifies indices, distance
      ensures Ready()
      ensures PermutesWithin(old(indices[..]), indices[..], lo, hi)
      ensures forall k :: lo <= k < nth ==>
        Dist(distance.callback, vp, indices[k]) <= Dist(distance.callback, vp, indices[nth])
      ensures forall k :: nth < k < hi ==>
        Dist(distance.callback, vp, indices[nth]) <= Dist(distance.callback, vp, indices[k])
    {
      ghost var f := distance.callback;
      var i := lo;
      while i <= nth
        invariant lo <= i <= nth + 1
        invariant Ready() && distance.callback == f
        invariant PermutesWithin(old(indices[..]), indices[..], lo, hi)
        invariant OrderedPrefix(f, vp, indices[..], lo, i, hi)
      {
        var best := NearestIn(i, hi, vp);
        ghost var before := indices[..];
        Swap(i, best, lo, hi);
        SelectionStep(f, vp, before, indices[..], lo, i, best, hi);
        PermutesWithinTrans(old(indices[..]), before, indices[..], lo, hi, lo, hi, lo, hi);
        i := i + 1;
      }
      ghost var s := indices[..];
      assert OrderedPrefix(f, vp, s, lo, nth + 1, hi);
      assert forall k :: lo <= k < hi ==> indices[k] == s[k];
    }

    /**
     * `std::partition` over `[lo, hi)` with `IndexComparator(pivot)`: items not above
     * `pivot` are moved before the returned position, the others after it.
     */
    method Partition(lo: nat, hi: nat, pivot: nat) returns (m: nat)
      requires Ready()
      requires lo <= hi <= n
      modifies indices
      ensures Ready()
      ensures lo <= m <= hi
      ensures PermutesWithin(old(indices[..]), indices[..], lo, hi)
      ensures forall k :: lo <= k < m ==> indices[k] <= pivot
      ensures forall k :: m <= k < hi ==> indices[k] > pivot
    {
      m := lo;
      var k := lo;
      while k < hi
        invariant lo <= m <= k <= hi
        invariant Ready()
        invariant PermutesWithin(old(indices[..]), indices[..], lo, hi)
        invariant forall j :: lo <= j < m ==> indices[j] <= pivot
        invariant forall j :: m <= j < k ==> indices[j] > pivot
      {
        if indices[k] <= pivot {
          ghost var before := indices[..];
          Swap(m, k, lo, hi);
          PermutesWithinTrans(old(indices[..]), before, indices[..], lo, hi, lo, hi, lo, hi);
          m := m + 1;
        }
        k := k + 1;
      }
    }

    /**
     * The split step of `buildFromPoints` over `[left, right)`: the first item becomes
     * the vantage item, the rest is arranged around the median distance from it by
     * `nth_element`, that distance is the radius, and each half is partitioned by
     * index relative to the vantage item. The vantage item itself lands in the first
     * quadrant `[left, middle1)`, so that quadrant is never empty.
     */
    method SplitRange(left: nat, right: nat)
      returns (vpi: nat, radius: real, median: nat, mid: nat, middle1: nat, middle2: nat)
      requires Ready()
      requires left < right <= n && right - left > MaxNumberOfElementInLeaf
      modifies indices, distance
      ensures Ready() && vpi < n
      ensures median == Median(left, right) && mid == median + 1
      ensures left <= middle1 <= mid <= middle2 <= right
      ensures NodeSplit(indices[..], distance.callback, vpi, radius, left, middle1, mid, middle2, right)
      ensures vpi in Items(indices[..], left, middle1)
      ensures PermutesWithin(old(indices[..]), indices[..], left, right)
    {
      ghost var f := distance.callback;
      vpi := indices[left];
      median := Median(left, right);
      ghost var s0 := indices[..];
      NthElement(left + 1, median, right, vpi);
      ghost var s1 := indices[..];
      mid := median + 1;
      radius := Measure(vpi, indices[median]);
      middle1 := Partition(left, mid, vpi);
      ghost var sA := indices[..];
      middle2 := Partition(mid, right, vpi);
      ghost var s2 := indices[..];
      SplitAfterSelection(f, vpi, radius, s1, sA, s2, left, middle1, median, mid, middle2, right);
      PermutesWithinTrans(s0, s1, sA, left, right, left + 1, right, left, mid);
      PermutesWithinTrans(s0, sA, s2, left, right, left, right, mid, right);
    }

    /**
     * `buildFromPoints(left, right)`: a leaf for at most sixteen items; otherwise the
     * first item becomes the vantage item, the rest is split at the median distance
     * from it, each half is partitioned by index relative to it, and every non-empty
     * quadrant gets its own subtree. Only `[left, right)` of `_indices` is rearranged.
     */
    method BuildFromPoints(left: nat, right: nat) returns (t: Node)
      requires Ready()
      requires left < right <= n
      modifies indices, distance
      ensures Ready()
      ensures Wf(t, left, right, indices[..], distance.callback)
      ensures PermutesWithin(old(indices[..]), indices[..], left, right)
      decreases right - left
    {
      ghost var f := distance.callback;
      if right - left <= MaxNumberOfElementInLeaf {
        return Leaf(left, right);
      }
      ghost var s0 := indices[..];
      var vpi, radius, median, mid, middle1, middle2 := SplitRange(left, right);
      ghost var s2 := indices[..];

      var ll, lr, rl, rr := Null, Null, Null, Null;
      if middle1 - left > 0 {
        ll := BuildFromPoints(left, middle1);
      }
      ghost var s3 := indices[..];
      if mid - middle1 > 0 {
        lr := BuildFromPoints(middle1, mid);
      }
      ghost var s4 := indices[..];
      if middle2 - median - 1 > 0 {
        rl := BuildFromPoints(mid, middle2);
      }
      ghost var s5 := indices[..];
      if right - middle2 > 0 {
        rr := BuildFromPoints(middle2, right);
      }
      ghost var s6 := indices[..];
      t := Inner(vpi, radius, left, middle1, median, middle2, right, ll, lr, rl, rr);
      PermutesWithinTrans(s0, s2, s3, left, right, left, right, left, middle1);
      PermutesWithinTrans(s0, s3, s4, left, right, left, right, middle1, mid);
      PermutesWithinTrans(s0, s4, s5, left, right, left, right, mid, middle2);
      PermutesWithinTrans(s0, s5, s6, left, right, left, right, middle2, right);
      FinishNode(t, f, mid, s2, s3, s4, s5, s6);
    }
  
    /** The fixed arguments of a search for `index` in the current partition. */
    ghost function QueryFor(index: nat, clusterIndex: nat, minR: ExtReal): Query
      reads this
    {
      Query(distance.callback, ds, index, clusterIndex, minR)
    }

    /**
     * `getNearestNeighborsFromMinRadiusRecursive(node, index, clusterIndex, minR, maxR, heap)`
     * over the subtree `t` covering `[lo, hi)`: afterwards the heap and `maxR` are the
     * batch of everything looked at before together with the items of the subtree, and
     * `maxR` has not grown. Only the oracle's cache changes.
     */
    method Search(t: Node, ghost lo: nat, ghost hi: nat, index: nat, clusterIndex: nat,
                  minR: ExtReal, maxR: ExtReal, heap: seq<Neighbor>, ghost seen: set<nat>)
      returns (maxR': ExtReal, heap': seq<Neighbor>)
      requires Searchable() && Permuted() && index < n
      requires lo <= hi <= n
      requires Wf(t, lo, hi, indices[..], distance.callback)
      requires Items(indices[..], lo, hi) !! seen
      requires IsBatch(QueryFor(index, clusterIndex, minR), heap, maxR, seen)
      modifies distance
      ensures Searchable() && Permuted()
      ensures IsBatch(QueryFor(index, clusterIndex, minR), heap', maxR', seen + Items(indices[..], lo, hi))
      ensures Le(maxR', maxR)
      decreases t, 4
    {
      ghost var qr := QueryFor(index, clusterIndex, minR);
      ghost var s := indices[..];
      PermutationOfIota(s, n);
      match t
      case Null =>
        assert Items(s, lo, hi) == {};
        return maxR, heap;
      case Leaf(left, right) =>
        maxR', heap' := SearchLeaf(left, right, index, clusterIndex, minR, maxR, heap, seen);
      case Inner(_, _, _, _, _, _, _, _, _, _, _) =>
        maxR', heap' := SearchInner(t, lo, hi, index, clusterIndex, minR, maxR, heap, seen);
    }

    /**
     * An inner node: the distance from the vantage item to the query decides which
     * half is visited first, and each half is visited when its test lets it through.
     */
    method SearchInner(t: Node, ghost lo: nat, ghost hi: nat, index: nat, clusterIndex: nat,
                       minR: ExtReal, maxR: ExtReal, heap: seq<Neighbor>, ghost seen: set<nat>)
      returns (maxR': ExtReal, heap': seq<Neighbor>)
      requires Searchable() && Permuted() && index < n
      requires lo <= hi <= n && t.Inner?
      requires Wf(t, lo, hi, indices[..], distance.callback)
      requires Items(indices[..], lo, hi) !! seen
      requires IsBatch(QueryFor(index, clusterIndex, minR), heap, maxR, seen)
      modifies distance
      ensures Searchable() && Permuted()
      ensures IsBatch(QueryFor(index, clusterIndex, minR), heap', maxR', seen + Items(indices[..], lo, hi))
      ensures Le(maxR', maxR)
      decreases t, 3
    {
      var dist := Measure(t.vpindex, index);
      if dist < t.radius {
        maxR', heap' := InnerThenOuter(t, lo, hi, index, clusterIndex, minR, dist, maxR, heap, seen);
      } else {
        maxR', heap' := OuterThenInner(t, lo, hi, index, clusterIndex, minR, dist, maxR, heap, seen);
      }
    }

    /** An inner node whose vantage item is within `radius` of the query: the inner half first, then the outer. */
    method InnerThenOuter(t: Node, ghost lo: nat, ghost hi: nat, index: nat, clusterIndex: nat,
                          minR: ExtReal, dist: real, maxR: ExtReal, heap: seq<Neighbor>, ghost seen: set<nat>)
      returns (maxR': ExtReal, heap': seq<Neighbor>)
      requires Searchable() && Permuted() && index < n
      requires lo <= hi <= n && t.Inner?
      requires Wf(t, lo, hi, indices[..], distance.callback)
      requires dist == Dist(distance.callback, t.vpindex, index)
      requires Items(indices[..], lo, hi) !! seen
      requires IsBatch(QueryFor(index, clusterIndex, minR), heap, maxR, seen)
      modifies distance
      ensures Searchable() && Permuted()
      ensures IsBatch(QueryFor(index, clusterIndex, minR), heap', maxR', seen + Items(indices[..], lo, hi))
      ensures Le(maxR', maxR)
      decreases t, 2
    {
      ghost var s := indices[..];
      PermutationOfIota(s, n);
      ghost var mid := t.median + 1;
      ItemsSplit(s, lo, mid, hi);
      ItemsDisjoint(s, lo, mid, mid, hi);
      maxR', heap' := SearchInnerHalf(t, lo, hi, mid, index, clusterIndex, minR, dist, maxR, heap, seen);
      maxR', heap' := SearchOuterHalf(t, lo, hi, mid, index, clusterIndex, minR, dist, maxR', heap',
                                      seen + Items(s, lo, mid));
      assert seen + Items(s, lo, mid) + Items(s, mid, hi) == seen + Items(s, lo, hi);
    }

    /** An inner node whose vantage item is `radius` or more from the query: the outer half first, then the inner. */
    method OuterThenInner(t: Node, ghost lo: nat, ghost hi: nat, index: nat, clusterIndex: nat,
                          minR: ExtReal, dist: real, maxR: ExtReal, heap: seq<Neighbor>, ghost seen: set<nat>)
      returns (maxR': ExtReal, heap': seq<Neighbor>)
      requires Searchable() && Permuted() && index < n
      requires lo <= hi <= n && t.Inner?
      requires Wf(t, lo, hi, indices[..], distance.callback)
      requires dist == Dist(distance.callback, t.vpindex, index)
      requires Items(indices[..], lo, hi) !! seen
      requires IsBatch(QueryFor(index, clusterIndex, minR), heap, maxR, seen)
      modifies distance
      ensures Searchable() && Permuted()
      ensures IsBatch(QueryFor(index, clusterIndex, minR), heap', maxR', seen + Items(indices[..], lo, hi))
      ensures Le(maxR', maxR)
      decreases t, 2
    {
      ghost var s := indices[..];
      PermutationOfIota(s, n);
      ghost var mid := t.median + 1;
      ItemsSplit(s, lo, mid, hi);
      ItemsDisjoint(s, lo, mid, mid, hi);
      maxR', heap' := SearchOuterHalf(t, lo, hi, mid, index, clusterIndex, minR, dist, maxR, heap, seen);
      maxR', heap' := SearchInnerHalf(t, lo, hi, mid, index, clusterIndex, minR, dist, maxR', heap',
                                      seen + Items(s, mid, hi));
      assert seen + Items(s, mid, hi) + Items(s, lo, mid) == seen + Items(s, lo, hi);
    }

    /** The `for` loop of a leaf: each item of `[left, right)` visited in turn. */
    method ScanLeaf(left: nat, right: nat, index: nat, clusterIndex: nat,
                    minR: ExtReal, maxR: ExtReal, heap: seq<Neighbor>)
      returns (maxR': ExtReal, heap': seq<Neighbor>)
      requires Searchable() && index < n
      requires left <= right <= n
      modifies distance
      ensures Searchable()
      ensures (heap', maxR') == Scan(QueryFor(index, clusterIndex, minR), heap, maxR, indices[left..right])
    {
      ghost var qr := QueryFor(index, clusterIndex, minR);
      maxR', heap' := maxR, heap;
      for i := left to right
        invariant Searchable()
        invariant (heap', maxR') == Scan(qr, heap, maxR, indices[left..i])
      {
        ScanSnoc(qr, heap, maxR, indices[left..i], indices[i]);
        assert indices[left..i + 1] == indices[left..i] + [indices[i]];
        maxR', heap' := LeafVisit(indices[i], index, clusterIndex, minR, maxR', heap');
      }
    }

    /** One turn of the leaf loop, on the item `x`; each early return is a `continue` of the loop. */
    method LeafVisit(x: nat, index: nat, clusterIndex: nat, minR: ExtReal, maxR: ExtReal, heap: seq<Neighbor>)
      returns (maxR': ExtReal, heap': seq<Neighbor>)
      requires Searchable() && index < n && x < n
      modifies distance
      ensures Searchable()
      ensures (heap', maxR') == LeafStep(QueryFor(index, clusterIndex, minR), heap, maxR, x)
    {
      ghost var qr := QueryFor(index, clusterIndex, minR);
      maxR', heap' := maxR, heap;
      if index >= x {
        return;
      }
      if clusterIndex == FindSet(ds, x) {
        return;
      }
      var dist2 := Measure(index, x);
      assert dist2 == DistTo(qr, x);
      heap', maxR' := AdmitNeighbor(heap, maxR, minR, x, dist2);
    }

    /** The leaf loop of the search over the items of `[left, right)`, in order. */
    method SearchLeaf(left: nat, right: nat, index: nat, clusterIndex: nat,
                      minR: ExtReal, maxR: ExtReal, heap: seq<Neighbor>, ghost seen: set<nat>)
      returns (maxR': ExtReal, heap': seq<Neighbor>)
      requires Searchable() && Permuted() && index < n
      requires left <= right <= n
      requires Items(indices[..], left, right) !! seen
      requires IsBatch(QueryFor(index, clusterIndex, minR), heap, maxR, seen)
      modifies distance
      ensures Searchable() && Permuted()
      ensures IsBatch(QueryFor(index, clusterIndex, minR), heap', maxR', seen + Items(indices[..], left, right))
      ensures Le(maxR', maxR)
    {
      ghost var qr := QueryFor(index, clusterIndex, minR);
      ghost var s := indices[..];
      maxR', heap' := ScanLeaf(left, right, index, clusterIndex, minR, maxR, heap);
      ghost var xs := s[left..right];
      PermutationOfIota(s, n);
      DistinctSlice(s, left, right);
      assert forall k :: 0 <= k < |xs| ==> xs[k] in Items(s, left, right);
      ScanKeepsBatch(qr, heap, maxR, seen, xs);
    }

    /**
     * A visit of the quadrant `ll` or `rl`, whose items are at most the vantage item:
     * skipped when the query is above the vantage item, since only larger items are
     * ever reported.
     */
    method SearchLowerQuadrant(c: Node, ghost lo: nat, ghost hi: nat, vp: nat, index: nat, clusterIndex: nat,
                               minR: ExtReal, maxR: ExtReal, heap: seq<Neighbor>, ghost seen: set<nat>)
      returns (maxR': ExtReal, heap': seq<Neighbor>)
      requires Searchable() && Permuted() && index < n && lo <= hi <= n
      requires Wf(c, lo, hi, indices[..], distance.callback)
      requires forall x :: x in Items(indices[..], lo, hi) ==> x <= vp
      requires Items(indices[..], lo, hi) !! seen
      requires IsBatch(QueryFor(index, clusterIndex, minR), heap, maxR, seen)
      modifies distance
      ensures Searchable() && Permuted()
      ensures IsBatch(QueryFor(index, clusterIndex, minR), heap', maxR', seen + Items(indices[..], lo, hi))
      ensures Le(maxR', maxR)
      decreases c, 5
    {
      maxR', heap' := maxR, heap;
      if c != Null && index <= vp {
        maxR', heap' := Search(c, lo, hi, index, clusterIndex, minR, maxR, heap, seen);
      } else if c != Null {
        PruneByIndex(QueryFor(index, clusterIndex, minR), heap, maxR, seen, Items(indices[..], lo, hi), vp);
      } else {
        assert Items(indices[..], lo, hi) == {};
      }
    }

    /**
     * The inner-child test of an inner node and the visits it guards: `ll` (only for a
     * query not above the vantage item) and `lr`, the quadrants within `radius`.
     */
    method SearchInnerHalf(t: Node, ghost lo: nat, ghost hi: nat, ghost mid: nat, index: nat, clusterIndex: nat,
                           minR: ExtReal, dist: real, maxR: ExtReal, heap: seq<Neighbor>, ghost seen: set<nat>)
      returns (maxR': ExtReal, heap': seq<Neighbor>)
      requires Searchable() && Permuted() && index < n
      requires t.Inner? && Wf(t, lo, hi, indices[..], distance.callback) && mid == t.median + 1
      requires dist == Dist(distance.callback, t.vpindex, index)
      requires Items(indices[..], lo, mid) !! seen
      requires IsBatch(QueryFor(index, clusterIndex, minR), heap, maxR, seen)
      modifies distance
      ensures Searchable() && Permuted()
      ensures IsBatch(QueryFor(index, clusterIndex, minR), heap', maxR', seen + Items(indices[..], lo, mid))
      ensures Le(maxR', maxR)
      decreases t, 1
    {
      ghost var qr := QueryFor(index, clusterIndex, minR);
      ghost var s := indices[..];
      var m1 := t.middle1;
      PermutationOfIota(s, n);
      ItemsSplit(s, lo, m1, mid);
      ItemsDisjoint(s, lo, m1, m1, mid);
      maxR', heap' := maxR, heap;
      if MinusLe(dist, maxR, t.radius) && Le(minR, Fin(dist + t.radius)) {
        maxR', heap' := SearchQuadrants(t, t.ll, t.lr, lo, m1, mid, t.vpindex, index, clusterIndex, minR, maxR, heap, seen);
      } else {
        PruneInner(qr, heap, maxR, seen, Items(s, lo, mid), t.vpindex, t.radius, dist);
      }
    }

    /**
     * The outer-child test of an inner node and the visits it guards: `rl` (only for a
     * query not above the vantage item) and `rr`, the quadrants at `radius` or beyond.
     */
    method SearchOuterHalf(t: Node, ghost lo: nat, ghost hi: nat, ghost mid: nat, index: nat, clusterIndex: nat,
                           minR: ExtReal, dist: real, maxR: ExtReal, heap: seq<Neighbor>, ghost seen: set<nat>)
      returns (maxR': ExtReal, heap': seq<Neighbor>)
      requires Searchable() && Permuted() && index < n
      requires t.Inner? && Wf(t, lo, hi, indices[..], distance.callback) && mid == t.median + 1
      requires dist == Dist(distance.callback, t.vpindex, index)
      requires Items(indices[..], mid, hi) !! seen
      requires IsBatch(QueryFor(index, clusterIndex, minR), heap, maxR, seen)
      modifies distance
      ensures Searchable() && Permuted()
      ensures IsBatch(QueryFor(index, clusterIndex, minR), heap', maxR', seen + Items(indices[..], mid, hi))
      ensures Le(maxR', maxR)
      decreases t, 1
    {
      ghost var qr := QueryFor(index, clusterIndex, minR);
      ghost var s := indices[..];
      var m2 := t.middle2;
      PermutationOfIota(s, n);
      ItemsSplit(s, mid, m2, hi);
      ItemsDisjoint(s, mid, m2, m2, hi);
      maxR', heap' := maxR, heap;
      if PlusGe(dist, maxR, t.radius) {
        maxR', heap' := SearchQuadrants(t, t.rl, t.rr, mid, m2, hi, t.vpindex, index, clusterIndex, minR, maxR, heap, seen);
      } else {
        PruneOuter(qr, heap, maxR, seen, Items(s, mid, hi), t.vpindex, t.radius, dist);
      }
    }

    /**
     * The two quadrants of one half of the inner node `t`, once its test let it through:
     * the lower one (`ll` or `rl`, whose items are all below the vantage item `vp`), then
     * the upper one (`lr` or `rr`) when it exists.
     */
    method SearchQuadrants(ghost t: Node, lower: Node, upper: Node, ghost a: nat, ghost m: nat, ghost b: nat, vp: nat,
                           index: nat, clusterIndex: nat, minR: ExtReal, maxR: ExtReal, heap: seq<Neighbor>,
                           ghost seen: set<nat>)
      returns (maxR': ExtReal, heap': seq<Neighbor>)
      requires Searchable() && Permuted() && index < n
      requires t.Inner? && ((lower == t.ll && upper == t.lr) || (lower == t.rl && upper == t.rr))
      requires a <= m <= b <= n
      requires Wf(lower, a, m, indices[..], distance.callback) && Wf(upper, m, b, indices[..], distance.callback)
      requires forall x :: x in Items(indices[..], a, m) ==> x <= vp
      requires Items(indices[..], a, b) !! seen
      requires IsBatch(QueryFor(index, clusterIndex, minR), heap, maxR, seen)
      modifies distance
      ensures Searchable() && Permuted()
      ensures IsBatch(QueryFor(index, clusterIndex, minR), heap', maxR', seen + Items(indices[..], a, b))
      ensures Le(maxR', maxR)
      decreases t, 0
    {
      ghost var s := indices[..];
      PermutationOfIota(s, n);
      ItemsSplit(s, a, m, b);
      ItemsDisjoint(s, a, m, m, b);
      maxR', heap' := SearchLowerQuadrant(lower, a, m, vp, index, clusterIndex, minR, maxR, heap, seen);
      ghost var maxR1 := maxR';
      if upper != Null {
        maxR', heap' := Search(upper, m, b, index, clusterIndex, minR, maxR', heap', seen + Items(s, a, m));
        assert seen + Items(s, a, m) + Items(s, m, b) == seen + Items(s, a, b);
      }
      LeTrans(maxR', maxR1, maxR);
    }

    /** The per-item vectors as one value. */
    ghost function Lists(): Buffers
      reads this
    {
      Buffers(neighborsCount, minRadiuses, shouldFind, nearestNeighbors)
    }

    /**
     * `getNearestNeighbor(index)`: when the buffer of `index` is empty and
     * `shouldFind[index]` holds, searches the tree from `minRadiuses[index]` with
     * `maxR = +INFINITY` and moves the heap into the buffer, closest first; then
     * hands out the front of the buffer, or None for the `(SIZE_MAX, -INFINITY)`
     * sentinel. The ghost `batch` is what the search found (empty without a search).
     */
    method GetNearestNeighbor(index: nat) returns (r: Option<Neighbor>, ghost batch: seq<Neighbor>)
      requires Valid() && index < n
      modifies this, distance
      ensures Valid()
      ensures root == old(root) && ds == old(ds)
      ensures Refills(old(Lists()), index) ==>
        IsNearest(RefillQuery(distance.callback, ds, old(Lists()), index), batch, n)
      ensures (r, Lists()) == Serve(old(Lists()), n, index, batch)
    {
      batch := [];
      if shouldFind[index] && nearestNeighbors[index] == [] {
        batch := Refill(index);
      }
      if nearestNeighbors[index] != [] {
        r := Some(nearestNeighbors[index][0]);
        nearestNeighbors := nearestNeighbors[index := nearestNeighbors[index][1..]];
      } else {
        r := None;
      }
    }

    /**
     * The refill of `getNearestNeighbor(index)`: the search from `minRadiuses[index]`,
     * the heap moved into the (empty) buffer by `push_front` of its top, closest
     * first, and the updates of `neighborsCount`, `shouldFind` and `minRadiuses`.
     */
    method Refill(index: nat) returns (ghost batch: seq<Neighbor>)
      requires Valid() && index < n
      requires shouldFind[index] && nearestNeighbors[index] == []
      modifies this, distance
      ensures Valid()
      ensures root == old(root) && ds == old(ds)
      ensures IsNearest(RefillQuery(distance.callback, ds, old(Lists()), index), batch, n)
      ensures Lists() == Refilled(old(Lists()), n, index, batch)
    {
      var heap := SearchAll(index);
      batch := heap;
      var buffer := nearestNeighbors[index];
      while heap != []
        invariant heap + buffer == batch
      {
        buffer := [heap[|heap| - 1]] + buffer;
        heap := heap[..|heap| - 1];
      }
      assert buffer == batch;
      StoreBatch(index, buffer);
    }

    /**
     * The bookkeeping at the end of a refill: `buffer` becomes the buffer of `index`,
     * its size is added to `neighborsCount[index]`, `shouldFind[index]` goes off when
     * the count passes `n - index` or nothing was found, and `minRadiuses[index]`
     * moves up to the distance of the farthest neighbour found.
     */
    method StoreBatch(index: nat, buffer: seq<Neighbor>)
      requires Valid() && index < n && shouldFind[index]
      modifies this
      ensures Valid()
      ensures root == old(root) && ds == old(ds)
      ensures Lists() == Refilled(old(Lists()), n, index, buffer)
    {
      nearestNeighbors := nearestNeighbors[index := buffer];
      var newNeighborsCount := |buffer|;
      neighborsCount := neighborsCount[index := neighborsCount[index] + newNeighborsCount];
      if neighborsCount[index] > n - index || newNeighborsCount == 0 {
        shouldFind := shouldFind[index := false];
      }
      if newNeighborsCount > 0 {
        minRadiuses := minRadiuses[index := Fin(buffer[|buffer| - 1].dist)];
      }
    }

    /**
     * The search of `getNearestNeighbor(index)` over the whole tree, in the cluster of
     * `index`, from `minRadiuses[index]` with `maxR = +INFINITY`: its heap is the
     * complete answer.
     */
    method SearchAll(index: nat) returns (heap: seq<Neighbor>)
      requires Valid() && index < n
      modifies distance
      ensures Valid()
      ensures IsNearest(RefillQuery(distance.callback, ds, Lists(), index), heap, n)
    {
      var clusterIndex := FindSet(ds, index);
      ghost var qr := QueryFor(index, clusterIndex, minRadiuses[index]);
      EmptyBatch(qr);
      var tau;
      tau, heap := Search(root, 0, n, index, clusterIndex, minRadiuses[index], PosInf, [], {});
      AllItems(indices[..], n);
      assert tau == Radius(heap) by {
        if heap != [] {
          assert tau == Fin(heap[0].dist);
        }
      }
    }

    /**
     * `compute()`, on an engine fresh from the constructor: prefetches a neighbour
     * for every item, then pops the closest candidate until `n - 1` merges are made,
     * committing it when its items are in different clusters and refilling the
     * queue from the buffer of its first item; the merges are then rewritten by
     * `generateMergeMatrix`. The queue is never empty while a merge is missing, the
     * merges replay to a single cluster, and each is a single-linkage merge at a
     * height no lower than the one before.
     */
    method Compute() returns (y: seq<(int, int)>, ghost merges: seq<(nat, nat)>, ghost heights: seq<real>)
      requires Valid()
      requires Lists() == InitialBuffers(n) && ds == MakeSets(n)
      modifies this, distance
      ensures Valid() && root == old(root)
      ensures |merges| == n - 1 && |heights| == n - 1
      ensures Replay(n, merges) == Some(ds) && Count(ds) == 1
      ensures forall k :: 0 <= k < |merges| ==>
        merges[k].0 < merges[k].1 < n && heights[k] == Dist(distance.callback, merges[k].0, merges[k].1)
      ensures forall k, l :: 0 <= k < l < |heights| ==> heights[k] <= heights[l]
      ensures forall k :: 0 <= k < |merges| ==> ClosestAtStep(distance.callback, n, merges, heights, k)
      ensures y == MergeRows(merges)
    {
      var pq;
      ghost var returned;
      pq, returned := Prefetch();
      var x;
      x, merges, heights := MergeLoop(pq, returned);
      y := GenerateMergeMatrix(x);
    }

    /**
     * The main loop of `compute`: pop the closest candidate, commit it when its items
     * are in different clusters, requeue its first item, until `n - 1` merges are made.
     */
    method MergeLoop(pq0: seq<Candidate>, ghost returned0: seq<set<nat>>)
      returns (x: seq<(nat, nat)>, ghost merges: seq<(nat, nat)>, ghost heights: seq<real>)
      requires Valid() && ds == MakeSets(n)
      requires Inv(distance.callback, n, ds, Lists(), pq0, returned0, NegInf, n)
      modifies this, distance
      ensures Valid() && root == old(root)
      ensures |merges| == n - 1 && x == merges
      ensures exists floor :: History(distance.callback, n, ds, merges, heights, floor)
    {
      ghost var f := distance.callback;
      var pq := pq0;
      ghost var returned := returned0;
      var ret := new (nat, nat)[n - 1](_ => (0, 0));
      merges, heights := [], [];
      ghost var floor := NegInf;
      var i := 0;
      while i < n - 1
        invariant Valid() && root == old(root) && ret.Length == n - 1
        invariant Inv(f, n, ds, Lists(), pq, returned, floor, n)
        invariant History(f, n, ds, merges, heights, floor)
        invariant i == |merges| <= n - 1 && ret[..i] == merges
        decreases n * n - Served(returned), |pq|
      {
        ServedAtMostSquare(f, n, ds, Lists(), pq, returned, floor);
        i, pq, returned, floor, merges, heights := Round(ret, i, pq, returned, floor, merges, heights);
      }
      assert ret[..] == ret[..i];
      x := ret[..];
    }

    /**
     * One round of `compute`'s main loop: pop the closest candidate, write it as merge
     * `i` when its items are in different clusters, and requeue its first item.
     */
    method Round(ret: array<(nat, nat)>, i: nat, pq: seq<Candidate>, ghost returned: seq<set<nat>>,
                 ghost floor: ExtReal, ghost merges: seq<(nat, nat)>, ghost heights: seq<real>)
      returns (i': nat, pq': seq<Candidate>, ghost returned': seq<set<nat>>, ghost floor': ExtReal,
               ghost merges': seq<(nat, nat)>, ghost heights': seq<real>)
      requires Valid() && ret.Length == n - 1 && i < n - 1
      requires Inv(distance.callback, n, ds, Lists(), pq, returned, floor, n)
      requires History(distance.callback, n, ds, merges, heights, floor)
      requires i == |merges| && ret[..i] == merges
      modifies this, distance, ret
      ensures Valid() && root == old(root)
      ensures Inv(distance.callback, n, ds, Lists(), pq', returned', floor', n)
      ensures History(distance.callback, n, ds, merges', heights', floor')
      ensures i' == |merges'| <= n - 1 && ret[..i'] == merges'
      ensures Served(returned') == Served(returned) + 1 || (returned' == returned && |pq'| < |pq|)
    {
      i', merges', heights' := CommitFront(ret, i, pq, returned, floor, merges, heights);
      var hhi := pq[0];
      floor' := Fin(hhi.dist);
      pq', returned' := Requeue(hhi.index1, pq[1..], returned, floor');
    }

    /**
     * The merge of one round of `compute`'s main loop: the front `(a, b, d)` is popped,
     * written to the merge list and its clusters joined when `a` and `b` are apart.
     */
    method CommitFront(ret: array<(nat, nat)>, i: nat, pq: seq<Candidate>, ghost returned: seq<set<nat>>,
                       ghost floor: ExtReal, ghost merges: seq<(nat, nat)>, ghost heights: seq<real>)
      returns (i': nat, ghost merges': seq<(nat, nat)>, ghost heights': seq<real>)
      requires Valid() && ret.Length == n - 1 && i < n - 1
      requires Inv(distance.callback, n, ds, Lists(), pq, returned, floor, n)
      requires History(distance.callback, n, ds, merges, heights, floor)
      requires i == |merges| && ret[..i] == merges
      modifies this`ds, ret
      ensures pq != [] && pq[0].index1 < pq[0].index2 < n
      ensures Valid() && ds == MergeStep(old(ds), pq[0].index1, pq[0].index2)
      ensures Open(distance.callback, n, ds, Lists(), pq[1..], returned, Fin(pq[0].dist), pq[0].index1, n)
      ensures History(distance.callback, n, ds, merges', heights', Fin(pq[0].dist))
      ensures i' == |merges'| <= n - 1 && ret[..i'] == merges'
    {
      ghost var f := distance.callback;
      assert pq != [] by {
        if pq == [] {
          EmptyQueueMeansOneCluster(f, n, ds, Lists(), returned, floor);
        }
      }
      PopOpens(f, n, ds, Lists(), pq, returned, floor);
      CommitStep(f, n, ds, Lists(), pq, returned, floor, merges, heights);
      i', merges', heights' := Unite(ret, i, pq[0], pq[1..], returned, merges, heights);
    }

    /** The state change of `CommitFront`: the merge `(a, b)` is written and the two clusters linked, when they differ. */
    method Unite(ret: array<(nat, nat)>, i: nat, hhi: Candidate, ghost rest: seq<Candidate>,
                 ghost returned: seq<set<nat>>, ghost merges: seq<(nat, nat)>, ghost heights: seq<real>)
      returns (i': nat, ghost merges': seq<(nat, nat)>, ghost heights': seq<real>)
      requires Valid() && ret.Length == n - 1 && i < n - 1
      requires i == |merges| && ret[..i] == merges
      requires hhi.index1 < hhi.index2 < n
      requires Open(distance.callback, n, MergeStep(ds, hhi.index1, hhi.index2), Lists(), rest, returned,
                    Fin(hhi.dist), hhi.index1, n)
      requires FindSet(ds, hhi.index1) != FindSet(ds, hhi.index2) ==>
                 History(distance.callback, n, MergeStep(ds, hhi.index1, hhi.index2),
                         merges + [(hhi.index1, hhi.index2)], heights + [hhi.dist], Fin(hhi.dist))
      requires FindSet(ds, hhi.index1) == FindSet(ds, hhi.index2) ==>
                 History(distance.callback, n, MergeStep(ds, hhi.index1, hhi.index2), merges, heights, Fin(hhi.dist))
      modifies this`ds, ret
      ensures Valid() && ds == MergeStep(old(ds), hhi.index1, hhi.index2)
      ensures Open(distance.callback, n, ds, Lists(), rest, returned, Fin(hhi.dist), hhi.index1, n)
      ensures History(distance.callback, n, ds, merges', heights', Fin(hhi.dist))
      ensures i' == |merges'| <= n - 1 && ret[..i'] == merges'
    {
      var s1 := FindSet(ds, hhi.index1);
      var s2 := FindSet(ds, hhi.index2);
      i', merges', heights' := i, merges, heights;
      if s1 != s2 {
        ret[i] := (hhi.index1, hhi.index2);
        assert ret[..i + 1] == ret[..i] + [ret[i]];
        merges' := merges + [(hhi.index1, hhi.index2)];
        heights' := heights + [hhi.dist];
        i' := i + 1;
        ds := Link(ds, s1, s2);
      }
      assert Lists() == old(Lists());
    }

    /**
     * The tail of one round of `compute`'s main loop: `getNearestNeighbor(a)` for the
     * item `a` whose entry was just popped, its answer queued when there is one.
     */
    method Requeue(a: nat, pq: seq<Candidate>, ghost returned: seq<set<nat>>, ghost floor: ExtReal)
      returns (pq': seq<Candidate>, ghost returned': seq<set<nat>>)
      requires Valid() && Open(distance.callback, n, ds, Lists(), pq, returned, floor, a, n)
      modifies this, distance
      ensures Valid() && root == old(root) && ds == old(ds)
      ensures Inv(distance.callback, n, ds, Lists(), pq', returned', floor, n)
      ensures (returned' == returned && pq' == pq) || Served(returned') == Served(returned) + 1
    {
      ghost var st := Lists();
      var hi, batch := GetNearestNeighbor(a);
      ServeCloses(distance.callback, n, ds, st, pq, returned, floor, a, n, batch);
      pq', returned' := pq, returned;
      if hi.Some? {
        ServedAdd(returned, a, hi.value.index);
        returned' := returned[a := returned[a] + {hi.value.index}];
        pq' := PushCandidate(pq, Candidate(a, hi.value.index, hi.value.dist));
      }
    }

    /** The prefetch loop of `compute`: one `getNearestNeighbor(i)` per item, its answer queued. */
    method Prefetch() returns (pq: seq<Candidate>, ghost returned: seq<set<nat>>)
      requires Valid()
      requires Lists() == InitialBuffers(n) && ds == MakeSets(n)
      modifies this, distance
      ensures Valid() && root == old(root) && ds == old(ds)
      ensures Inv(distance.callback, n, ds, Lists(), pq, returned, NegInf, n)
    {
      ghost var f := distance.callback;
      pq := [];
      returned := NothingReturned(n);
      InitialInv(f, n);
      var i := 0;
      while i < n
        invariant i <= n && Valid() && root == old(root) && ds == old(ds)
        invariant Inv(f, n, ds, Lists(), pq, returned, NegInf, i)
      {
        PrefetchOpens(f, n, ds, Lists(), pq, returned, NegInf, i);
        ghost var st := Lists();
        var hi, batch := GetNearestNeighbor(i);
        ServeCloses(f, n, ds, st, pq, returned, NegInf, i, i + 1, batch);
        if hi.Some? {
          returned := returned[i := returned[i] + {hi.value.index}];
          pq := PushCandidate(pq, Candidate(i, hi.value.index, hi.value.dist));
        }
        i := i + 1;
      }
    }
  }
}
