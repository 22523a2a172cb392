/**
 * What one run of `getNearestNeighborsFromMinRadiusRecursive` computes.
 *
 * The search looks, for a query item, at the items with a larger index in
 * another cluster whose distance is at least `minR`; it keeps in its heap every
 * such item at the smallest such distance, and `maxR` is that distance
 * (+INFINITY while nothing has been found). `IsBatch` states this of the items
 * looked at so far; the leaf loop (`LeafStep`), the pruning of whole subtrees
 * (`PruneInner`, `PruneOuter`, `PruneByIndex`) and the linear scan over all
 * items (`LinearScan`) are proved to keep it.
 */
module NeighborSearch {
  import opened ExtReals
  import opened DistanceOracle
  import opened DisjointSets
  import opened HeapItems
  import opened Sequences

  /** `maxNearestNeighborPrefetch`: the heap size from which a closer item evicts the current ties. */
  const MaxNearestNeighborPrefetch: nat := 1

  /** The fixed arguments of one search: distance, partition, query item, its cluster and `minR`. */
  datatype Query = Query(f: Callback, ds: DisjointSets, index: nat, cluster: nat, minR: ExtReal)

  /** An item the search may report: a larger index than the query, in another cluster. */
  predicate Eligible(qr: Query, x: nat)
  {
    qr.index < x < |qr.ds.rep| && FindSet(qr.ds, x) != qr.cluster
  }

  function DistTo(qr: Query, x: nat): real
  {
    Dist(qr.f, qr.index, x)
  }

  /** The item indices held in a heap. */
  function Indices(h: seq<Neighbor>): set<nat>
  {
    set k | 0 <= k < |h| :: h[k].index
  }

  /**
   * After looking at the items `seen`: the heap holds, without repetition, every
   * eligible seen item at the least distance not below `minR`, and nothing else;
   * `maxR` is that distance, or +INFINITY when there is none.
   */
  ghost predicate IsBatch(qr: Query, h: seq<Neighbor>, maxR: ExtReal, seen: set<nat>)
  {
    && maxR != NegInf
    && (maxR == PosInf <==> h == [])
    && Le(qr.minR, maxR)
    && (forall k :: 0 <= k < |h| ==>
          && h[k].index in seen && Eligible(qr, h[k].index)
          && h[k].dist == DistTo(qr, h[k].index)
          && maxR == Fin(h[k].dist))
    && (forall k, l :: 0 <= k < l < |h| ==> h[k].index != h[l].index)
    && (forall x :: x in seen && Eligible(qr, x) && Le(qr.minR, Fin(DistTo(qr, x))) ==>
          Le(maxR, Fin(DistTo(qr, x))))
    && (forall x :: x in seen && Eligible(qr, x) && maxR == Fin(DistTo(qr, x)) ==> x in Indices(h))
  }

  /** Before anything is looked at: an empty heap and `maxR = +INFINITY`. */
  lemma EmptyBatch(qr: Query)
    ensures IsBatch(qr, [], PosInf, {})
  {
  }

  /** The inner `while`: pops the heap top while its distance equals `maxR`. */
  function PopTies(h: seq<Neighbor>, maxR: ExtReal): (p: seq<Neighbor>)
    ensures |p| <= |h| && p == h[..|p|]
    ensures p != [] ==> Fin(p[|p| - 1].dist) != maxR
    ensures forall k :: |p| <= k < |h| ==> Fin(h[k].dist) == maxR
  {
    if h != [] && Fin(h[|h| - 1].dist) == maxR then
      PopTies(h[..|h| - 1], maxR)
    else
      h
  }

  /** One turn of the leaf loop on the item `x`: the heap and `maxR` afterwards. */
  function LeafStep(qr: Query, h: seq<Neighbor>, maxR: ExtReal, x: nat): (r: (seq<Neighbor>, ExtReal))
    requires x < |qr.ds.rep|
  {
    if qr.index >= x then (h, maxR)
    else if qr.cluster == FindSet(qr.ds, x) then (h, maxR)
    else Admit(h, maxR, qr.minR, x, DistTo(qr, x))
  }

  /**
   * The end of a leaf turn, once `x` is known to be a candidate at distance `d`: it is
   * skipped outside `[minR, maxR]`; otherwise, when it is strictly closer and the heap
   * is full, the ties at `maxR` are dropped first, and then it is pushed.
   */
  function Admit(h: seq<Neighbor>, maxR: ExtReal, minR: ExtReal, x: nat, d: real): (r: (seq<Neighbor>, ExtReal))
  {
    if Lt(maxR, Fin(d)) || Lt(Fin(d), minR) then (h, maxR)
    else
      var h1 := if |h| >= MaxNearestNeighborPrefetch && Lt(Fin(d), maxR) then PopTies(h, maxR) else h;
      var h2 := PushNeighbor(h1, Neighbor(x, d));
      (h2, Fin(h2[|h2| - 1].dist))
  }

  /** An item no closer than anything in the heap is pushed behind all of it. */
  lemma {:induction false} PushBehind(h: seq<Neighbor>, e: Neighbor)
    requires forall k :: 0 <= k < |h| ==> h[k].dist <= e.dist
    ensures PushNeighbor(h, e) == h + [e]
  {
    if h != [] {
      PushBehind(h[1..], e);
      assert h == [h[0]] + h[1..];
    }
  }

  /** An item that can never enter the heap while the radius is `maxR`. */
  predicate Irrelevant(qr: Query, maxR: ExtReal, x: nat)
  {
    !Eligible(qr, x) || Lt(Fin(DistTo(qr, x)), qr.minR) || Lt(maxR, Fin(DistTo(qr, x)))
  }

  /** Items that cannot enter the heap may be counted as seen without changing it. */
  lemma AddIrrelevant(qr: Query, h: seq<Neighbor>, maxR: ExtReal, seen: set<nat>, w: set<nat>)
    requires IsBatch(qr, h, maxR, seen)
    requires forall x :: x in w ==> Irrelevant(qr, maxR, x)
    ensures IsBatch(qr, h, maxR, seen + w)
  {
    forall x | x in w && Eligible(qr, x) && Le(qr.minR, Fin(DistTo(qr, x)))
      ensures Le(maxR, Fin(DistTo(qr, x))) && maxR != Fin(DistTo(qr, x))
    {
      assert Irrelevant(qr, maxR, x);
    }
  }

  /** An item strictly closer than the current ties replaces them all. */
  lemma CloserItem(qr: Query, h: seq<Neighbor>, maxR: ExtReal, seen: set<nat>, x: nat)
    requires IsBatch(qr, h, maxR, seen)
    requires x !in seen && Eligible(qr, x)
    requires Le(qr.minR, Fin(DistTo(qr, x))) && Lt(Fin(DistTo(qr, x)), maxR)
    ensures IsBatch(qr, [Neighbor(x, DistTo(qr, x))], Fin(DistTo(qr, x)), seen + {x})
  {
    var m := Fin(DistTo(qr, x));
    var h' := [Neighbor(x, DistTo(qr, x))];
    forall y | y in seen && Eligible(qr, y) && Le(qr.minR, Fin(DistTo(qr, y)))
      ensures Le(m, Fin(DistTo(qr, y))) && m != Fin(DistTo(qr, y))
    {
      LeTrans(m, maxR, Fin(DistTo(qr, y)));
    }
    assert h'[0].index == x;
  }

  /** An item exactly as close as the current ties joins them. */
  lemma TiedItem(qr: Query, h: seq<Neighbor>, maxR: ExtReal, seen: set<nat>, x: nat)
    requires IsBatch(qr, h, maxR, seen)
    requires x !in seen && Eligible(qr, x)
    requires maxR == Fin(DistTo(qr, x))
    ensures IsBatch(qr, h + [Neighbor(x, DistTo(qr, x))], maxR, seen + {x})
  {
    var h' := h + [Neighbor(x, DistTo(qr, x))];
    assert Indices(h') == Indices(h) + {x} by {
      forall y | y in Indices(h')
        ensures y in Indices(h) + {x}
      {
        var k :| 0 <= k < |h'| && h'[k].index == y;
        if k < |h| {
          assert h[k].index == y;
        }
      }
      forall y | y in Indices(h) + {x}
        ensures y in Indices(h')
      {
        if y == x {
          assert h'[|h|].index == x;
        } else {
          var k :| 0 <= k < |h| && h[k].index == y;
          assert h'[k].index == y;
        }
      }
    }
  }

  /** The leaf step on an item nearer than `maxR`: the ties are all popped and the item alone remains. */
  lemma CloserStep(qr: Query, h: seq<Neighbor>, maxR: ExtReal, seen: set<nat>, x: nat)
    requires IsBatch(qr, h, maxR, seen) && Eligible(qr, x)
    requires Le(qr.minR, Fin(DistTo(qr, x))) && Lt(Fin(DistTo(qr, x)), maxR)
    ensures LeafStep(qr, h, maxR, x) == ([Neighbor(x, DistTo(qr, x))], Fin(DistTo(qr, x)))
  {
    LeTotal(qr.minR, Fin(DistTo(qr, x)));
    LeTotal(maxR, Fin(DistTo(qr, x)));
    var h1 := if |h| >= MaxNearestNeighborPrefetch then PopTies(h, maxR) else h;
    assert h1 == [];
    PushBehind(h1, Neighbor(x, DistTo(qr, x)));
    assert PushNeighbor(h1, Neighbor(x, DistTo(qr, x))) == [Neighbor(x, DistTo(qr, x))];
  }

  /** The leaf step on an item at distance `maxR`: it joins the ties at the top. */
  lemma TiedStep(qr: Query, h: seq<Neighbor>, maxR: ExtReal, seen: set<nat>, x: nat)
    requires IsBatch(qr, h, maxR, seen) && Eligible(qr, x)
    requires maxR == Fin(DistTo(qr, x))
    ensures LeafStep(qr, h, maxR, x) == (h + [Neighbor(x, DistTo(qr, x))], maxR)
  {
    PushBehind(h, Neighbor(x, DistTo(qr, x)));
  }

  /** Looking at one more item keeps the heap the batch of the items seen, and never raises `maxR`. */
  lemma LeafStepKeepsBatch(qr: Query, h: seq<Neighbor>, maxR: ExtReal, seen: set<nat>, x: nat)
    requires x < |qr.ds.rep| && x !in seen
    requires IsBatch(qr, h, maxR, seen)
    ensures IsBatch(qr, LeafStep(qr, h, maxR, x).0, LeafStep(qr, h, maxR, x).1, seen + {x})
    ensures Le(LeafStep(qr, h, maxR, x).1, maxR)
  {
    var d := DistTo(qr, x);
    if Irrelevant(qr, maxR, x) {
      assert LeafStep(qr, h, maxR, x) == (h, maxR);
      AddIrrelevant(qr, h, maxR, seen, {x});
    } else {
      LeTotal(qr.minR, Fin(d));
      LeTotal(maxR, Fin(d));
      if Lt(Fin(d), maxR) {
        CloserStep(qr, h, maxR, seen, x);
        CloserItem(qr, h, maxR, seen, x);
      } else {
        TiedStep(qr, h, maxR, seen, x);
        TiedItem(qr, h, maxR, seen, x);
      }
    }
  }

  /** The leaf loop run over the items `xs` in order. */
  function Scan(qr: Query, h: seq<Neighbor>, maxR: ExtReal, xs: seq<nat>): (r: (seq<Neighbor>, ExtReal))
    requires forall k :: 0 <= k < |xs| ==> xs[k] < |qr.ds.rep|
  {
    if xs == [] then (h, maxR)
    else
      var r1 := Scan(qr, h, maxR, xs[..|xs| - 1]);
      LeafStep(qr, r1.0, r1.1, xs[|xs| - 1])
  }

  /** The leaf loop over `xs + [x]`: the loop over `xs`, then one turn on `x`. */
  lemma ScanSnoc(qr: Query, h: seq<Neighbor>, maxR: ExtReal, xs: seq<nat>, x: nat)
    requires forall k :: 0 <= k < |xs| ==> xs[k] < |qr.ds.rep|
    requires x < |qr.ds.rep|
    ensures var r1 := Scan(qr, h, maxR, xs);
      Scan(qr, h, maxR, xs + [x]) == LeafStep(qr, r1.0, r1.1, x)
  {
    assert (xs + [x])[..|xs|] == xs;
  }

  /** The items of a non-empty sequence: those of its prefix `p` before the last entry `x`, and `x`. */
  lemma SnocItems(xs: seq<nat>, p: seq<nat>, x: nat)
    requires Distinct(xs) && xs == p + [x]
    ensures (set y | y in xs) == (set y | y in p) + {x}
    ensures x !in (set y | y in p)
  {
    assert x == xs[|xs| - 1];
    forall k | 0 <= k < |p|
      ensures p[k] != x
    {
      assert p[k] == xs[k];
    }
  }

  /** Scanning items not seen before extends the batch to them and never raises `maxR`. */
  lemma {:induction false} ScanKeepsBatch(qr: Query, h: seq<Neighbor>, maxR: ExtReal, seen: set<nat>, xs: seq<nat>)
    requires forall k :: 0 <= k < |xs| ==> xs[k] < |qr.ds.rep| && xs[k] !in seen
    requires Distinct(xs)
    requires IsBatch(qr, h, maxR, seen)
    ensures IsBatch(qr, Scan(qr, h, maxR, xs).0, Scan(qr, h, maxR, xs).1, seen + (set x | x in xs))
    ensures Le(Scan(qr, h, maxR, xs).1, maxR)
  {
    if xs != [] {
      var xs' := xs[..|xs| - 1];
      var x := xs[|xs| - 1];
      assert xs == xs' + [x];
      assert Distinct(xs');
      ScanKeepsBatch(qr, h, maxR, seen, xs');
      ScanStepKeepsBatch(qr, h, maxR, seen, xs', x);
    }
  }

  /** The inductive step of `ScanKeepsBatch`: one more item, not seen before, keeps the batch. */
  lemma ScanStepKeepsBatch(qr: Query, h: seq<Neighbor>, maxR: ExtReal, seen: set<nat>, xs: seq<nat>, x: nat)
    requires forall k :: 0 <= k < |xs| ==> xs[k] < |qr.ds.rep|
    requires x < |qr.ds.rep| && x !in seen && Distinct(xs + [x])
    requires IsBatch(qr, Scan(qr, h, maxR, xs).0, Scan(qr, h, maxR, xs).1, seen + (set y | y in xs))
    requires Le(Scan(qr, h, maxR, xs).1, maxR)
    ensures IsBatch(qr, Scan(qr, h, maxR, xs + [x]).0, Scan(qr, h, maxR, xs + [x]).1, seen + (set y | y in xs + [x]))
    ensures Le(Scan(qr, h, maxR, xs + [x]).1, maxR)
  {
    var r1 := Scan(qr, h, maxR, xs);
    ScanSnoc(qr, h, maxR, xs, x);
    SnocItems(xs + [x], xs, x);
    var seen' := seen + (set y | y in xs);
    LeafStepKeepsBatch(qr, r1.0, r1.1, seen', x);
    assert seen + (set y | y in xs + [x]) == seen' + {x};
    LeTrans(LeafStep(qr, r1.0, r1.1, x).1, r1.1, maxR);
  }

  /** The radius a heap of ties stands for: its distance, or +INFINITY when it is empty. */
  function Radius(h: seq<Neighbor>): ExtReal
  {
    if h == [] then PosInf else Fin(h[0].dist)
  }

  /** The items `0..n-1`. */
  function Below(n: nat): set<nat>
  {
    set x | x in Iota(n)
  }

  /** `h` is the complete answer of a search over all `n` items. */
  ghost predicate IsNearest(qr: Query, h: seq<Neighbor>, n: nat)
  {
    IsBatch(qr, h, Radius(h), Below(n))
  }

  /** The reference answer: the leaf loop run once over every item, in index order, without a tree. */
  function LinearScan(qr: Query, n: nat): (r: (seq<Neighbor>, ExtReal))
    requires n <= |qr.ds.rep|
  {
    Scan(qr, [], PosInf, Iota(n))
  }

  /** The linear scan finds the complete answer. */
  lemma LinearScanIsNearest(qr: Query, n: nat)
    requires n <= |qr.ds.rep|
    ensures IsNearest(qr, LinearScan(qr, n).0, n)
    ensures LinearScan(qr, n).1 == Radius(LinearScan(qr, n).0)
  {
    EmptyBatch(qr);
    ScanKeepsBatch(qr, [], PosInf, {}, Iota(n));
    assert {} + Below(n) == Below(n);
  }

  /** The batch of a set of items is unique up to the order of the ties. */
  lemma BatchUnique(qr: Query, h1: seq<Neighbor>, m1: ExtReal, h2: seq<Neighbor>, m2: ExtReal, seen: set<nat>)
    requires IsBatch(qr, h1, m1, seen) && IsBatch(qr, h2, m2, seen)
    ensures m1 == m2
    ensures Indices(h1) == Indices(h2)
  {
    if h1 != [] {
      assert Le(m2, Fin(DistTo(qr, h1[0].index)));
    }
    if h2 != [] {
      assert Le(m1, Fin(DistTo(qr, h2[0].index)));
    }
    LeTotal(m1, m2);
    forall x | x in Indices(h1)
      ensures x in Indices(h2)
    {
      var k :| 0 <= k < |h1| && h1[k].index == x;
    }
    forall x | x in Indices(h2)
      ensures x in Indices(h1)
    {
      var k :| 0 <= k < |h2| && h2[k].index == x;
    }
  }

  /** A complete answer finds the same items, at the same radius, as the linear scan. */
  lemma NearestAgreesWithLinearScan(qr: Query, h: seq<Neighbor>, n: nat)
    requires n <= |qr.ds.rep|
    requires IsNearest(qr, h, n)
    ensures Indices(h) == Indices(LinearScan(qr, n).0)
    ensures Radius(h) == LinearScan(qr, n).1
  {
    LinearScanIsNearest(qr, n);
    BatchUnique(qr, h, Radius(h), LinearScan(qr, n).0, LinearScan(qr, n).1, Below(n));
  }

  /**
   * The inner test of an inner node: when `dist - maxR <= radius && dist + radius >= minR`
   * fails, no item within `radius` of the vantage item can enter the heap.
   */
  lemma PruneInner(qr: Query, h: seq<Neighbor>, maxR: ExtReal, seen: set<nat>, w: set<nat>,
                   vp: nat, radius: real, dist: real)
    requires IsMetric(qr.f)
    requires IsBatch(qr, h, maxR, seen)
    requires dist == Dist(qr.f, vp, qr.index)
    requires forall x :: x in w ==> Dist(qr.f, vp, x) <= radius
    requires !(MinusLe(dist, maxR, radius) && Le(qr.minR, Fin(dist + radius)))
    ensures IsBatch(qr, h, maxR, seen + w)
  {
    forall x | x in w
      ensures Irrelevant(qr, maxR, x)
    {
      DistSymmetric(qr.f, x, qr.index);
      DistSymmetric(qr.f, vp, qr.index);
      if !MinusLe(dist, maxR, radius) {
        TriangleAt(qr.f, vp, x, qr.index);
      } else {
        TriangleAt(qr.f, qr.index, vp, x);
      }
    }
    AddIrrelevant(qr, h, maxR, seen, w);
  }

  /**
   * The outer test of an inner node: when `dist + maxR >= radius` fails, no item
   * at `radius` or beyond from the vantage item can enter the heap.
   */
  lemma PruneOuter(qr: Query, h: seq<Neighbor>, maxR: ExtReal, seen: set<nat>, w: set<nat>,
                   vp: nat, radius: real, dist: real)
    requires IsMetric(qr.f)
    requires IsBatch(qr, h, maxR, seen)
    requires dist == Dist(qr.f, vp, qr.index)
    requires forall x :: x in w ==> Dist(qr.f, vp, x) >= radius
    requires !PlusGe(dist, maxR, radius)
    ensures IsBatch(qr, h, maxR, seen + w)
  {
    forall x | x in w
      ensures Irrelevant(qr, maxR, x)
    {
      TriangleAt(qr.f, vp, qr.index, x);
    }
    AddIrrelevant(qr, h, maxR, seen, w);
  }

  /** The index filter `index <= vpindex`: a query above the vantage item has nothing to find among items not above it. */
  lemma PruneByIndex(qr: Query, h: seq<Neighbor>, maxR: ExtReal, seen: set<nat>, w: set<nat>, vp: nat)
    requires IsBatch(qr, h, maxR, seen)
    requires qr.index > vp
    requires forall x :: x in w ==> x <= vp
    ensures IsBatch(qr, h, maxR, seen + w)
  {
    AddIrrelevant(qr, h, maxR, seen, w);
  }
}
