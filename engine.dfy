/**
 * The lazy neighbour buffers of `HClustSingleBiVpTree` and the main loop of
 * `compute`, stated on values.
 *
 * Every item `a` owns a buffer of neighbours (`nearestNeighbors[a]`), refilled
 * by a tree search for the items at the next distance level not below
 * `minRadiuses[a]` whenever it runs dry while `shouldFind[a]` holds. The merge
 * queue holds at most one candidate per item: the neighbour its buffer handed
 * out last. `Inv` is the invariant of the loop of `compute`; the lemmas below
 * prove that popping, merging and refilling keep it, that the queue is never
 * empty while two clusters remain, and that each popped candidate is a closest
 * pair of items in different clusters, which makes every merge a single-linkage
 * merge.
 */
module MergeEngine {
  import opened Wrappers
  import opened Sequences
  import opened ExtReals
  import opened DistanceOracle
  import opened DisjointSets
  import opened HeapItems
  import opened NeighborSearch

  /** The per-item vectors `neighborsCount`, `minRadiuses`, `shouldFind` and `nearestNeighbors`. */
  datatype Buffers = Buffers(counts: seq<nat>, minR: seq<ExtReal>, shouldFind: seq<bool>, lists: seq<seq<Neighbor>>)

  predicate Sized(st: Buffers, n: nat)
  {
    |st.counts| == n && |st.minR| == n && |st.shouldFind| == n && |st.lists| == n
  }

  /** The vectors as the constructor leaves them. */
  function InitialBuffers(n: nat): (st: Buffers)
    ensures Sized(st, n)
  {
    Buffers(seq(n, _ => 0), seq(n, _ => NegInf), seq(n, _ => true), seq(n, _ => []))
  }

  /** `getNearestNeighbor(a)` searches the tree exactly when this holds. */
  predicate Refills(st: Buffers, a: nat)
    requires a < |st.shouldFind| && a < |st.lists|
  {
    st.shouldFind[a] && st.lists[a] == []
  }

  /** The search `getNearestNeighbor(a)` runs: its distance, partition, cluster and `minR`. */
  function RefillQuery(f: Callback, ds: DisjointSets, st: Buffers, a: nat): Query
    requires a < |ds.rep| && a < |st.minR|
  {
    Query(f, ds, a, FindSet(ds, a), st.minR[a])
  }

  /**
   * `getNearestNeighbor(a)` when the search, if one is run, finds `batch`: a refill
   * stores the batch, counts it, records its distance as the new `minR` and stops
   * further searches once it is empty or the count passes `n - a`; then the front
   * of the buffer is handed out, or None (the `(SIZE_MAX, -INFINITY)` sentinel)
   * when the buffer is empty.
   */
  function Serve(st: Buffers, n: nat, a: nat, batch: seq<Neighbor>): (r: (Option<Neighbor>, Buffers))
    requires Sized(st, n) && a < n
    ensures Sized(r.1, n)
  {
    var st1 := if Refills(st, a) then Refilled(st, n, a, batch) else st;
    if st1.lists[a] != [] then
      (Some(st1.lists[a][0]), st1.(lists := st1.lists[a := st1.lists[a][1..]]))
    else
      (None, st1)
  }

  /** The vectors after a refill of `a` with `batch`. */
  function Refilled(st: Buffers, n: nat, a: nat, batch: seq<Neighbor>): (st': Buffers)
    requires Sized(st, n) && a < n
    ensures Sized(st', n)
  {
    var count := st.counts[a] + |batch|;
    st.(counts := st.counts[a := count],
        shouldFind := st.shouldFind[a := !(count > n - a || |batch| == 0)],
        minR := if |batch| > 0 then st.minR[a := Fin(batch[|batch| - 1].dist)] else st.minR,
        lists := st.lists[a := batch])
  }

  /** `a` has a candidate in the merge queue. */
  predicate HasEntry(pq: seq<Candidate>, a: nat)
  {
    exists c :: c in pq && c.index1 == a
  }

  /** The candidate `(a, x)` waits in the merge queue. */
  predicate Pending(pq: seq<Candidate>, a: nat, x: nat)
  {
    exists c :: c in pq && c.index1 == a && c.index2 == x
  }

  /** The merge queue holds no candidate twice and at most one per item. */
  predicate OnePerItem(pq: seq<Candidate>)
  {
    && (forall c :: c in pq ==> multiset(pq)[c] == 1)
    && (forall c, d :: c in pq && d in pq && c.index1 == d.index1 ==> c == d)
  }

  /**
   * A queued candidate `(a, b, d)`: `a < b`, `d` is their distance and the level
   * `a` is at, `b` was handed out by `a`'s buffer, and `d` is not below `floor`,
   * the distance of the last candidate popped.
   */
  ghost predicate EntryOk(f: Callback, n: nat, st: Buffers, returned: seq<set<nat>>, floor: ExtReal, c: Candidate)
    requires Sized(st, n) && |returned| == n
  {
    && c.index1 < c.index2 < n
    && c.dist == Dist(f, c.index1, c.index2)
    && st.minR[c.index1] == Fin(c.dist)
    && c.index2 in returned[c.index1]
    && Le(floor, Fin(c.dist))
  }

  /**
   * The buffer of `a`: `neighborsCount[a]` counts what it handed out (`returned[a]`)
   * and what it still holds; both are items above `a`, held once each, at `a`'s
   * current level; once `shouldFind[a]` is off the buffer is empty and every item
   * above `a` is in `a`'s cluster.
   */
  ghost predicate BufferOk(f: Callback, n: nat, ds: DisjointSets, st: Buffers, returned: seq<set<nat>>, a: nat)
    requires Sized(st, n) && |returned| == n && |ds.rep| == n && a < n
  {
    var l := st.lists[a];
    && st.counts[a] == |returned[a]| + |l|
    && (forall x :: x in returned[a] ==> a < x < n)
    && (forall j :: 0 <= j < |l| ==>
          && a < l[j].index < n
          && l[j].dist == Dist(f, a, l[j].index)
          && st.minR[a] == Fin(l[j].dist)
          && l[j].index !in returned[a])
    && (forall j, k :: 0 <= j < k < |l| ==> l[j].index != l[k].index)
    && (!st.shouldFind[a] ==> l == [] && forall y :: a < y < n ==> Same(ds, a, y))
  }

  /**
   * What holds throughout `compute`: the queue is sorted and its candidates and the
   * buffers are as above, and no item above `a` in another cluster is nearer to `a`
   * than `minRadiuses[a]`.
   */
  ghost predicate Core(f: Callback, n: nat, ds: DisjointSets, st: Buffers, pq: seq<Candidate>,
                       returned: seq<set<nat>>, floor: ExtReal)
  {
    && n >= 1 && WellFormed(ds) && |ds.rep| == n && Sized(st, n) && |returned| == n
    && (forall a :: 0 <= a < n ==> st.minR[a] != PosInf)
    && CandidatesSorted(pq)
    && OnePerItem(pq)
    && (forall c :: c in pq ==> EntryOk(f, n, st, returned, floor, c))
    && (forall a :: 0 <= a < n ==> BufferOk(f, n, ds, st, returned, a))
    && (forall a, y :: 0 <= a < y < n && !Same(ds, a, y) ==> Le(st.minR[a], Fin(Dist(f, a, y))))
  }

  /** An item whose first `getNearestNeighbor` call is still to come. */
  predicate Fresh(st: Buffers, pq: seq<Candidate>, a: nat)
    requires a < |st.shouldFind| && a < |st.lists|
  {
    st.shouldFind[a] && st.lists[a] == [] && !HasEntry(pq, a)
  }

  /**
   * The loop invariant, with the items below `done` prefetched: each item handed out
   * is in its owner's cluster or still queued, and every prefetched item that may
   * still find neighbours has its candidate in the queue.
   */
  ghost predicate Inv(f: Callback, n: nat, ds: DisjointSets, st: Buffers, pq: seq<Candidate>,
                      returned: seq<set<nat>>, floor: ExtReal, done: nat)
  {
    && Core(f, n, ds, st, pq, returned, floor)
    && done <= n
    && (forall a, x :: 0 <= a < n && x in returned[a] && x < n ==> Same(ds, a, x) || Pending(pq, a, x))
    && (forall a :: 0 <= a < done && st.shouldFind[a] ==> HasEntry(pq, a))
    && (forall a :: done <= a < n ==> Fresh(st, pq, a))
  }

  /**
   * The state in which `getNearestNeighbor(a)` is called: as `Inv`, except that `a`
   * has no candidate queued and everything it handed out is already in its cluster.
   */
  ghost predicate Open(f: Callback, n: nat, ds: DisjointSets, st: Buffers, pq: seq<Candidate>,
                       returned: seq<set<nat>>, floor: ExtReal, a: nat, done: nat)
  {
    && Core(f, n, ds, st, pq, returned, floor)
    && a < done <= n
    && (forall a', x :: 0 <= a' < n && a' != a && x in returned[a'] && x < n ==> Same(ds, a', x) || Pending(pq, a', x))
    && (forall x :: x in returned[a] && x < n ==> Same(ds, a, x))
    && (forall a' :: 0 <= a' < done && a' != a && st.shouldFind[a'] ==> HasEntry(pq, a'))
    && (forall a' :: done <= a' < n ==> Fresh(st, pq, a'))
    && !HasEntry(pq, a)
    && Le(floor, st.minR[a])
  }

  /** The number of neighbours handed out so far, over all items. */
  function Served(returned: seq<set<nat>>): nat
  {
    if returned == [] then 0 else Served(returned[..|returned| - 1]) + |returned[|returned| - 1]|
  }

  /** Handing out one more neighbour adds one to the total. */
  lemma {:induction false} ServedAdd(returned: seq<set<nat>>, a: nat, x: nat)
    requires a < |returned| && x !in returned[a]
    ensures Served(returned[a := returned[a] + {x}]) == Served(returned) + 1
  {
    var r' := returned[a := returned[a] + {x}];
    var m := |returned| - 1;
    assert r'[..m] == if a < m then returned[..m][a := returned[a] + {x}] else returned[..m];
    if a < m {
      ServedAdd(returned[..m], a, x);
    }
  }

  /** The total is at most `n` per item. */
  lemma {:induction false} ServedBound(returned: seq<set<nat>>, n: nat)
    requires forall a :: 0 <= a < |returned| ==> |returned[a]| <= n
    ensures Served(returned) <= |returned| * n
  {
    if returned != [] {
      ServedBound(returned[..|returned| - 1], n);
    }
  }

  /** While the invariant holds, at most `n * n` neighbours have been handed out. */
  lemma ServedAtMostSquare(f: Callback, n: nat, ds: DisjointSets, st: Buffers, pq: seq<Candidate>,
                           returned: seq<set<nat>>, floor: ExtReal)
    requires Core(f, n, ds, st, pq, returned, floor)
    ensures Served(returned) <= n * n
  {
    forall a | 0 <= a < n
      ensures |returned[a]| <= n
    {
      assert BufferOk(f, n, ds, st, returned, a);
      AboveCard(returned[a], a, n);
    }
    ServedBound(returned, n);
  }

  /** Membership in a queue after `push`. */
  lemma PushMembers(q: seq<Candidate>, c: Candidate)
    ensures forall x :: x in PushCandidate(q, c) <==> x in q || x == c
    ensures multiset(PushCandidate(q, c))[c] == multiset(q)[c] + 1
    ensures forall x :: x != c ==> multiset(PushCandidate(q, c))[x] == multiset(q)[x]
  {
    var r := PushCandidate(q, c);
    forall x
      ensures x in r <==> x in q || x == c
    {
      assert x in r <==> x in multiset(r);
      assert x in q <==> x in multiset(q);
    }
  }

  /** Membership in a queue after `pop`. */
  lemma PopMembers(q: seq<Candidate>)
    requires q != []
    ensures forall x :: x in q[1..] <==> x in q && multiset(q)[x] > (if x == q[0] then 1 else 0)
    ensures forall x :: multiset(q[1..])[x] == multiset(q)[x] - (if x == q[0] then 1 else 0)
  {
    assert q == [q[0]] + q[1..];
    forall x
      ensures x in q[1..] <==> x in q && multiset(q)[x] > (if x == q[0] then 1 else 0)
    {
      assert x in q[1..] <==> x in multiset(q[1..]);
    }
  }

  /** No item has handed out anything yet. */
  function NothingReturned(n: nat): (r: seq<set<nat>>)
    ensures |r| == n && forall a :: 0 <= a < n ==> r[a] == {}
  {
    if n == 0 then [] else NothingReturned(n - 1) + [{}]
  }

  /** The state after the constructor, before the prefetch loop. */
  lemma InitialInv(f: Callback, n: nat)
    requires n >= 1
    ensures Inv(f, n, MakeSets(n), InitialBuffers(n), [], NothingReturned(n), NegInf, 0)
  {
    var ds := MakeSets(n);
    var st := InitialBuffers(n);
    var returned := NothingReturned(n);
    forall a | 0 <= a < n
      ensures BufferOk(f, n, ds, st, returned, a)
    {
      assert returned[a] == {};
    }
  }

  /** A queued candidate gives its item an entry and its pair a pending state. */
  lemma EntryFacts(pq: seq<Candidate>)
    ensures forall d :: d in pq ==> HasEntry(pq, d.index1) && Pending(pq, d.index1, d.index2)
    ensures forall a, x :: Pending(pq, a, x) ==> HasEntry(pq, a)
  {
    forall a, x | Pending(pq, a, x)
      ensures HasEntry(pq, a)
    {
      var c :| c in pq && c.index1 == a && c.index2 == x;
    }
  }

  /** Entries and pending pairs after `push`. */
  lemma PushEntries(pq: seq<Candidate>, c: Candidate)
    ensures forall a :: HasEntry(PushCandidate(pq, c), a) <==> HasEntry(pq, a) || c.index1 == a
    ensures forall a, x :: Pending(PushCandidate(pq, c), a, x) <==>
      Pending(pq, a, x) || (c.index1 == a && c.index2 == x)
  {
    var r := PushCandidate(pq, c);
    PushMembers(pq, c);
    EntryFacts(r);
    EntryFacts(pq);
    forall a | HasEntry(r, a)
      ensures HasEntry(pq, a) || c.index1 == a
    {
      var d :| d in r && d.index1 == a;
    }
    forall a, x | Pending(r, a, x)
      ensures Pending(pq, a, x) || (c.index1 == a && c.index2 == x)
    {
      var d :| d in r && d.index1 == a && d.index2 == x;
    }
  }

  /** Entries and pending pairs after `pop`: those of every candidate but the front. */
  lemma PopEntries(pq: seq<Candidate>)
    requires pq != [] && OnePerItem(pq)
    ensures OnePerItem(pq[1..])
    ensures forall d :: d in pq[1..] <==> d in pq && d != pq[0]
    ensures forall a :: HasEntry(pq[1..], a) <==> HasEntry(pq, a) && a != pq[0].index1
    ensures forall a, x :: Pending(pq[1..], a, x) <==> Pending(pq, a, x) && a != pq[0].index1
  {
    var r := pq[1..];
    PopMembers(pq);
    EntryFacts(r);
    EntryFacts(pq);
    forall a | HasEntry(pq, a) && a != pq[0].index1
      ensures HasEntry(r, a)
    {
      var d :| d in pq && d.index1 == a;
    }
    forall a, x | Pending(pq, a, x) && a != pq[0].index1
      ensures Pending(r, a, x)
    {
      var d :| d in pq && d.index1 == a && d.index2 == x;
    }
    forall a | HasEntry(r, a)
      ensures a != pq[0].index1
    {
      var d :| d in r && d.index1 == a;
    }
    forall a, x | Pending(r, a, x)
      ensures Pending(pq, a, x)
    {
      var d :| d in r && d.index1 == a && d.index2 == x;
    }
  }

  /** The prefetch loop reaches item `i`: it is fresh, so calling `getNearestNeighbor(i)` is safe. */
  lemma PrefetchOpens(f: Callback, n: nat, ds: DisjointSets, st: Buffers, pq: seq<Candidate>,
                      returned: seq<set<nat>>, floor: ExtReal, i: nat)
    requires Inv(f, n, ds, st, pq, returned, floor, i) && i < n && floor == NegInf
    ensures Open(f, n, ds, st, pq, returned, floor, i, i + 1)
  {
    assert Fresh(st, pq, i);
    EntryFacts(pq);
  }

  /** The partition after committing the candidate `(a, b)`: `link` when they are in different clusters. */
  function MergeStep(ds: DisjointSets, a: nat, b: nat): (r: DisjointSets)
    requires WellFormed(ds) && a < |ds.rep| && b < |ds.rep|
    ensures WellFormed(r) && |r.rep| == |ds.rep|
    ensures Same(r, a, b)
    ensures forall x, y :: 0 <= x < |ds.rep| && 0 <= y < |ds.rep| && Same(ds, x, y) ==> Same(r, x, y)
  {
    var s1 := FindSet(ds, a);
    var s2 := FindSet(ds, b);
    if s1 != s2 then
      Link(ds, s1, s2)
    else
      ds
  }

  /** After a pop every remaining candidate is still a valid entry, at the popped distance as floor. */
  lemma EntriesAfterPop(f: Callback, n: nat, st: Buffers, returned: seq<set<nat>>, floor: ExtReal,
                        pq: seq<Candidate>)
    requires Sized(st, n) && |returned| == n && pq != [] && CandidatesSorted(pq)
    requires forall c :: c in pq ==> EntryOk(f, n, st, returned, floor, c)
    ensures CandidatesSorted(pq[1..])
    ensures forall d :: d in pq[1..] ==> EntryOk(f, n, st, returned, Fin(pq[0].dist), d)
  {
    var pq' := pq[1..];
    forall d | d in pq'
      ensures EntryOk(f, n, st, returned, Fin(pq[0].dist), d)
    {
      var k :| 0 <= k < |pq'| && pq'[k] == d;
      assert pq[k + 1] == d;
      assert EntryOk(f, n, st, returned, floor, d);
    }
  }

  /** Buffers stay as `BufferOk` says when the partition only coarsens. */
  lemma BuffersCoarsen(f: Callback, n: nat, ds: DisjointSets, ds': DisjointSets, st: Buffers,
                       returned: seq<set<nat>>)
    requires Sized(st, n) && |returned| == n && |ds.rep| == n && |ds'.rep| == n
    requires WellFormed(ds) && WellFormed(ds')
    requires forall x, y :: 0 <= x < n && 0 <= y < n && Same(ds, x, y) ==> Same(ds', x, y)
    requires forall a :: 0 <= a < n ==> BufferOk(f, n, ds, st, returned, a)
    ensures forall a :: 0 <= a < n ==> BufferOk(f, n, ds', st, returned, a)
  {
    forall a | 0 <= a < n
      ensures BufferOk(f, n, ds', st, returned, a)
    {
      assert BufferOk(f, n, ds, st, returned, a);
    }
  }

  /** Popping the front and committing it keeps the queue and the buffers as `Core` says, at the new floor. */
  lemma PopKeepsCore(f: Callback, n: nat, ds: DisjointSets, st: Buffers, pq: seq<Candidate>,
                     returned: seq<set<nat>>, floor: ExtReal)
    requires Core(f, n, ds, st, pq, returned, floor) && pq != []
    ensures pq[0].index1 < pq[0].index2 < n
    ensures Le(floor, Fin(pq[0].dist))
    ensures Core(f, n, MergeStep(ds, pq[0].index1, pq[0].index2), st, pq[1..], returned, Fin(pq[0].dist))
  {
    var c := pq[0];
    assert EntryOk(f, n, st, returned, floor, c);
    var ds' := MergeStep(ds, c.index1, c.index2);
    PopEntries(pq);
    EntriesAfterPop(f, n, st, returned, floor, pq);
    BuffersCoarsen(f, n, ds, ds', st, returned);
  }

  /**
   * Popping the closest candidate `(a, b)` and committing it leaves `a` open: its
   * candidate is gone and `b` is now in its cluster.
   */
  lemma PopOpens(f: Callback, n: nat, ds: DisjointSets, st: Buffers, pq: seq<Candidate>,
                 returned: seq<set<nat>>, floor: ExtReal)
    requires Inv(f, n, ds, st, pq, returned, floor, n) && pq != []
    ensures pq[0].index1 < pq[0].index2 < n
    ensures Le(floor, Fin(pq[0].dist))
    ensures Open(f, n, MergeStep(ds, pq[0].index1, pq[0].index2), st, pq[1..], returned,
                 Fin(pq[0].dist), pq[0].index1, n)
  {
    var c := pq[0];
    var a, b := c.index1, c.index2;
    PopKeepsCore(f, n, ds, st, pq, returned, floor);
    var ds' := MergeStep(ds, a, b);
    PopEntries(pq);
    assert st.minR[a] == Fin(c.dist) by {
      assert EntryOk(f, n, st, returned, floor, c);
    }
    forall x | x in returned[a] && x < n
      ensures Same(ds', a, x)
    {
      if !Same(ds, a, x) {
        var d :| d in pq && d.index1 == a && d.index2 == x;
        assert d == c;
      }
    }
  }

  /**
   * `getNearestNeighbor(a)` on an open item closes it again: when it hands out a
   * neighbour `(x, d)`, the candidate `(a, x, d)` is pushed and `x` joins
   * `returned[a]`; when it hands out nothing, `a` never will again. A refill may
   * only use a batch that is the complete answer of its search.
   */
  lemma ServeCloses(f: Callback, n: nat, ds: DisjointSets, st: Buffers, pq: seq<Candidate>,
                    returned: seq<set<nat>>, floor: ExtReal, a: nat, done: nat, batch: seq<Neighbor>)
    requires Open(f, n, ds, st, pq, returned, floor, a, done)
    requires Refills(st, a) ==> IsNearest(RefillQuery(f, ds, st, a), batch, n)
    ensures var (r, st') := Serve(st, n, a, batch);
      && (r.Some? ==> r.value.index !in returned[a])
      && var returned' := if r.Some? then returned[a := returned[a] + {r.value.index}] else returned;
      && var pq' := if r.Some? then PushCandidate(pq, Candidate(a, r.value.index, r.value.dist)) else pq;
      Inv(f, n, ds, st', pq', returned', floor, done)
  {
    if Refills(st, a) {
      RefillCloses(f, n, ds, st, pq, returned, floor, a, done, batch);
    } else {
      BufferedCloses(f, n, ds, st, pq, returned, floor, a, done, batch);
    }
  }

  /** The refill case of `ServeCloses`. */
  lemma RefillCloses(f: Callback, n: nat, ds: DisjointSets, st: Buffers, pq: seq<Candidate>,
                     returned: seq<set<nat>>, floor: ExtReal, a: nat, done: nat, batch: seq<Neighbor>)
    requires Open(f, n, ds, st, pq, returned, floor, a, done)
    requires Refills(st, a) && IsNearest(RefillQuery(f, ds, st, a), batch, n)
    ensures var (r, st') := Serve(st, n, a, batch);
      && (r.Some? ==> r.value.index !in returned[a])
      && var returned' := if r.Some? then returned[a := returned[a] + {r.value.index}] else returned;
      && var pq' := if r.Some? then PushCandidate(pq, Candidate(a, r.value.index, r.value.dist)) else pq;
      Inv(f, n, ds, st', pq', returned', floor, done)
  {
    RefillBatchFacts(f, n, ds, st, pq, returned, floor, a, done, batch);
    if batch == [] {
      RefillEmptyCloses(f, n, ds, st, pq, returned, floor, a, done);
    } else {
      RefillFullCloses(f, n, ds, st, pq, returned, floor, a, done, batch);
    }
  }

  /** What a refill's batch is: fresh items above `a`, no more than are left, and no farther than anything else outside `a`'s cluster. */
  lemma RefillBatchFacts(f: Callback, n: nat, ds: DisjointSets, st: Buffers, pq: seq<Candidate>,
                         returned: seq<set<nat>>, floor: ExtReal, a: nat, done: nat, batch: seq<Neighbor>)
    requires Open(f, n, ds, st, pq, returned, floor, a, done)
    requires Refills(st, a) && IsNearest(RefillQuery(f, ds, st, a), batch, n)
    ensures forall j :: 0 <= j < |batch| ==> a < batch[j].index < n && batch[j].index !in returned[a]
    ensures st.counts[a] + |batch| <= n - a - 1
    ensures forall y :: a < y < n ==> Same(ds, a, y) || Le(Radius(batch), Fin(Dist(f, a, y)))
  {
    var qr := RefillQuery(f, ds, st, a);
    assert BufferOk(f, n, ds, st, returned, a);
    // Every item of the batch is eligible, so none of them was handed out before.
    forall j | 0 <= j < |batch|
      ensures a < batch[j].index < n && batch[j].index !in returned[a]
    {
      assert Eligible(qr, batch[j].index);
    }
    assert st.counts[a] + |batch| <= n - a - 1 by {
      var ids := Indices(batch);
      forall x | x in returned[a] + ids
        ensures a < x < n
      {
        if x in ids {
          var k :| 0 <= k < |batch| && batch[k].index == x;
        }
      }
      AboveCard(returned[a] + ids, a, n);
      IndicesCard(batch);
      forall x | x in ids
        ensures x !in returned[a]
      {
        var k :| 0 <= k < |batch| && batch[k].index == x;
      }
    }
    // Every item above `a` outside its cluster is at least as far as the batch.
    forall y | a < y < n
      ensures Same(ds, a, y) || Le(Radius(batch), Fin(Dist(f, a, y)))
    {
      assert y in Below(n) by {
        assert Iota(n)[y] == y;
      }
    }
  }

  /** The items of a heap held once each are as many as its entries. */
  lemma {:induction false} IndicesCard(h: seq<Neighbor>)
    requires forall j, k :: 0 <= j < k < |h| ==> h[j].index != h[k].index
    ensures |Indices(h)| == |h|
  {
    if h != [] {
      var t := h[..|h| - 1];
      IndicesCard(t);
      assert Indices(h) == Indices(t) + {h[|h| - 1].index};
      forall k | 0 <= k < |t|
        ensures t[k].index != h[|h| - 1].index
      {
        assert t[k] == h[k];
      }
    }
  }

  /** A refill that finds nothing: `shouldFind[a]` goes off, with nothing left to find. */
  lemma RefillEmptyCloses(f: Callback, n: nat, ds: DisjointSets, st: Buffers, pq: seq<Candidate>,
                          returned: seq<set<nat>>, floor: ExtReal, a: nat, done: nat)
    requires Open(f, n, ds, st, pq, returned, floor, a, done)
    requires Refills(st, a)
    requires forall y :: a < y < n ==> Same(ds, a, y) || Le(PosInf, Fin(Dist(f, a, y)))
    ensures Serve(st, n, a, []).0 == None
    ensures Inv(f, n, ds, Serve(st, n, a, []).1, pq, returned, floor, done)
  {
    var st' := Serve(st, n, a, []).1;
    assert st' == st.(shouldFind := st.shouldFind[a := false]);
    forall a' | 0 <= a' < n
      ensures BufferOk(f, n, ds, st', returned, a')
    {
      assert BufferOk(f, n, ds, st, returned, a');
    }
    forall c | c in pq
      ensures EntryOk(f, n, st', returned, floor, c)
    {
      assert EntryOk(f, n, st, returned, floor, c);
    }
    forall a' | done <= a' < n
      ensures Fresh(st', pq, a')
    {
      assert Fresh(st, pq, a');
    }
  }

  /** `st'` differs from `st` at most in the entries of item `a`. */
  predicate AgreeExcept(st: Buffers, st': Buffers, n: nat, a: nat)
    requires Sized(st, n) && Sized(st', n)
  {
    forall a' :: 0 <= a' < n && a' != a ==>
      && st'.counts[a'] == st.counts[a'] && st'.minR[a'] == st.minR[a']
      && st'.shouldFind[a'] == st.shouldFind[a'] && st'.lists[a'] == st.lists[a']
  }

  /**
   * A refill that finds a batch: `minR[a]` moves up to the batch's distance, the
   * batch becomes the buffer and its first item is handed out and queued.
   */
  lemma RefillFullCloses(f: Callback, n: nat, ds: DisjointSets, st: Buffers, pq: seq<Candidate>,
                         returned: seq<set<nat>>, floor: ExtReal, a: nat, done: nat, batch: seq<Neighbor>)
    requires Open(f, n, ds, st, pq, returned, floor, a, done)
    requires Refills(st, a) && IsNearest(RefillQuery(f, ds, st, a), batch, n) && batch != []
    requires forall j :: 0 <= j < |batch| ==> a < batch[j].index < n && batch[j].index !in returned[a]
    requires st.counts[a] + |batch| <= n - a - 1
    requires forall y :: a < y < n ==> Same(ds, a, y) || Le(Radius(batch), Fin(Dist(f, a, y)))
    ensures Serve(st, n, a, batch).0 == Some(batch[0])
    ensures var returned' := returned[a := returned[a] + {batch[0].index}];
      var pq' := PushCandidate(pq, Candidate(a, batch[0].index, batch[0].dist));
      Inv(f, n, ds, Serve(st, n, a, batch).1, pq', returned', floor, done)
  {
    var qr := RefillQuery(f, ds, st, a);
    var level := Fin(batch[|batch| - 1].dist);
    var st' := Serve(st, n, a, batch).1;
    assert st' == st.(counts := st.counts[a := st.counts[a] + |batch|],
                      minR := st.minR[a := level],
                      lists := st.lists[a := batch[1..]]);
    var e := batch[0];
    assert Radius(batch) == level;
    var returned' := returned[a := returned[a] + {e.index}];
    var l := batch[1..];
    assert BufferOk(f, n, ds, st, returned, a);
    assert a < e.index < n && e.index !in returned[a];
    assert BufferOk(f, n, ds, st', returned', a) by {
      forall j | 0 <= j < |l|
        ensures l[j].index !in returned'[a] && a < l[j].index < n
      {
        assert l[j] == batch[j + 1];
      }
      forall j, k | 0 <= j < k < |l|
        ensures l[j].index != l[k].index
      {
        assert l[j] == batch[j + 1] && l[k] == batch[k + 1];
      }
      assert |returned'[a]| == |returned[a]| + 1;
    }
    assert Le(floor, level) by {
      LeTrans(floor, st.minR[a], level);
    }
    HandOutCloses(f, n, ds, st, st', pq, returned, floor, a, done, e);
  }

  /**
   * The common end of both ways `getNearestNeighbor(a)` hands out a neighbour `e`:
   * the buffers of the other items are untouched, `a` is at `e`'s level, and the
   * candidate `(a, e)` is pushed.
   */
  /** The `Core` half of `HandOutCloses`. */
  lemma HandOutKeepsCore(f: Callback, n: nat, ds: DisjointSets, st: Buffers, st': Buffers, pq: seq<Candidate>,
                         returned: seq<set<nat>>, floor: ExtReal, a: nat, done: nat, e: Neighbor)
    requires Open(f, n, ds, st, pq, returned, floor, a, done)
    requires Sized(st', n) && AgreeExcept(st, st', n, a) && st'.shouldFind[a]
    requires a < e.index < n && e.index !in returned[a]
    requires e.dist == Dist(f, a, e.index) && st'.minR[a] == Fin(e.dist) && Le(floor, Fin(e.dist))
    requires BufferOk(f, n, ds, st', returned[a := returned[a] + {e.index}], a)
    requires forall y :: a < y < n && !Same(ds, a, y) ==> Le(st'.minR[a], Fin(Dist(f, a, y)))
    ensures Core(f, n, ds, st', PushCandidate(pq, Candidate(a, e.index, e.dist)),
                 returned[a := returned[a] + {e.index}], floor)
  {
    var c := Candidate(a, e.index, e.dist);
    var returned' := returned[a := returned[a] + {e.index}];
    var pq' := PushCandidate(pq, c);
    PushMembers(pq, c);
    PushEntries(pq, c);
    EntryFacts(pq);
    PushCandidateSorted(pq, c);
    assert OnePerItem(pq');
    forall d | d in pq'
      ensures EntryOk(f, n, st', returned', floor, d)
    {
      if d != c {
        assert EntryOk(f, n, st, returned, floor, d);
      }
    }
    forall a' | 0 <= a' < n && a' != a
      ensures BufferOk(f, n, ds, st', returned', a')
    {
      assert BufferOk(f, n, ds, st, returned, a');
    }
  }

  lemma HandOutCloses(f: Callback, n: nat, ds: DisjointSets, st: Buffers, st': Buffers, pq: seq<Candidate>,
                      returned: seq<set<nat>>, floor: ExtReal, a: nat, done: nat, e: Neighbor)
    requires Open(f, n, ds, st, pq, returned, floor, a, done)
    requires Sized(st', n) && AgreeExcept(st, st', n, a) && st'.shouldFind[a]
    requires a < e.index < n && e.index !in returned[a]
    requires e.dist == Dist(f, a, e.index) && st'.minR[a] == Fin(e.dist) && Le(floor, Fin(e.dist))
    requires BufferOk(f, n, ds, st', returned[a := returned[a] + {e.index}], a)
    requires forall y :: a < y < n && !Same(ds, a, y) ==> Le(st'.minR[a], Fin(Dist(f, a, y)))
    ensures Inv(f, n, ds, st', PushCandidate(pq, Candidate(a, e.index, e.dist)),
                returned[a := returned[a] + {e.index}], floor, done)
  {
    var c := Candidate(a, e.index, e.dist);
    var returned' := returned[a := returned[a] + {e.index}];
    var pq' := PushCandidate(pq, c);
    HandOutKeepsCore(f, n, ds, st, st', pq, returned, floor, a, done, e);
    PushMembers(pq, c);
    PushEntries(pq, c);
    forall a' | done <= a' < n
      ensures Fresh(st', pq', a')
    {
      assert Fresh(st, pq, a');
    }
  }

  /** The case of `ServeCloses` without a search: the buffer's front is handed out, or nothing. */
  lemma BufferedCloses(f: Callback, n: nat, ds: DisjointSets, st: Buffers, pq: seq<Candidate>,
                       returned: seq<set<nat>>, floor: ExtReal, a: nat, done: nat, batch: seq<Neighbor>)
    requires Open(f, n, ds, st, pq, returned, floor, a, done)
    requires !Refills(st, a)
    ensures var (r, st') := Serve(st, n, a, batch);
      && (r.Some? ==> r.value.index !in returned[a])
      && var returned' := if r.Some? then returned[a := returned[a] + {r.value.index}] else returned;
      && var pq' := if r.Some? then PushCandidate(pq, Candidate(a, r.value.index, r.value.dist)) else pq;
      Inv(f, n, ds, st', pq', returned', floor, done)
  {
    assert BufferOk(f, n, ds, st, returned, a);
    var l := st.lists[a];
    if l == [] {
      assert Serve(st, n, a, batch) == (None, st);
    } else {
      var e := l[0];
      var st' := st.(lists := st.lists[a := l[1..]]);
      assert Serve(st, n, a, batch) == (Some(e), st');
      var returned' := returned[a := returned[a] + {e.index}];
      assert a < e.index < n && e.index !in returned[a];
      assert BufferOk(f, n, ds, st', returned', a) by {
        assert |l[1..]| == |l| - 1;
        forall j | 0 <= j < |l[1..]|
          ensures l[1..][j].index !in returned'[a]
        {
          assert l[1..][j] == l[j + 1];
        }
        assert |returned'[a]| == |returned[a]| + 1;
      }
      HandOutCloses(f, n, ds, st, st', pq, returned, floor, a, done, e);
    }
  }

  /**
   * The queue's front is a closest pair: no two items in different clusters are
   * nearer to each other than the candidate `compute` pops next.
   */
  lemma FrontIsClosest(f: Callback, n: nat, ds: DisjointSets, st: Buffers, pq: seq<Candidate>,
                       returned: seq<set<nat>>, floor: ExtReal)
    requires Inv(f, n, ds, st, pq, returned, floor, n) && pq != []
    ensures forall x, y :: 0 <= x < y < n && !Same(ds, x, y) ==> pq[0].dist <= Dist(f, x, y)
  {
    forall x, y | 0 <= x < y < n && !Same(ds, x, y)
      ensures pq[0].dist <= Dist(f, x, y)
    {
      assert BufferOk(f, n, ds, st, returned, x);
      assert st.shouldFind[x];
      var c :| c in pq && c.index1 == x;
      assert EntryOk(f, n, st, returned, floor, c);
      var k :| 0 <= k < |pq| && pq[k] == c;
      assert pq[0].dist <= c.dist;
    }
  }

  /** An empty queue means every item is in one cluster, so `compute` has made its `n - 1` merges. */
  lemma EmptyQueueMeansOneCluster(f: Callback, n: nat, ds: DisjointSets, st: Buffers,
                                  returned: seq<set<nat>>, floor: ExtReal)
    requires Inv(f, n, ds, st, [], returned, floor, n)
    ensures Count(ds) == 1
  {
    forall x | 0 <= x < n
      ensures Same(ds, x, 0)
    {
      if x > 0 {
        assert BufferOk(f, n, ds, st, returned, 0);
        assert !HasEntry([], 0);
        assert Same(ds, 0, x);
      }
    }
    SingleSet(ds);
  }

  /**
   * Merge `k` of `merges` is a single-linkage merge: made at `heights[k]`, which is
   * no more than the distance of any two items in different clusters just before it.
   */
  ghost predicate ClosestAtStep(f: Callback, n: nat, merges: seq<(nat, nat)>, heights: seq<real>, k: nat)
  {
    && k < |merges| && k < |heights|
    && Replay(n, merges[..k]).Some?
    && forall x, y :: 0 <= x < y < n && !Same(Replay(n, merges[..k]).value, x, y) ==> heights[k] <= Dist(f, x, y)
  }

  /**
   * Committing the pair `(a, b)` of two different clusters, at a height no greater
   * than the distance of any two items in different clusters, extends the replayed
   * partition by one `link` and keeps every merge a single-linkage merge.
   */
  lemma RecordMerge(f: Callback, n: nat, merges: seq<(nat, nat)>, heights: seq<real>, ds: DisjointSets,
                    a: nat, b: nat, h: real)
    requires Replay(n, merges) == Some(ds) && |heights| == |merges|
    requires forall k :: 0 <= k < |merges| ==> ClosestAtStep(f, n, merges, heights, k)
    requires forall x, y :: 0 <= x < y < n && !Same(ds, x, y) ==> h <= Dist(f, x, y)
    requires a < n && b < n && FindSet(ds, a) != FindSet(ds, b)
    ensures Replay(n, merges + [(a, b)]) == Some(Link(ds, FindSet(ds, a), FindSet(ds, b)))
    ensures forall k :: 0 <= k < |merges| + 1 ==> ClosestAtStep(f, n, merges + [(a, b)], heights + [h], k)
  {
    var merges' := merges + [(a, b)];
    var heights' := heights + [h];
    assert merges'[..|merges|] == merges;
    forall k | 0 <= k < |merges| + 1
      ensures ClosestAtStep(f, n, merges', heights', k)
    {
      if k < |merges| {
        assert merges'[..k] == merges[..k];
        assert ClosestAtStep(f, n, merges, heights, k);
      }
    }
  }

  /**
   * What the merges committed so far satisfy: they replay to `ds`, each joins two
   * items at their distance, at a height no higher than `floor`, in nondecreasing
   * order of height, and each is a single-linkage merge.
   */
  ghost predicate History(f: Callback, n: nat, ds: DisjointSets, merges: seq<(nat, nat)>, heights: seq<real>,
                          floor: ExtReal)
  {
    && |merges| == |heights|
    && Replay(n, merges) == Some(ds)
    && (forall k :: 0 <= k < |merges| ==>
          merges[k].0 < merges[k].1 < n && heights[k] == Dist(f, merges[k].0, merges[k].1)
          && Le(Fin(heights[k]), floor))
    && (forall k, l :: 0 <= k < l < |heights| ==> heights[k] <= heights[l])
    && (forall k :: 0 <= k < |merges| ==> ClosestAtStep(f, n, merges, heights, k))
  }

  /**
   * One round of `compute`'s main loop on the merges: the popped front `(a, b, d)`
   * is committed at height `d` when `a` and `b` are in different clusters, and the
   * floor rises to `d` either way.
   */
  lemma CommitStep(f: Callback, n: nat, ds: DisjointSets, st: Buffers, pq: seq<Candidate>,
                   returned: seq<set<nat>>, floor: ExtReal, merges: seq<(nat, nat)>, heights: seq<real>)
    requires Inv(f, n, ds, st, pq, returned, floor, n) && pq != []
    requires History(f, n, ds, merges, heights, floor)
    ensures var c := pq[0];
      && c.index1 < c.index2 < n
      && var ds' := MergeStep(ds, c.index1, c.index2);
      && (FindSet(ds, c.index1) != FindSet(ds, c.index2) ==>
            History(f, n, ds', merges + [(c.index1, c.index2)], heights + [c.dist], Fin(c.dist)))
      && (FindSet(ds, c.index1) == FindSet(ds, c.index2) ==>
            History(f, n, ds', merges, heights, Fin(c.dist)))
  {
    var c := pq[0];
    assert EntryOk(f, n, st, returned, floor, c) by {
      EntryFacts(pq);
    }
    FrontIsClosest(f, n, ds, st, pq, returned, floor);
    CommitHistory(f, n, ds, merges, heights, floor, c.index1, c.index2, c.dist);
  }

  /** `CommitStep` on the facts it needs about the front `(a, b, d)`: the closest pair across clusters, at or above the floor. */
  lemma CommitHistory(f: Callback, n: nat, ds: DisjointSets, merges: seq<(nat, nat)>, heights: seq<real>,
                      floor: ExtReal, a: nat, b: nat, d: real)
    requires WellFormed(ds) && |ds.rep| == n && History(f, n, ds, merges, heights, floor)
    requires a < b < n && d == Dist(f, a, b) && Le(floor, Fin(d))
    requires forall x, y :: 0 <= x < y < n && !Same(ds, x, y) ==> d <= Dist(f, x, y)
    ensures var ds' := MergeStep(ds, a, b);
      && (FindSet(ds, a) != FindSet(ds, b) ==> History(f, n, ds', merges + [(a, b)], heights + [d], Fin(d)))
      && (FindSet(ds, a) == FindSet(ds, b) ==> History(f, n, ds', merges, heights, Fin(d)))
  {
    if FindSet(ds, a) != FindSet(ds, b) {
      HistoryExtends(f, n, ds, merges, heights, floor, a, b, d);
    } else {
      assert MergeStep(ds, a, b) == ds;
      forall k | 0 <= k < |merges|
        ensures Le(Fin(heights[k]), Fin(d))
      {
        LeTrans(Fin(heights[k]), floor, Fin(d));
      }
    }
  }

  /** A merge across two clusters extends the history by `(a, b)` at height `d`. */
  lemma HistoryExtends(f: Callback, n: nat, ds: DisjointSets, merges: seq<(nat, nat)>, heights: seq<real>,
                       floor: ExtReal, a: nat, b: nat, d: real)
    requires WellFormed(ds) && |ds.rep| == n && History(f, n, ds, merges, heights, floor)
    requires a < b < n && d == Dist(f, a, b) && Le(floor, Fin(d)) && FindSet(ds, a) != FindSet(ds, b)
    requires forall x, y :: 0 <= x < y < n && !Same(ds, x, y) ==> d <= Dist(f, x, y)
    ensures History(f, n, MergeStep(ds, a, b), merges + [(a, b)], heights + [d], Fin(d))
  {
    RecordMerge(f, n, merges, heights, ds, a, b, d);
    assert MergeStep(ds, a, b) == Link(ds, FindSet(ds, a), FindSet(ds, b));
    AppendHeights(f, n, merges, heights, floor, a, b, d);
  }

  /** The entries of a history, appended with `(a, b)` at height `d` at or above the floor: still well-formed and still nondecreasing. */
  lemma AppendHeights(f: Callback, n: nat, merges: seq<(nat, nat)>, heights: seq<real>, floor: ExtReal,
                      a: nat, b: nat, d: real)
    requires |merges| == |heights|
    requires forall k :: 0 <= k < |merges| ==>
               merges[k].0 < merges[k].1 < n && heights[k] == Dist(f, merges[k].0, merges[k].1)
               && Le(Fin(heights[k]), floor)
    requires forall k, l :: 0 <= k < l < |heights| ==> heights[k] <= heights[l]
    requires a < b < n && d == Dist(f, a, b) && Le(floor, Fin(d))
    ensures var merges', heights' := merges + [(a, b)], heights + [d];
      && (forall k :: 0 <= k < |merges'| ==>
            merges'[k].0 < merges'[k].1 < n && heights'[k] == Dist(f, merges'[k].0, merges'[k].1)
            && Le(Fin(heights'[k]), Fin(d)))
      && (forall k, l :: 0 <= k < l < |heights'| ==> heights'[k] <= heights'[l])
  {
    var merges', heights' := merges + [(a, b)], heights + [d];
    forall k | 0 <= k < |merges'|
      ensures merges'[k].0 < merges'[k].1 < n && heights'[k] == Dist(f, merges'[k].0, merges'[k].1)
      ensures Le(Fin(heights'[k]), Fin(d))
    {
      if k < |merges| {
        assert merges'[k] == merges[k] && heights'[k] == heights[k];
        LeTrans(Fin(heights[k]), floor, Fin(d));
      }
    }
    forall k, l | 0 <= k < l < |heights'|
      ensures heights'[k] <= heights'[l]
    {
      if l == |heights| {
        assert Le(Fin(heights'[k]), Fin(d));
      }
    }
  }
}
