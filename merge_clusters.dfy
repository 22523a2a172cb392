/**
 * What the rows of `generateMergeMatrix` mean for the merges `compute` hands
 * over, each of which joins two different clusters: every `curclust` entry is a
 * whole cluster of the partition the merges build, no item is in two entries,
 * and no row refers to an earlier step twice, since `clear()` empties every
 * entry a row refers to.
 */
module MergeClusters {
  import opened Wrappers
  import opened DisjointSets
  import opened MergeMatrix

  /** Step `k` empties the earlier clusters its row refers to. */
  lemma StepClears(c: seq<set<nat>>, k: nat, i: nat, j: nat)
    requires k < |c| && i >= 1 && j >= 1
    ensures var (row, c') := Step(c, k, i, j);
      && (row.0 > 0 ==> c'[row.0 - 1] == {})
      && (row.1 > 0 ==> c'[row.1 - 1] == {})
  {
  }

  /** A cluster emptied before step `k1` stays empty: later steps only fill the cluster they make. */
  lemma {:induction false} ClearedStays(x: seq<(nat, nat)>, s: nat, k1: nat, k2: nat)
    requires s < k1 <= k2 <= |x| && Run(x, k1).1[s] == {}
    ensures Run(x, k2).1[s] == {}
    decreases k2
  {
    if k2 > k1 {
      ClearedStays(x, s, k1, k2 - 1);
      RunKeepsEmpty(x, k2 - 1, s);
    }
  }

  /** Step `k` of the run leaves an empty cluster other than its own empty. */
  lemma RunKeepsEmpty(x: seq<(nat, nat)>, k: nat, s: nat)
    requires k < |x| && s < |x| && s != k && Run(x, k).1[s] == {}
    ensures Run(x, k + 1).1[s] == {}
  {
    var i, j := x[k].0 + 1, x[k].1 + 1;
    StepKeepsEmpty(Run(x, k).1, k, i, j, s);
  }

  /** A step leaves an empty cluster other than its own empty. */
  lemma StepKeepsEmpty(c: seq<set<nat>>, k: nat, i: nat, j: nat, s: nat)
    requires k < |c| && i >= 1 && j >= 1 && s < |c| && s != k && c[s] == {}
    ensures Step(c, k, i, j).1[s] == {}
  {
    forall v | v in Step(c, k, i, j).1[s]
      ensures false
    {
      StepSource(c, k, i, j, s, v);
    }
  }

  /** `row` refers to step `e - 1`: one of its entries names the cluster made at step `e - 1`. */
  predicate Refers(row: (int, int), e: int)
  {
    row.0 == e || row.1 == e
  }

  /** A row refers only to a cluster that holds an item when the step begins. */
  lemma StepRefersHeld(c: seq<set<nat>>, k: nat, i: nat, j: nat, e: int)
    requires k < |c| && i >= 1 && j >= 1 && e > 0 && Refers(Step(c, k, i, j).0, e)
    ensures e - 1 < |c| && c[e - 1] != {}
  {
  }

  /**
   * No cluster is merged twice: once row `k1` refers to the cluster made at step
   * `e - 1`, that cluster is cleared, and no later row refers to it.
   */
  lemma MergeRowsReferOnce(x: seq<(nat, nat)>, k1: nat, k2: nat, e: int)
    requires k1 < k2 < |x| && e > 0 && Refers(MergeRows(x)[k1], e)
    ensures !Refers(MergeRows(x)[k2], e)
  {
    RowClears(x, k1, e);
    ClearedStays(x, e - 1, k1 + 1, k2);
    if Refers(MergeRows(x)[k2], e) {
      RowRefersHeld(x, k2, e);
    }
  }

  /** The cluster row `k` refers to is empty once step `k` is done. */
  lemma RowClears(x: seq<(nat, nat)>, k: nat, e: int)
    requires k < |x| && e > 0 && Refers(MergeRows(x)[k], e)
    ensures e - 1 < k && Run(x, k + 1).1[e - 1] == {}
  {
    RunRow(x, |x|, k);
    var c := Run(x, k).1;
    var i, j := x[k].0 + 1, x[k].1 + 1;
    StepClears(c, k, i, j);
    RunSnoc(x, k);
  }

  /** The cluster row `k` refers to holds an item when step `k` begins. */
  lemma RowRefersHeld(x: seq<(nat, nat)>, k: nat, e: int)
    requires k < |x| && e > 0 && Refers(MergeRows(x)[k], e)
    ensures e - 1 < |x| && Run(x, k).1[e - 1] != {}
  {
    RunRow(x, |x|, k);
    StepRefersHeld(Run(x, k).1, k, x[k].0 + 1, x[k].1 + 1, e);
  }

  /** The 1-based items `v` and `w` lie in one set of `ds`. */
  predicate Together(ds: DisjointSets, v: nat, w: nat)
  {
    1 <= v <= |ds.rep| && 1 <= w <= |ds.rep| && Same(ds, v - 1, w - 1)
  }

  /** The 1-based members of the set of `ds` holding the 1-based item `v`. */
  function Component(ds: DisjointSets, v: nat): (r: set<nat>)
    ensures forall w :: w in r <==> Together(ds, v, w)
  {
    set w | 1 <= w <= |ds.rep| && Together(ds, v, w)
  }

  /**
   * After `k` steps over merges of different sets, whose partition is `ds`: only
   * clusters made so far hold items, each holds a whole set of `ds`, no item lies
   * in two clusters, and an item the scan does not find is alone in `ds`.
   */
  ghost predicate Partitioned(c: seq<set<nat>>, k: nat, ds: DisjointSets)
    requires k <= |c|
  {
    && (forall s, v: nat :: InCluster(c, s, v) ==> s < k && 1 <= v <= |ds.rep| && c[s] == Component(ds, v))
    && (forall s, t, v: nat :: InCluster(c, s, v) && InCluster(c, t, v) ==> s == t)
    && (forall v :: 1 <= v <= |ds.rep| && !HeldBy(c, k, v) ==> Component(ds, v) == {v})
  }

  /** Cluster `s` holds `v`. */
  predicate InCluster(c: seq<set<nat>>, s: int, v: nat)
  {
    0 <= s < |c| && v in c[s]
  }

  /** What `Partitioned` says of one cluster holding `v`. */
  lemma ClusterOf(c: seq<set<nat>>, k: nat, ds: DisjointSets, s: nat, v: nat)
    requires k <= |c| && Partitioned(c, k, ds) && s < |c| && v in c[s]
    ensures s < k && 1 <= v <= |ds.rep| && c[s] == Component(ds, v)
  {
    assert InCluster(c, s, v);
  }

  /** What `Partitioned` says of two clusters holding `v`. */
  lemma InOneCluster(c: seq<set<nat>>, k: nat, ds: DisjointSets, s: nat, t: nat, v: nat)
    requires k <= |c| && Partitioned(c, k, ds) && s < |c| && t < |c| && v in c[s] && v in c[t]
    ensures s == t
  {
    assert InCluster(c, s, v) && InCluster(c, t, v);
  }

  /** Under `Partitioned`, the set of `v` is the cluster the scan finds, or `{v}` when it finds none. */
  lemma HeldComponent(c: seq<set<nat>>, k: nat, ds: DisjointSets, v: nat)
    requires k <= |c| && Partitioned(c, k, ds) && 1 <= v <= |ds.rep|
    ensures LatestWith(c, k - 1, v) >= 0 ==> c[LatestWith(c, k - 1, v)] == Component(ds, v)
    ensures LatestWith(c, k - 1, v) < 0 ==> Component(ds, v) == {v}
  {
    var sv := LatestWith(c, k - 1, v);
    if sv >= 0 {
      ClusterOf(c, k, ds, sv, v);
    }
  }

  /** Under `Partitioned`, a cluster holding an item of `v`'s set is the one the scan finds for `v`. */
  lemma HeldOnlyThere(c: seq<set<nat>>, k: nat, ds: DisjointSets, v: nat, w: nat, t: nat)
    requires k <= |c| && Partitioned(c, k, ds)
    requires t < |c| && w in c[t] && Together(ds, v, w)
    ensures t == LatestWith(c, k - 1, v)
  {
    HeldComponent(c, k, ds, v);
    ClusterOf(c, k, ds, t, w);
    var sv := LatestWith(c, k - 1, v);
    if sv < 0 {
      assert w == v;
      HeldFound(c, k - 1, t, v);
    } else {
      assert w in c[sv];
      InOneCluster(c, k, ds, t, sv, w);
    }
  }

  /** Linking the sets of the 0-based `a` and `b` joins their two sets and leaves every other one. */
  lemma LinkComponent(ds: DisjointSets, a: nat, b: nat, v: nat)
    requires WellFormed(ds) && a < |ds.rep| && b < |ds.rep| && 1 <= v <= |ds.rep|
    ensures var ds' := Link(ds, FindSet(ds, a), FindSet(ds, b));
      Component(ds', v) ==
        if Together(ds, a + 1, v) || Together(ds, b + 1, v)
        then Component(ds, a + 1) + Component(ds, b + 1)
        else Component(ds, v)
  {
  }

  /** The clusters after step `k` on a merge of two different sets `a`, `b`: the new one holds both sets, the two absorbed are empty. */
  lemma StepShape(c: seq<set<nat>>, k: nat, ds: DisjointSets, a: nat, b: nat)
    requires k < |c| && Partitioned(c, k, ds)
    requires a < |ds.rep| && b < |ds.rep| && !Same(ds, a, b)
    ensures var c' := Step(c, k, a + 1, b + 1).1;
      && c'[k] == Component(ds, a + 1) + Component(ds, b + 1)
      && forall s :: 0 <= s < |c| && s != k ==>
        c'[s] == if s == LatestWith(c, k - 1, a + 1) || s == LatestWith(c, k - 1, b + 1) then {} else c[s]
  {
    HeldComponent(c, k, ds, a + 1);
    HeldComponent(c, k, ds, b + 1);
    forall v | v in c[k]
      ensures false
    {
      ClusterOf(c, k, ds, k, v);
    }
  }

  /** Each step on a merge of two different sets keeps `Partitioned`, for the partition with those sets linked. */
  lemma StepPartitioned(c: seq<set<nat>>, c': seq<set<nat>>, k: nat, ds: DisjointSets, a: nat, b: nat)
    requires k < |c| && Partitioned(c, k, ds)
    requires WellFormed(ds) && a < |ds.rep| && b < |ds.rep| && !Same(ds, a, b)
    requires c' == Step(c, k, a + 1, b + 1).1
    ensures Partitioned(c', k + 1, Link(ds, FindSet(ds, a), FindSet(ds, b)))
  {
    var ds' := Link(ds, FindSet(ds, a), FindSet(ds, b));
    forall s, v: nat | InCluster(c', s, v)
      ensures s < k + 1 && 1 <= v <= |ds'.rep| && c'[s] == Component(ds', v)
    {
      StepClusterIsSet(c, k, ds, a, b, s, v);
    }
    forall s, t, v: nat | InCluster(c', s, v) && InCluster(c', t, v)
      ensures s == t
    {
      StepClustersDisjoint(c, k, ds, a, b, s, t, v);
    }
    var k' := k + 1;
    forall v | 1 <= v <= |ds'.rep| && !HeldBy(c', k', v)
      ensures Component(ds', v) == {v}
    {
      StepAlone(c, k, ds, a, b, v);
    }
  }

  /** After the step, a cluster holding `v` holds exactly `v`'s set in the linked partition. */
  lemma StepClusterIsSet(c: seq<set<nat>>, k: nat, ds: DisjointSets, a: nat, b: nat, s: nat, v: nat)
    requires k < |c| && Partitioned(c, k, ds)
    requires WellFormed(ds) && a < |ds.rep| && b < |ds.rep| && !Same(ds, a, b)
    requires s < |c| && v in Step(c, k, a + 1, b + 1).1[s]
    ensures s < k + 1 && 1 <= v <= |ds.rep|
    ensures Step(c, k, a + 1, b + 1).1[s] == Component(Link(ds, FindSet(ds, a), FindSet(ds, b)), v)
  {
    var i, j := a + 1, b + 1;
    StepShape(c, k, ds, a, b);
    if s == k {
      assert Together(ds, i, v) || Together(ds, j, v);
    } else {
      ClusterOf(c, k, ds, s, v);
      if Together(ds, i, v) {
        HeldOnlyThere(c, k, ds, i, v, s);
      }
      if Together(ds, j, v) {
        HeldOnlyThere(c, k, ds, j, v, s);
      }
    }
    LinkComponent(ds, a, b, v);
  }

  /** After the step, no item lies in two clusters. */
  lemma StepClustersDisjoint(c: seq<set<nat>>, k: nat, ds: DisjointSets, a: nat, b: nat, s: nat, t: nat, v: nat)
    requires k < |c| && Partitioned(c, k, ds)
    requires a < |ds.rep| && b < |ds.rep| && !Same(ds, a, b)
    requires s < |c| && t < |c| && v in Step(c, k, a + 1, b + 1).1[s] && v in Step(c, k, a + 1, b + 1).1[t]
    ensures s == t
  {
    var i, j := a + 1, b + 1;
    StepShape(c, k, ds, a, b);
    if s != k && t != k {
      InOneCluster(c, k, ds, s, t, v);
    } else if s != t {
      var u := if s == k then t else s;
      assert v in c[u];
      if Together(ds, i, v) {
        HeldOnlyThere(c, k, ds, i, v, u);
      } else {
        HeldOnlyThere(c, k, ds, j, v, u);
      }
    }
  }

  /** After the step, an item no cluster made so far holds is still alone in the linked partition. */
  lemma StepAlone(c: seq<set<nat>>, k: nat, ds: DisjointSets, a: nat, b: nat, v: nat)
    requires k < |c| && Partitioned(c, k, ds)
    requires WellFormed(ds) && a < |ds.rep| && b < |ds.rep| && !Same(ds, a, b)
    requires 1 <= v <= |ds.rep| && !HeldBy(Step(c, k, a + 1, b + 1).1, k + 1, v)
    ensures Component(Link(ds, FindSet(ds, a), FindSet(ds, b)), v) == {v}
  {
    if HeldBy(c, k, v) {
      StepHolds(c, k, a + 1, b + 1, v);
    }
    StepLeavesOut(c, k, ds, a, b, v);
    LinkComponent(ds, a, b, v);
    HeldComponent(c, k, ds, v);
  }

  /** An item the new cluster does not hold lies in neither of the merged sets. */
  lemma StepLeavesOut(c: seq<set<nat>>, k: nat, ds: DisjointSets, a: nat, b: nat, v: nat)
    requires k < |c| && Partitioned(c, k, ds)
    requires a < |ds.rep| && b < |ds.rep| && !Same(ds, a, b)
    requires !HeldBy(Step(c, k, a + 1, b + 1).1, k + 1, v)
    ensures !Together(ds, a + 1, v) && !Together(ds, b + 1, v)
  {
    var c' := Step(c, k, a + 1, b + 1).1;
    StepShape(c, k, ds, a, b);
    if v in c'[k] {
      HeldFound(c', k, k, v);
    }
  }

  /** Replaying one more merge: the shorter replay succeeded, the merge joins two different sets, and the result links them. */
  lemma ReplayStep(n: nat, x: seq<(nat, nat)>, k: nat)
    requires k < |x| && Replay(n, x[..k + 1]).Some?
    ensures Replay(n, x[..k]).Some?
    ensures var ds := Replay(n, x[..k]).value;
      && x[k].0 < n && x[k].1 < n && !Same(ds, x[k].0, x[k].1)
      && Replay(n, x[..k + 1]) == Some(Link(ds, FindSet(ds, x[k].0), FindSet(ds, x[k].1)))
  {
    assert x[..k + 1][..k] == x[..k];
    assert x[..k + 1][k] == x[k];
  }

  /** In a successful replay, merge `k` joins two different sets of the partition before it. */
  lemma ReplayMerge(n: nat, x: seq<(nat, nat)>, k: nat)
    requires k < |x| && Replay(n, x).Some?
    ensures Replay(n, x[..k]).Some?
    ensures var ds := Replay(n, x[..k]).value;
      x[k].0 < |ds.rep| && x[k].1 < |ds.rep| && !Same(ds, x[k].0, x[k].1)
  {
    ReplayPrefix(n, x, k + 1);
    ReplayStep(n, x, k);
  }

  /** Every prefix of a successful replay succeeds. */
  lemma {:induction false} ReplayPrefix(n: nat, x: seq<(nat, nat)>, k: nat)
    requires k <= |x| && Replay(n, x).Some?
    ensures Replay(n, x[..k]).Some?
    decreases |x| - k
  {
    if k == |x| {
      assert x[..k] == x;
    } else {
      ReplayPrefix(n, x, k + 1);
      ReplayStep(n, x, k);
    }
  }

  /** Before any merge every item is alone. */
  lemma NoClustersPartitioned(n: nat, m: nat)
    ensures Partitioned(NoClusters(m), 0, MakeSets(n))
  {
    var ds := MakeSets(n);
    forall v | 1 <= v <= n
      ensures Component(ds, v) == {v}
    {
      assert FindSet(ds, v - 1) == v - 1;
    }
  }

  /** `Partitioned` holds after every prefix of the run whose merges each join two different sets. */
  lemma {:induction false} RunPartitioned(n: nat, x: seq<(nat, nat)>, k: nat)
    requires k <= |x| && Replay(n, x[..k]).Some?
    ensures Partitioned(Run(x, k).1, k, Replay(n, x[..k]).value)
  {
    if k == 0 {
      assert x[..0] == [];
      NoClustersPartitioned(n, |x|);
    } else {
      ReplayStep(n, x, k - 1);
      RunPartitioned(n, x, k - 1);
      RunStepPartitioned(n, x, k - 1);
    }
  }

  /** Step `k` of the run keeps `Partitioned`, for the replay one merge longer. */
  lemma RunStepPartitioned(n: nat, x: seq<(nat, nat)>, k: nat)
    requires k < |x| && Replay(n, x[..k + 1]).Some? && Replay(n, x[..k]).Some?
    requires Partitioned(Run(x, k).1, k, Replay(n, x[..k]).value)
    ensures Partitioned(Run(x, k + 1).1, k + 1, Replay(n, x[..k + 1]).value)
  {
    ReplayStep(n, x, k);
    var ds := Replay(n, x[..k]).value;
    RunLinkPartitioned(x, k, ds);
  }

  /** Step `k` of the run keeps `Partitioned`, for the partition with the sets of merge `k` linked. */
  lemma RunLinkPartitioned(x: seq<(nat, nat)>, k: nat, ds: DisjointSets)
    requires k < |x| && WellFormed(ds) && x[k].0 < |ds.rep| && x[k].1 < |ds.rep| && !Same(ds, x[k].0, x[k].1)
    requires Partitioned(Run(x, k).1, k, ds)
    ensures Partitioned(Run(x, k + 1).1, k + 1, Link(ds, FindSet(ds, x[k].0), FindSet(ds, x[k].1)))
  {
    StepPartitioned(Run(x, k).1, Run(x, k + 1).1, k, ds, x[k].0, x[k].1);
  }

  /**
   * For merges that each join two different sets (what `compute` produces), after
   * `k` steps the cluster the backward scan finds for the 1-based item `v` holds
   * exactly `v`'s set in the partition the first `k` merges build; an item the scan
   * does not find is still alone; and no other cluster holds `v`.
   */
  lemma RunClustersAreSets(n: nat, x: seq<(nat, nat)>, k: nat, v: nat)
    requires k <= |x| && Replay(n, x[..k]).Some? && 1 <= v <= n
    ensures var c := Run(x, k).1;
      var ds := Replay(n, x[..k]).value;
      && (LatestWith(c, k - 1, v) >= 0 ==> c[LatestWith(c, k - 1, v)] == Component(ds, v))
      && (LatestWith(c, k - 1, v) < 0 ==> Component(ds, v) == {v})
      && (forall s :: 0 <= s < |c| && v in c[s] ==> s == LatestWith(c, k - 1, v))
  {
    var c := Run(x, k).1;
    var ds := Replay(n, x[..k]).value;
    RunPartitioned(n, x, k);
    HeldComponent(c, k, ds, v);
    forall s | 0 <= s < |c| && v in c[s]
      ensures s == LatestWith(c, k - 1, v)
    {
      HeldOnlyThere(c, k, ds, v, v, s);
    }
  }

  /**
   * For merges that each join two different sets, every row joins two different
   * clusters: the row `(si + 1, si + 1)` a pair inside one cluster would get never arises.
   */
  lemma MergeRowsJoinTwo(n: nat, x: seq<(nat, nat)>, k: nat)
    requires k < |x| && Replay(n, x).Some?
    ensures MergeRows(x)[k].0 > 0 ==> MergeRows(x)[k].0 != MergeRows(x)[k].1
  {
    RunRow(x, |x|, k);
    ReplayMerge(n, x, k);
    RunPartitioned(n, x, k);
    StepJoinsTwo(Run(x, k).1, k, Replay(n, x[..k]).value, x[k].0, x[k].1);
  }

  /** A step on a merge of two different sets never names one earlier cluster twice. */
  lemma StepJoinsTwo(c: seq<set<nat>>, k: nat, ds: DisjointSets, a: nat, b: nat)
    requires k < |c| && Partitioned(c, k, ds)
    requires a < |ds.rep| && b < |ds.rep| && !Same(ds, a, b)
    ensures var row := Step(c, k, a + 1, b + 1).0;
      row.0 > 0 ==> row.0 != row.1
  {
    HeldComponent(c, k, ds, a + 1);
  }
}
