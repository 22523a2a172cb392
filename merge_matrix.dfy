/**
 * `generateMergeMatrix`: the merges of `compute`, given as pairs of 0-based items,
 * rewritten in R's `hclust` convention. Row `k` names the two clusters merged at
 * step `k`: `-v` for the singleton of the 1-based item `v`, and `s + 1` for the
 * cluster made at step `s`. `curclust[s]` holds the 1-based members of the
 * cluster made at step `s` until a later step absorbs it.
 */
module MergeMatrix {

  /** The last of the clusters `c[0..s]` holding `v`, searching down from `s`; -1 (`SIZE_MAX`) when none does. */
  function LatestWith(c: seq<set<nat>>, s: int, v: nat): (r: int)
    requires -1 <= s < |c|
    ensures -1 <= r <= s
    ensures r >= 0 ==> v in c[r]
    decreases s + 1
  {
    if s < 0 then -1
    else if v in c[s] then s
    else LatestWith(c, s - 1, v)
  }

  /** Step `k` on the 1-based pair `(i, j)`: the row written and the clusters afterwards. */
  function Step(c: seq<set<nat>>, k: nat, i: nat, j: nat): (r: ((int, int), seq<set<nat>>))
    requires k < |c| && i >= 1 && j >= 1
    ensures |r.1| == |c|
    ensures r.0.0 < 0 <==> LatestWith(c, k - 1, i) < 0
    ensures r.0.0 < 0 ==> r.0.0 == -(i as int)
    ensures r.0.0 >= 0 ==> 1 <= r.0.0 <= k && i in c[r.0.0 - 1]
    ensures r.0.1 < 0 <==> LatestWith(c, k - 1, j) < 0
    ensures r.0.1 < 0 ==> r.0.1 == -(j as int)
    ensures r.0.1 >= 0 ==> 1 <= r.0.1 <= k && j in c[r.0.1 - 1]
  {
    var si := LatestWith(c, k - 1, i);
    var sj := LatestWith(c, k - 1, j);
    if si < 0 && sj < 0 then
      ((-(i as int), -(j as int)), c[k := c[k] + {i, j}])
    else if si < 0 then
      ((-(i as int), sj + 1), c[k := c[k] + c[sj] + {i}][sj := {}])
    else if sj < 0 then
      ((si + 1, -(j as int)), c[k := c[k] + c[si] + {j}][si := {}])
    else
      ((si + 1, sj + 1), c[k := c[k] + c[si] + c[sj]][si := {}][sj := {}])
  }

  /** `curclust` as allocated: `m` empty clusters. */
  function NoClusters(m: nat): (c: seq<set<nat>>)
    ensures |c| == m && forall t :: 0 <= t < m ==> c[t] == {}
  {
    if m == 0 then [] else NoClusters(m - 1) + [{}]
  }

  /** The rows and the clusters after the first `k` steps over `x`. */
  function Run(x: seq<(nat, nat)>, k: nat): (r: (seq<(int, int)>, seq<set<nat>>))
    requires k <= |x|
    ensures |r.0| == k && |r.1| == |x|
  {
    if k == 0 then
      ([], NoClusters(|x|))
    else
      var (rows, c) := Run(x, k - 1);
      var (row, c') := Step(c, k - 1, x[k - 1].0 + 1, x[k - 1].1 + 1);
      (rows + [row], c')
  }

  /** The merge matrix of `x`. */
  function MergeRows(x: seq<(nat, nat)>): (y: seq<(int, int)>)
    ensures |y| == |x|
  {
    Run(x, |x|).0
  }

  /** Row `t` of the rows after `k` steps is the row written by step `t`. */
  lemma {:induction false} RunRow(x: seq<(nat, nat)>, k: nat, t: nat)
    requires t < k <= |x|
    ensures Run(x, k).0[t] == Step(Run(x, t).1, t, x[t].0 + 1, x[t].1 + 1).0
    decreases k
  {
    if t < k - 1 {
      RunRow(x, k - 1, t);
    }
  }

  /** The pair `p` of 0-based items names the 1-based item `v`. */
  predicate Names(p: (nat, nat), v: nat)
  {
    p.0 + 1 == v || p.1 + 1 == v
  }

  /** The last of the merges `x[0..s]` naming `v`, searching down from `s`; -1 when none does. */
  function LastNaming(x: seq<(nat, nat)>, s: int, v: nat): (r: int)
    requires -1 <= s < |x|
    ensures -1 <= r <= s
    ensures r >= 0 ==> Names(x[r], v)
    decreases s + 1
  {
    if s < 0 then -1
    else if Names(x[s], v) then s
    else LastNaming(x, s - 1, v)
  }

  /** After `k` steps the clusters hold exactly the items the first `k` merges name. */
  ghost predicate Tracks(x: seq<(nat, nat)>, k: nat, c: seq<set<nat>>)
    requires k <= |x| == |c|
  {
    && (forall s, v :: 0 <= s < |c| && v in c[s] ==> s < k && LastNaming(x, k - 1, v) >= 0)
    && (forall v :: NamedBy(x, k, v) ==> HeldBy(c, k, v))
  }

  /** One of the first `k` merges names `v`. */
  predicate NamedBy(x: seq<(nat, nat)>, k: nat, v: nat)
    requires k <= |x|
  {
    LastNaming(x, k - 1, v) >= 0
  }

  /** One of the first `k` clusters holds `v`. */
  predicate HeldBy(c: seq<set<nat>>, k: nat, v: nat)
    requires k <= |c|
  {
    LatestWith(c, k - 1, v) >= 0
  }

  /** An item in a cluster after step `k` is `i`, `j`, or was in that cluster or in one step `k` absorbed. */
  lemma StepSource(c: seq<set<nat>>, k: nat, i: nat, j: nat, s: nat, v: nat)
    requires k < |c| && i >= 1 && j >= 1 && s < |c| && v in Step(c, k, i, j).1[s]
    ensures s != k ==> v in c[s]
    ensures s == k && v != i && v != j ==>
      || v in c[k]
      || (LatestWith(c, k - 1, i) >= 0 && v in c[LatestWith(c, k - 1, i)])
      || (LatestWith(c, k - 1, j) >= 0 && v in c[LatestWith(c, k - 1, j)])
  {
  }

  /** An item held by a cluster made before step `k` is still held by one made up to step `k`. */
  lemma StepHolds(c: seq<set<nat>>, k: nat, i: nat, j: nat, v: nat)
    requires k < |c| && i >= 1 && j >= 1 && LatestWith(c, k - 1, v) >= 0
    ensures LatestWith(Step(c, k, i, j).1, k, v) >= 0
  {
    var s := LatestWith(c, k - 1, v);
    var c' := Step(c, k, i, j).1;
    var s' := if s == LatestWith(c, k - 1, i) || s == LatestWith(c, k - 1, j) then k else s;
    assert v in c'[s'];
    HeldFound(c', k, s', v);
  }

  /** The backward scan from `s` finds any cluster at or below `s` holding `v`, or a later one. */
  lemma HeldFound(c: seq<set<nat>>, s: int, s0: nat, v: nat)
    requires -1 <= s < |c| && s0 <= s && v in c[s0]
    ensures LatestWith(c, s, v) >= s0
  {
  }

  /** The search for a merge naming `v` finds any such merge at or below `s`, or a later one. */
  lemma NamingFound(x: seq<(nat, nat)>, s: int, t: nat, v: nat)
    requires -1 <= s < |x| && t <= s && Names(x[t], v)
    ensures LastNaming(x, s, v) >= t
  {
  }

  /** Step `k` keeps the clusters equal to the named items, now including `i` and `j`. */
  lemma StepTracks(x: seq<(nat, nat)>, k: nat, c: seq<set<nat>>)
    requires k < |x| == |c| && Tracks(x, k, c)
    ensures Tracks(x, k + 1, Step(c, k, x[k].0 + 1, x[k].1 + 1).1)
  {
    var i, j := x[k].0 + 1, x[k].1 + 1;
    var c' := Step(c, k, i, j).1;
    forall s, v | 0 <= s < |c'| && v in c'[s]
      ensures s < k + 1 && LastNaming(x, k, v) >= 0
    {
      StepNamed(x, k, c, s, v);
    }
    var k' := k + 1;
    forall v | NamedBy(x, k', v)
      ensures HeldBy(c', k', v)
    {
      var t := LastNaming(x, k, v);
      if t == k {
        assert v in c'[k];
        HeldFound(c', k, k, v);
      } else {
        NamingFound(x, k - 1, t, v);
        assert NamedBy(x, k, v);
        StepHolds(c, k, i, j, v);
      }
    }
  }

  /** After step `k`, an item in a cluster is named by one of the first `k + 1` merges, and the cluster is made by then. */
  lemma StepNamed(x: seq<(nat, nat)>, k: nat, c: seq<set<nat>>, s: nat, v: nat)
    requires k < |x| == |c| && Tracks(x, k, c)
    requires s < |c| && v in Step(c, k, x[k].0 + 1, x[k].1 + 1).1[s]
    ensures s < k + 1 && LastNaming(x, k, v) >= 0
  {
    var i, j := x[k].0 + 1, x[k].1 + 1;
    StepSource(c, k, i, j, s, v);
    if s != k {
      assert v in c[s];
    }
    if Names(x[k], v) {
      NamingFound(x, k, k, v);
    } else {
      var si := LatestWith(c, k - 1, i);
      var sj := LatestWith(c, k - 1, j);
      var s0 := if s != k || v in c[k] then s else if si >= 0 && v in c[si] then si else sj;
      assert v in c[s0];
      NamingFound(x, k, LastNaming(x, k - 1, v), v);
    }
  }

  /** Every prefix of the run tracks the items its merges name. */
  lemma {:induction false} RunTracks(x: seq<(nat, nat)>, k: nat)
    requires k <= |x|
    ensures Tracks(x, k, Run(x, k).1)
  {
    if k == 0 {
      NoClustersTrack(x);
    } else {
      RunTracks(x, k - 1);
      RunStepTracks(x, k - 1);
    }
  }

  /** Step `k` of the run keeps `Tracks`. */
  lemma RunStepTracks(x: seq<(nat, nat)>, k: nat)
    requires k < |x| && Tracks(x, k, Run(x, k).1)
    ensures Tracks(x, k + 1, Run(x, k + 1).1)
  {
    var c := Run(x, k).1;
    StepTracks(x, k, c);
    assert Run(x, k + 1).1 == Step(c, k, x[k].0 + 1, x[k].1 + 1).1;
  }

  /** Before any step no cluster holds anything and no merge names anything. */
  lemma NoClustersTrack(x: seq<(nat, nat)>)
    ensures Tracks(x, 0, NoClusters(|x|))
  {
  }

  /**
   * The R `merge` convention: the first entry of row `k` is the singleton `-v` of the
   * 1-based item `v` exactly when no earlier merge names `v`, and otherwise the 1-based
   * number of an earlier row; likewise the second entry.
   */
  lemma MergeRowsConvention(x: seq<(nat, nat)>, k: nat)
    requires k < |x|
    ensures var row := MergeRows(x)[k];
      && (row.0 < 0 <==> forall t :: 0 <= t < k ==> !Names(x[t], x[k].0 + 1))
      && (row.0 < 0 ==> row.0 == -(x[k].0 as int + 1))
      && (row.0 > 0 ==> row.0 <= k)
      && (row.1 < 0 <==> forall t :: 0 <= t < k ==> !Names(x[t], x[k].1 + 1))
      && (row.1 < 0 ==> row.1 == -(x[k].1 as int + 1))
      && (row.1 > 0 ==> row.1 <= k)
  {
    RunRow(x, |x|, k);
    RunTracks(x, k);
    StepRowConvention(x, k, Run(x, k).1);
  }

  /** The row step `k` writes from clusters that track the first `k` merges follows the R convention. */
  lemma StepRowConvention(x: seq<(nat, nat)>, k: nat, c: seq<set<nat>>)
    requires k < |x| == |c| && Tracks(x, k, c)
    ensures var row := Step(c, k, x[k].0 + 1, x[k].1 + 1).0;
      && (row.0 < 0 <==> forall t :: 0 <= t < k ==> !Names(x[t], x[k].0 + 1))
      && (row.0 < 0 ==> row.0 == -(x[k].0 as int + 1))
      && (row.0 > 0 ==> row.0 <= k)
      && (row.1 < 0 <==> forall t :: 0 <= t < k ==> !Names(x[t], x[k].1 + 1))
      && (row.1 < 0 ==> row.1 == -(x[k].1 as int + 1))
      && (row.1 > 0 ==> row.1 <= k)
  {
    NamedIffHeld(x, k, c, x[k].0 + 1);
    NamedIffHeld(x, k, c, x[k].1 + 1);
  }

  /** Under `Tracks`, an item is held by an earlier cluster exactly when an earlier merge names it. */
  lemma NamedIffHeld(x: seq<(nat, nat)>, k: nat, c: seq<set<nat>>, v: nat)
    requires k <= |x| == |c| && Tracks(x, k, c)
    ensures LatestWith(c, k - 1, v) >= 0 <==> exists t :: 0 <= t < k && Names(x[t], v)
  {
    var r := LatestWith(c, k - 1, v);
    if r >= 0 {
      var t := LastNaming(x, k - 1, v);
      assert Names(x[t], v);
    }
    if exists t :: 0 <= t < k && Names(x[t], v) {
      var t :| 0 <= t < k && Names(x[t], v);
      NamingFound(x, k - 1, t, v);
      assert NamedBy(x, k, v);
    }
  }

  /** The backward scan of step `k`: from `s` down, the first cluster holding `v`, or -1. */
  method ScanBack(curclust: array<set<nat>>, s: int, v: nat) returns (r: int)
    requires -1 <= s < curclust.Length
    ensures r == LatestWith(curclust[..], s, v)
  {
    r := s;
    while r != -1 && v !in curclust[r]
      invariant -1 <= r <= s
      invariant LatestWith(curclust[..], r, v) == LatestWith(curclust[..], s, v)
    {
      r := r - 1;
    }
  }

  /**
   * Step `k` of `generateMergeMatrix` on the 1-based pair `(i, j)`: the row it writes,
   * with `curclust[k]` gaining the members of the clusters it names, which are cleared.
   */
  method MergeRow(curclust: array<set<nat>>, k: nat, i: nat, j: nat) returns (row: (int, int))
    requires k < curclust.Length && i >= 1 && j >= 1
    modifies curclust
    ensures (row, curclust[..]) == Step(old(curclust[..]), k, i, j)
  {
    var si := ScanBack(curclust, k - 1, i);
    var sj := ScanBack(curclust, k - 1, j);
    if si == -1 && sj == -1 {
      curclust[k] := curclust[k] + {i, j};
      row := (-(i as int), -(j as int));
    } else if si == -1 && sj != -1 {
      curclust[k] := curclust[k] + curclust[sj] + {i};
      curclust[sj] := {};
      row := (-(i as int), sj + 1);
    } else if si != -1 && sj == -1 {
      curclust[k] := curclust[k] + curclust[si] + {j};
      curclust[si] := {};
      row := (si + 1, -(j as int));
    } else {
      curclust[k] := curclust[k] + curclust[si] + curclust[sj];
      curclust[si] := {};
      curclust[sj] := {};
      row := (si + 1, sj + 1);
    }
  }

  /** One turn of the loop of `generateMergeMatrix`: row `k` is written and the clusters become those after `k + 1` steps. */
  method EmitRow(x: seq<(nat, nat)>, rows: array<(int, int)>, curclust: array<set<nat>>, k: nat)
    requires k < |x| == rows.Length == curclust.Length
    requires (rows[..k], curclust[..]) == Run(x, k)
    modifies rows, curclust
    ensures (rows[..k + 1], curclust[..]) == Run(x, k + 1)
  {
    RunSnoc(x, k);
    var row := MergeRow(curclust, k, x[k].0 + 1, x[k].1 + 1);
    rows[k] := row;
    assert rows[..k + 1] == rows[..k] + [row];
  }

  /** The run over `k + 1` merges is the run over `k` followed by step `k`. */
  lemma RunSnoc(x: seq<(nat, nat)>, k: nat)
    requires k < |x|
    ensures var (rows, c) := Run(x, k);
      var (row, c') := Step(c, k, x[k].0 + 1, x[k].1 + 1);
      Run(x, k + 1) == (rows + [row], c')
  {
  }

  /**
   * `generateMergeMatrix(x)` on the `n - 1` merges of `compute`: for each row the
   * latest earlier cluster holding each item is found by a backward scan, and the
   * clusters it names are absorbed into the new one.
   */
  method GenerateMergeMatrix(x: seq<(nat, nat)>) returns (y: seq<(int, int)>)
    ensures y == MergeRows(x)
  {
    var m := |x|;
    var rows := new (int, int)[m](_ => (0, 0));
    var curclust := new set<nat>[m](_ => {});
    assert curclust[..] == NoClusters(m);
    assert rows[..0] == [];
    var k := 0;
    while k < m
      invariant 0 <= k <= m
      invariant (rows[..k], curclust[..]) == Run(x, k)
    {
      EmitRow(x, rows, curclust, k);
      k := k + 1;
    }
    y := rows[..];
  }
}
