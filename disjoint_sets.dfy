/**
 * The disjoint-set forest (`boost::disjoint_sets`) as an abstract partition:
 * `rep[x]` is the representative `find_set(x)` returns. Path compression and
 * union by rank are not modelled; `Link(s1, s2)` keeps `s2` as the representative.
 */
module DisjointSets {
  import opened Wrappers
  import opened Sequences

  datatype DisjointSets = DisjointSets(rep: seq<nat>)

  /** Every representative is an item and represents itself. */
  ghost predicate WellFormed(ds: DisjointSets)
  {
    forall x :: 0 <= x < |ds.rep| ==> ds.rep[x] < |ds.rep| && ds.rep[ds.rep[x]] == ds.rep[x]
  }

  function FindSet(ds: DisjointSets, x: nat): nat
    requires x < |ds.rep|
  {
    ds.rep[x]
  }

  predicate Same(ds: DisjointSets, x: nat, y: nat)
    requires x < |ds.rep| && y < |ds.rep|
  {
    FindSet(ds, x) == FindSet(ds, y)
  }

  /** The representatives, one per set. */
  function Roots(ds: DisjointSets): set<nat>
  {
    set x | 0 <= x < |ds.rep| && ds.rep[x] == x
  }

  /** The number of sets. */
  function Count(ds: DisjointSets): nat
  {
    |Roots(ds)|
  }

  /** `make_set(i)` for every `i < n`: n singleton sets. */
  function MakeSets(n: nat): (ds: DisjointSets)
    ensures WellFormed(ds) && |ds.rep| == n
    ensures forall x :: 0 <= x < n ==> FindSet(ds, x) == x
    ensures Count(ds) == n
  {
    var ds := DisjointSets(Iota(n));
    forall x | x in Iota(n)
      ensures x in Roots(ds)
    {
      var k :| 0 <= k < n && Iota(n)[k] == x;
    }
    forall x | x in Roots(ds)
      ensures x in Iota(n)
    {
      assert Iota(n)[x] == x;
    }
    assert Roots(ds) == set x: nat | x in Iota(n);
    DistinctCard(Iota(n));
    assert |set x: nat | x in Iota(n)| == n;
    assert Count(ds) == |Roots(ds)|;
    ds
  }

  /** `link(s1, s2)` on two representatives: every member of `s1`'s set moves to `s2`'s. */
  function Link(ds: DisjointSets, s1: nat, s2: nat): (r: DisjointSets)
    requires WellFormed(ds)
    requires s1 < |ds.rep| && s2 < |ds.rep|
    requires FindSet(ds, s1) == s1 && FindSet(ds, s2) == s2
    ensures WellFormed(r) && |r.rep| == |ds.rep|
    ensures forall x, y :: 0 <= x < |ds.rep| && 0 <= y < |ds.rep| ==>
      (Same(r, x, y) <==>
        || Same(ds, x, y)
        || (FindSet(ds, x) == s1 && FindSet(ds, y) == s2)
        || (FindSet(ds, x) == s2 && FindSet(ds, y) == s1))
  {
    DisjointSets(seq(|ds.rep|, x requires 0 <= x < |ds.rep| => if ds.rep[x] == s1 then s2 else ds.rep[x]))
  }

  /** Linking two different sets leaves one set fewer. */
  lemma LinkCount(ds: DisjointSets, s1: nat, s2: nat)
    requires WellFormed(ds)
    requires s1 < |ds.rep| && s2 < |ds.rep|
    requires FindSet(ds, s1) == s1 && FindSet(ds, s2) == s2
    requires s1 != s2
    ensures Count(Link(ds, s1, s2)) == Count(ds) - 1
  {
    var r := Link(ds, s1, s2);
    assert Roots(r) == Roots(ds) - {s1};
    assert s1 in Roots(ds);
  }

  /** Linking never separates items that were together. */
  lemma LinkCoarsens(ds: DisjointSets, s1: nat, s2: nat, x: nat, y: nat)
    requires WellFormed(ds)
    requires s1 < |ds.rep| && s2 < |ds.rep|
    requires FindSet(ds, s1) == s1 && FindSet(ds, s2) == s2
    requires x < |ds.rep| && y < |ds.rep|
    ensures Same(ds, x, y) ==> Same(Link(ds, s1, s2), x, y)
    ensures FindSet(ds, x) == s1 && FindSet(ds, y) == s2 ==> Same(Link(ds, s1, s2), x, y)
  {
  }

  /** When every item shares the set of item 0, there is exactly one set. */
  lemma SingleSet(ds: DisjointSets)
    requires WellFormed(ds) && |ds.rep| > 0
    requires forall x :: 0 <= x < |ds.rep| ==> Same(ds, x, 0)
    ensures Count(ds) == 1
  {
    forall x | x in Roots(ds)
      ensures x == ds.rep[0]
    {
      assert Same(ds, x, 0);
    }
    assert ds.rep[0] in Roots(ds);
    assert Roots(ds) == {ds.rep[0]};
  }

  /**
   * The partition after committing `merges` in order, starting from singletons,
   * or None when a merge names an item outside `0..n-1` or two items already in one set.
   */
  function Replay(n: nat, merges: seq<(nat, nat)>): (r: Option<DisjointSets>)
    ensures r.Some? ==> WellFormed(r.value) && |r.value.rep| == n
    ensures r.Some? ==> Count(r.value) + |merges| == n
  {
    if merges == [] then Some(MakeSets(n))
    else
      match Replay(n, merges[..|merges| - 1])
      case None => None
      case Some(ds) =>
        var (a, b) := merges[|merges| - 1];
        if a < n && b < n && FindSet(ds, a) != FindSet(ds, b) then
          LinkCount(ds, FindSet(ds, a), FindSet(ds, b));
          Some(Link(ds, FindSet(ds, a), FindSet(ds, b)))
        else
          None
  }
}
