/**
 * Facts about sequences of item indices used throughout the model:
 * the identity permutation, distinctness, the items of a range and
 * a few cardinality bounds.
 */
module Sequences {

  /** `0, 1, ..., n-1`: the contents of `_indices` before the shuffle. */
  function Iota(n: nat): (s: seq<nat>)
    ensures |s| == n
    ensures forall k :: 0 <= k < n ==> s[k] == k
  {
    seq(n, k => k)
  }

  predicate Distinct<T(==)>(s: seq<T>)
  {
    forall k, l :: 0 <= k < l < |s| ==> s[k] != s[l]
  }

  /** A slice of a sequence without repetitions has none either. */
  lemma DistinctSlice<T>(s: seq<T>, lo: nat, hi: nat)
    requires Distinct(s) && lo <= hi <= |s|
    ensures Distinct(s[lo..hi])
  {
    forall k, l | 0 <= k < l < hi - lo
      ensures s[lo..hi][k] != s[lo..hi][l]
    {
      assert s[lo..hi][k] == s[lo + k] && s[lo..hi][l] == s[lo + l];
    }
  }

  /** The set of items stored at positions `[lo, hi)`. */
  function Items(s: seq<nat>, lo: nat, hi: nat): set<nat>
    requires lo <= hi <= |s|
  {
    set x | x in s[lo..hi]
  }

  /** A permutation of `0..n-1` holds every item below `n` and nothing else. */
  lemma AllItems(s: seq<nat>, n: nat)
    requires multiset(s) == multiset(Iota(n))
    ensures |s| == n
    ensures Items(s, 0, n) == set x | x in Iota(n)
  {
    PermutationOfIota(s, n);
    forall x: nat | x < n
      ensures x in Iota(n)
    {
      assert Iota(n)[x] == x;
    }
  }

  lemma MultisetIota(n: nat, x: nat)
    ensures multiset(Iota(n))[x] == if x < n then 1 else 0
  {
    if n > 0 {
      assert Iota(n) == Iota(n - 1) + [n - 1];
      MultisetIota(n - 1, x);
    }
  }

  /** Two equal entries at different positions occur at least twice in the multiset. */
  lemma RepeatedEntry<T>(s: seq<T>, k: nat, l: nat)
    requires k < l < |s| && s[k] == s[l]
    ensures multiset(s)[s[k]] >= 2
  {
    assert s == s[..l] + [s[l]] + s[l + 1..];
    assert s[k] in s[..l];
  }

  /** A sequence with the multiset of `Iota(n)` is a permutation of `0..n-1`. */
  lemma PermutationOfIota(s: seq<nat>, n: nat)
    requires multiset(s) == multiset(Iota(n))
    ensures |s| == n
    ensures Distinct(s)
    ensures forall k :: 0 <= k < |s| ==> s[k] < n
    ensures forall x: nat :: x in Items(s, 0, |s|) <==> x < n
  {
    assert |s| == |multiset(s)| == |multiset(Iota(n))| == n;
    forall k, l | 0 <= k < l < |s|
      ensures s[k] != s[l]
    {
      if s[k] == s[l] {
        RepeatedEntry(s, k, l);
        MultisetIota(n, s[k]);
        assert false;
      }
    }
    forall k | 0 <= k < |s|
      ensures s[k] < n
    {
      assert s[k] in multiset(s);
      MultisetIota(n, s[k]);
    }
    assert s[0..|s|] == s;
    forall x | x in Items(s, 0, |s|)
      ensures x < n
    {
      var k :| 0 <= k < |s| && s[k] == x;
    }
    forall x: nat | x < n
      ensures x in Items(s, 0, |s|)
    {
      MultisetIota(n, x);
      assert x in multiset(s);
      assert s[0..|s|] == s;
    }
    assert s[0..|s|] == s;
  }

  /** Permuting a range keeps the set of items it holds. */
  lemma ItemsOfPermutedRange(a: seq<nat>, b: seq<nat>, lo: nat, hi: nat)
    requires lo <= hi <= |a| && hi <= |b|
    requires multiset(a[lo..hi]) == multiset(b[lo..hi])
    ensures Items(a, lo, hi) == Items(b, lo, hi)
  {
    forall x | x in Items(a, lo, hi)
      ensures x in Items(b, lo, hi)
    {
      assert x in multiset(a[lo..hi]);
    }
    forall x | x in Items(b, lo, hi)
      ensures x in Items(a, lo, hi)
    {
      assert x in multiset(b[lo..hi]);
    }
  }

  /** When everything outside `[lo, hi)` is untouched, a whole-sequence permutation permutes the range. */
  lemma PermutedRange(a: seq<nat>, b: seq<nat>, lo: nat, hi: nat)
    requires lo <= hi <= |a| == |b|
    requires a[..lo] == b[..lo] && a[hi..] == b[hi..]
    requires multiset(a) == multiset(b)
    ensures multiset(a[lo..hi]) == multiset(b[lo..hi])
  {
    assert a == a[..lo] + a[lo..hi] + a[hi..];
    assert b == b[..lo] + b[lo..hi] + b[hi..];
    assert multiset(a) == multiset(a[..lo]) + multiset(a[lo..hi]) + multiset(a[hi..]);
    assert multiset(b) == multiset(b[..lo]) + multiset(b[lo..hi]) + multiset(b[hi..]);
    forall v
      ensures multiset(a[lo..hi])[v] == multiset(b[lo..hi])[v]
    {
      assert multiset(a)[v] == multiset(b)[v];
    }
  }

  lemma ItemsSplit(s: seq<nat>, lo: nat, mid: nat, hi: nat)
    requires lo <= mid <= hi <= |s|
    ensures Items(s, lo, hi) == Items(s, lo, mid) + Items(s, mid, hi)
  {
    assert s[lo..hi] == s[lo..mid] + s[mid..hi];
  }

  /** Items at disjoint ranges of a distinct sequence are disjoint. */
  lemma ItemsDisjoint(s: seq<nat>, lo1: nat, hi1: nat, lo2: nat, hi2: nat)
    requires Distinct(s)
    requires lo1 <= hi1 <= lo2 <= hi2 <= |s|
    ensures Items(s, lo1, hi1) !! Items(s, lo2, hi2)
  {
    forall x | x in Items(s, lo1, hi1)
      ensures x !in Items(s, lo2, hi2)
    {
      var k :| lo1 <= k < hi1 && s[k] == x;
      forall l | lo2 <= l < hi2
        ensures s[l] != x
      {
      }
    }
  }

  lemma SubsetCard<T>(a: set<T>, b: set<T>)
    requires a <= b
    ensures |a| <= |b|
  {
    if a != {} {
      var x :| x in a;
      SubsetCard(a - {x}, b - {x});
    }
  }

  /** A set of indices above `a` and below `n` has at most `n - a - 1` members. */
  lemma AboveCard(s: set<nat>, a: nat, n: nat)
    requires a < n
    requires forall x :: x in s ==> a < x < n
    ensures |s| <= n - a - 1
  {
    if n > a + 1 {
      AboveCard(s - {n - 1}, a, n - 1);
    } else {
      assert s == {};
    }
  }

  /** A sequence without repetitions has as many distinct members as entries. */
  lemma DistinctCard<T>(s: seq<T>)
    requires Distinct(s)
    ensures |set x | x in s| == |s|
  {
    if s != [] {
      var t := s[..|s| - 1];
      assert s == t + [s[|s| - 1]];
      assert Distinct(t);
      DistinctCard(t);
      assert (set x | x in s) == (set x | x in t) + {s[|s| - 1]};
      assert s[|s| - 1] !in t;
    }
  }

  /** Sequences that agree up to `L` agree on every range below `L`. */
  lemma PrefixSlice<T>(a: seq<T>, b: seq<T>, L: nat, lo: nat, hi: nat)
    requires L <= |a| && L <= |b| && a[..L] == b[..L]
    requires lo <= hi <= L
    ensures a[lo..hi] == b[lo..hi]
  {
    forall k | lo <= k < hi
      ensures a[k] == b[k]
    {
      assert a[k] == a[..L][k];
    }
  }

  /** Sequences that agree from `L` on agree on every range above `L`. */
  lemma SuffixSlice<T>(a: seq<T>, b: seq<T>, L: nat, lo: nat, hi: nat)
    requires |a| == |b| && L <= |a| && a[L..] == b[L..]
    requires L <= lo <= hi <= |a|
    ensures a[lo..hi] == b[lo..hi]
  {
    forall k | lo <= k < hi
      ensures a[k] == b[k]
    {
      assert a[k] == a[L..][k - L];
    }
  }

  /** Sequences that agree on `[lo, hi)` agree on every range inside it. */
  lemma InnerSlice<T>(a: seq<T>, b: seq<T>, lo: nat, hi: nat, lo': nat, hi': nat)
    requires hi <= |a| && hi <= |b| && lo <= hi && a[lo..hi] == b[lo..hi]
    requires lo <= lo' <= hi' <= hi
    ensures a[lo'..hi'] == b[lo'..hi']
  {
    forall k | lo' <= k < hi'
      ensures a[k] == b[k]
    {
      assert a[k] == a[lo..hi][k - lo];
    }
  }

  /** Permuting a range and leaving the rest alone permutes the whole sequence. */
  lemma PermutedWhole<T>(a: seq<T>, b: seq<T>, lo: nat, hi: nat)
    requires lo <= hi <= |a| == |b|
    requires a[..lo] == b[..lo] && a[hi..] == b[hi..]
    requires multiset(a[lo..hi]) == multiset(b[lo..hi])
    ensures multiset(a) == multiset(b)
  {
    assert a == a[..lo] + a[lo..hi] + a[hi..];
    assert b == b[..lo] + b[lo..hi] + b[hi..];
  }

  /** A range cut at three inner points is the concatenation of its four pieces. */
  lemma SplitFour<T>(s: seq<T>, lo: nat, a: nat, b: nat, c: nat, hi: nat)
    requires lo <= a <= b <= c <= hi <= |s|
    ensures s[lo..hi] == s[lo..a] + s[a..b] + s[b..c] + s[c..hi]
  {
    assert s[lo..c] == s[lo..a] + s[a..b] + s[b..c];
    assert s[lo..hi] == s[lo..c] + s[c..hi];
  }

  /** `b` rearranges `a` and differs from it only inside `[lo, hi)`. */
  ghost predicate PermutesWithin(a: seq<nat>, b: seq<nat>, lo: nat, hi: nat)
  {
    && |a| == |b|
    && multiset(a) == multiset(b)
    && (forall k :: 0 <= k < |a| && !(lo <= k < hi) ==> a[k] == b[k])
  }

  /** Two rearrangements inside `[lo, hi)` make one. */
  lemma PermutesWithinTrans(a: seq<nat>, b: seq<nat>, c: seq<nat>, lo: nat, hi: nat, lo': nat, hi': nat, lo'': nat, hi'': nat)
    requires PermutesWithin(a, b, lo', hi') && PermutesWithin(b, c, lo'', hi'')
    requires lo <= lo' && hi' <= hi && lo <= lo'' && hi'' <= hi
    ensures PermutesWithin(a, c, lo, hi)
  {
  }

  /** A rearrangement inside `[lo, hi)` rearranges that range and leaves every range outside it alone. */
  lemma PermutesWithinRange(a: seq<nat>, b: seq<nat>, lo: nat, hi: nat)
    requires PermutesWithin(a, b, lo, hi) && lo <= hi <= |a|
    ensures multiset(a[lo..hi]) == multiset(b[lo..hi])
    ensures Items(a, lo, hi) == Items(b, lo, hi)
  {
    assert a[..lo] == b[..lo];
    assert a[hi..] == b[hi..];
    PermutedRange(a, b, lo, hi);
    ItemsOfPermutedRange(a, b, lo, hi);
  }

  /** A rearrangement inside `[lo, hi)` leaves `[lo', hi')` alone when the two ranges do not overlap. */
  lemma PermutesWithinOutside(a: seq<nat>, b: seq<nat>, lo: nat, hi: nat, lo': nat, hi': nat)
    requires PermutesWithin(a, b, lo, hi) && lo' <= hi' <= |a|
    requires hi' <= lo || hi <= lo'
    ensures a[lo'..hi'] == b[lo'..hi']
  {
  }

  /** Exchanging two entries inside `[lo, hi)` is a rearrangement inside it. */
  lemma SwapPermutes(a: seq<nat>, b: seq<nat>, i: nat, j: nat, lo: nat, hi: nat)
    requires lo <= i < hi && lo <= j < hi && hi <= |a|
    requires b == a[i := a[j]][j := a[i]]
    ensures PermutesWithin(a, b, lo, hi)
  {
    var c := a[i := a[j]];
    assert multiset(c) == multiset(a) - multiset{a[i]} + multiset{a[j]};
    assert multiset(b) == multiset(c) - multiset{c[j]} + multiset{a[i]};
  }
}
