/**
 * The memoising distance oracle (`Distance::operator()`).
 *
 * The user's distance callback is modelled as a total function on item
 * indices; the R call that evaluates it is not part of this model.
 */
module DistanceOracle {
  import opened SortedPoints

  type Callback = (nat, nat) -> real

  /** The distance the oracle reports: 0 on the diagonal, the callback elsewhere. */
  function Dist(f: Callback, a: nat, b: nat): real
  {
    if a == b then 0.0 else f(a, b)
  }

  ghost predicate Symmetric(f: Callback)
  {
    forall a, b :: f(a, b) == f(b, a)
  }

  /** The triangle inequality at one triple; kept behind a name so it is used only where asked for. */
  ghost predicate Triangle(f: Callback, a: nat, b: nat, c: nat)
  {
    Dist(f, a, c) <= Dist(f, a, b) + Dist(f, b, c)
  }

  /** What the vantage-point search relies on: a non-negative, symmetric distance obeying the triangle inequality. */
  ghost predicate IsMetric(f: Callback)
  {
    && (forall a, b :: f(a, b) >= 0.0)
    && Symmetric(f)
    && (forall a, b, c :: Triangle(f, a, b, c))
  }

  lemma TriangleAt(f: Callback, a: nat, b: nat, c: nat)
    requires IsMetric(f)
    ensures Dist(f, a, c) <= Dist(f, a, b) + Dist(f, b, c)
  {
    assert Triangle(f, a, b, c);
  }

  lemma DistSymmetric(f: Callback, a: nat, b: nat)
    requires Symmetric(f)
    ensures Dist(f, a, b) == Dist(f, b, a)
  {
  }

  function Store(m: map<nat, real>, key: nat, value: real): map<nat, real>
  {
    m[key := value]
  }

  class Distance {
    const callback: Callback
    /** The number of items, `items->size()`. */
    const size: nat
    /** `hashmap[i][j]`, for `i < j`, caches the distance of the unordered pair `{i, j}`. */
    var hashmap: seq<map<nat, real>>
    var hashmapHit: nat
    var hashmapMiss: nat

    /** Every cached value is the callback's value on its pair, in one argument order or the other. */
    ghost predicate Valid()
      reads this
    {
      && |hashmap| == size
      && forall i, j :: 0 <= i < |hashmap| && j in hashmap[i] ==>
           i < j < size && (hashmap[i][j] == callback(i, j) || hashmap[i][j] == callback(j, i))
    }

    constructor (size: nat, callback: Callback)
      ensures Valid()
      ensures this.size == size && this.callback == callback
      ensures hashmap == seq(size, _ => map[])
      ensures hashmapHit == 0 && hashmapMiss == 0
    {
      this.size := size;
      this.callback := callback;
      hashmap := seq(size, _ => map[]);
      hashmapHit, hashmapMiss := 0, 0;
    }

    /**
     * `operator()(v1, v2)`: 0 for `v1 == v2` without touching the cache; otherwise the
     * cached value under `hashmap[min][max]` (a hit), or the callback's value, which is
     * then stored there (a miss).
     */
    method Call(v1: nat, v2: nat) returns (d: real)
      requires Valid() && v1 < size && v2 < size
      modifies this
      ensures Valid()
      ensures v1 == v2 ==> d == 0.0 && unchanged(this)
      ensures v1 != v2 ==>
        var p := MakeSortedPoint(v1, v2);
        if p.j in old(hashmap[p.i]) then
          && d == old(hashmap[p.i][p.j])
          && hashmap == old(hashmap)
          && hashmapHit == old(hashmapHit) + 1 && hashmapMiss == old(hashmapMiss)
        else
          && d == callback(v1, v2)
          && hashmap == old(hashmap)[p.i := Store(old(hashmap[p.i]), p.j, d)]
          && hashmapHit == old(hashmapHit) && hashmapMiss == old(hashmapMiss) + 1
      ensures forall i, j :: 0 <= i < size && j in old(hashmap[i]) ==>
        j in hashmap[i] && hashmap[i][j] == old(hashmap[i][j])
      ensures Symmetric(callback) ==> d == Dist(callback, v1, v2)
    {
      if v1 == v2 {
        return 0.0;
      }
      var p := MakeSortedPoint(v1, v2);
      if p.j !in hashmap[p.i] {
        hashmapMiss := hashmapMiss + 1;
        d := callback(v1, v2);
        hashmap := hashmap[p.i := Store(hashmap[p.i], p.j, d)];
      } else {
        hashmapHit := hashmapHit + 1;
        d := hashmap[p.i][p.j];
      }
    }
  }
}
