/**
 * The unordered pair of item indices that keys the distance cache:
 * `SortedPoint(a, b)` stores the smaller index first.
 */
module SortedPoints {

  datatype SortedPoint = SortedPoint(i: nat, j: nat)

  /** The two-argument constructor: swaps the arguments when the second is smaller. */
  function MakeSortedPoint(a: nat, b: nat): (p: SortedPoint)
    ensures p.i <= p.j
    ensures {p.i, p.j} == {a, b}
    ensures p.i == a || p.i == b
    ensures p.j == a || p.j == b
  {
    if b < a then SortedPoint(b, a) else SortedPoint(a, b)
  }

  /** Both argument orders give the same key. */
  lemma MakeSortedPointSymmetric(a: nat, b: nat)
    ensures MakeSortedPoint(a, b) == MakeSortedPoint(b, a)
  {
  }

  /** The key determines the unordered pair: two keys are equal exactly when their pairs are. */
  lemma MakeSortedPointInjective(a: nat, b: nat, c: nat, d: nat)
    ensures MakeSortedPoint(a, b) == MakeSortedPoint(c, d) <==> {a, b} == {c, d}
  {
    var p, q := MakeSortedPoint(a, b), MakeSortedPoint(c, d);
    if {a, b} == {c, d} {
      assert a in {c, d} && b in {c, d} && c in {a, b} && d in {a, b};
    }
  }
}
