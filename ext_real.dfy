/**
 * Reals extended with the two infinities the search uses as initial radii:
 * `minRadiuses` start at -INFINITY and the search radius `maxR` at +INFINITY.
 */
module ExtReals {

  datatype ExtReal = NegInf | Fin(v: real) | PosInf

  /** The order of the extended reals. */
  predicate Le(a: ExtReal, b: ExtReal)
  {
    match (a, b)
    case (NegInf, _) => true
    case (_, PosInf) => true
    case (Fin(x), Fin(y)) => x <= y
    case _ => false
  }

  predicate Lt(a: ExtReal, b: ExtReal)
  {
    Le(a, b) && a != b
  }

  lemma LeTotal(a: ExtReal, b: ExtReal)
    ensures Le(a, b) || Le(b, a)
    ensures Le(a, b) && Le(b, a) ==> a == b
  {
  }

  lemma LeTrans(a: ExtReal, b: ExtReal, c: ExtReal)
    requires Le(a, b) && Le(b, c)
    ensures Le(a, c)
  {
  }

  /** `x - r <= radius` for a finite `x` and a radius `r` that is finite or +INFINITY. */
  predicate MinusLe(x: real, r: ExtReal, radius: real)
    requires r != NegInf
  {
    r.PosInf? || x - r.v <= radius
  }

  /** `x + r >= radius` for a finite `x` and a radius `r` that is finite or +INFINITY. */
  predicate PlusGe(x: real, r: ExtReal, radius: real)
    requires r != NegInf
  {
    r.PosInf? || x + r.v >= radius
  }
}
