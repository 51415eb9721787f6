/** Reals extended with the two infinities: the `math.inf` / `-math.inf`
    values that the search threshold and the 2D-tree region bounds take. */
module ExtendedReal {

  datatype ExtReal = NegInf | Fin(r: real) | PosInf

  /** Python's `<` on floats that may be infinite: a strict total order
      that agrees with `<` on finite values, with `-inf` below and `inf`
      above every finite value. */
  predicate Less(a: ExtReal, b: ExtReal)
    ensures a.Fin? && b.Fin? ==> (Less(a, b) <==> a.r < b.r)
    ensures Less(a, b) ==> a != PosInf && b != NegInf
    ensures a == NegInf && b != NegInf ==> Less(a, b)
    ensures a != PosInf && b == PosInf ==> Less(a, b)
  {
    match (a, b)
    case (NegInf, NegInf) => false
    case (NegInf, _) => true
    case (Fin(x), Fin(y)) => x < y
    case (Fin(_), PosInf) => true
    case (_, _) => false
  }

  /** Exactly one of `a < b`, `a == b` and `b < a` holds. */
  lemma LessTrichotomy(a: ExtReal, b: ExtReal)
    ensures Less(a, b) ==> !Less(b, a) && a != b
    ensures Less(a, b) || a == b || Less(b, a)
  {
  }

  /** Python's `<=` on floats that may be infinite. */
  predicate AtMost(a: ExtReal, b: ExtReal)
  {
    a == b || Less(a, b)
  }

  /** `<=` chains. */
  lemma AtMostTransitive(a: ExtReal, b: ExtReal, c: ExtReal)
    requires AtMost(a, b) && AtMost(b, c)
    ensures AtMost(a, c)
  {
  }
}
