/**
 * Extended reals as the fitting layer's floating-point values take them:
 * finite values, the two infinities and not-a-number. Addition and the
 * two-element mean follow the special-value rules of IEEE 754-2008
 * (section 7.2: the sum of opposite infinities is an invalid operation and
 * gives NaN); every ordered comparison involving NaN is false.
 * Rounding is not modelled: finite arithmetic is exact.
 */
module ExtReal {

  datatype Ext = Fin(x: real) | PosInf | NegInf | NaN

  /** IEEE addition on special values, exact on finite ones. */
  function Add(a: Ext, b: Ext): (r: Ext)
    ensures a.NaN? || b.NaN? ==> r.NaN?
    ensures (a == PosInf && b == NegInf) || (a == NegInf && b == PosInf) ==> r.NaN?
    ensures a == Fin(0.0) ==> r == b
    ensures b == Fin(0.0) ==> r == a
  {
    match (a, b)
    case (NaN, _) => NaN
    case (_, NaN) => NaN
    case (PosInf, NegInf) => NaN
    case (NegInf, PosInf) => NaN
    case (PosInf, _) => PosInf
    case (_, PosInf) => PosInf
    case (NegInf, _) => NegInf
    case (_, NegInf) => NegInf
    case (Fin(p), Fin(q)) => Fin(p + q)
  }

  /** The mean of a two-element vector, as a mean along axis 0 computes it. */
  function Mean(a: Ext, b: Ext): (m: Ext)
    ensures m.NaN? <==> a.NaN? || b.NaN? || (a == PosInf && b == NegInf) || (a == NegInf && b == PosInf)
    ensures m == PosInf <==> (a == PosInf && !b.NaN? && b != NegInf) || (b == PosInf && !a.NaN? && a != NegInf)
    ensures m == NegInf <==> (a == NegInf && !b.NaN? && b != PosInf) || (b == NegInf && !a.NaN? && a != PosInf)
    ensures a.Fin? && b.Fin? ==> m == Fin((a.x + b.x) / 2.0)
  {
    match Add(a, b)
    case Fin(s) => Fin(s / 2.0)
    case other => other
  }

  /** Ordered "less than or equal"; false whenever NaN is involved. */
  predicate Le(a: Ext, b: Ext)
  {
    match (a, b)
    case (NaN, _) => false
    case (_, NaN) => false
    case (NegInf, _) => true
    case (_, PosInf) => true
    case (PosInf, _) => false
    case (_, NegInf) => false
    case (Fin(p), Fin(q)) => p <= q
  }

  /** Ordered "less than"; false whenever NaN is involved. */
  predicate Lt(a: Ext, b: Ext)
  {
    Le(a, b) && a != b
  }

  /** Le is a total preorder on the non-NaN values and rejects NaN. */
  lemma LeOrder(a: Ext, b: Ext, c: Ext)
    ensures Le(a, b) ==> !a.NaN? && !b.NaN?
    ensures !a.NaN? ==> Le(a, a)
    ensures Le(a, b) && Le(b, c) ==> Le(a, c)
    ensures Le(a, b) && Le(b, a) ==> a == b
    ensures !a.NaN? && !b.NaN? ==> Le(a, b) || Le(b, a)
  {
  }

  /** The mean of two finite values in order lies between them. */
  lemma MeanBetween(a: Ext, b: Ext)
    requires a.Fin? && b.Fin? && a.x <= b.x
    ensures Le(a, Mean(a, b)) && Le(Mean(a, b), b)
  {
  }
}
