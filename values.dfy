/**
 * Search values: a real number extended with the two infinities that the
 * search uses as the initial window and as terminal utilities.
 */
module Values {

  datatype Value = NegInf | Fin(x: real) | PosInf

  /** The total order of the extended reals. */
  predicate Le(u: Value, v: Value)
  {
    u.NegInf? || v.PosInf? || (u.Fin? && v.Fin? && u.x <= v.x)
  }

  predicate Lt(u: Value, v: Value)
  {
    !Le(v, u)
  }

  /** The larger of two values; the first one when they are equal, as Python's `max`. */
  function Max(u: Value, v: Value): (r: Value)
    ensures Le(u, r) && Le(v, r)
    ensures r == u || r == v
  {
    if Lt(u, v) then v else u
  }

  /** The smaller of two values; the first one when they are equal, as Python's `min`. */
  function Min(u: Value, v: Value): (r: Value)
    ensures Le(r, u) && Le(r, v)
    ensures r == u || r == v
  {
    if Lt(v, u) then v else u
  }

  lemma LeTotalOrder(u: Value, v: Value, w: Value)
    ensures Le(u, u)
    ensures Le(u, v) || Le(v, u)
    ensures Le(u, v) && Le(v, u) ==> u == v
    ensures Le(u, v) && Le(v, w) ==> Le(u, w)
  {
  }
}
