/** Small facts of integer arithmetic the solver needs spelled out:
    monotonicity of multiplication and uniqueness of quotient and remainder. */
module Arith {

  lemma MulMonotone(a: int, b: int, p: int)
    requires a <= b && p >= 0
    ensures a * p <= b * p
  {
    assert b * p - a * p == (b - a) * p;
  }

  /** With remainders below `p`, the smaller quotient gives the smaller
      number: a smaller leading digit wins whatever follows it. */
  lemma LeadDominates(da: int, db: int, ra: int, rb: int, p: int)
    requires da < db && 0 <= ra < p && 0 <= rb
    ensures da * p + ra < db * p + rb
  {
    assert (da + 1) * p == da * p + p;
    MulMonotone(da + 1, db, p);
  }

  lemma DivModUnique(v: int, p: int, q: int, r: int)
    requires p > 0 && 0 <= r < p && v == q * p + r
    ensures v / p == q && v % p == r
  {
    var q', r' := v / p, v % p;
    assert v == q' * p + r';
    if q' > q {
      LeadDominates(q, q', r, r', p);
    } else if q' < q {
      LeadDominates(q', q, r', r, p);
    }
  }
}
