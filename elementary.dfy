/** The scalar functions of <cmath> that the dual-number operators apply to values.

    Their numeric content is not modelled. A `Library` is an arbitrary choice of the
    five functions, and every operation that applies one of them, and every theorem
    about such an operation, takes one as a parameter, so what is proved holds whatever `sin`, `cos`, `exp`, `log` and `pow`
    compute: only the shape of the chain rule is verified. `abs` is defined on `real`. */
module Elementary {

  datatype Library = Library(
    sin: real -> real,
    cos: real -> real,
    exp: real -> real,
    log: real -> real,
    pow: (real, real) -> real)

  /** `std::abs` on the scalar type. */
  function Abs(x: real): (r: real)
    ensures 0.0 <= r
    ensures r == x || r == -x
    ensures r == 0.0 <==> x == 0.0
  {
    if x < 0.0 then -x else x
  }

  /** The derivative of `abs(a)` from the value and derivative of `a`, as both
      dual-number designs write it. */
  function AbsRule(v: real, dv: real): real
    requires v != 0.0
  {
    dv * v / Abs(v)
  }

  /** The derivative of a quotient `a / b` from the values and derivatives of
      `a` and `b`, as both dual-number designs write it. */
  function QuotientRule(av: real, adv: real, bv: real, bdv: real): real
    requires bv != 0.0
  {
    (adv * bv - av * bdv) / (bv * bv)
  }
}
