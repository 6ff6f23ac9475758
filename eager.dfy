/** Eager dual numbers (include/dual.h): every operator and function builds the
    (value, derivative) pair of its result at once.

    The scalar type is `real`. `Dual` is a value type, so the setters and the copy
    constructor become functions that return the updated pair. Division, and the
    derivatives of `log` and `abs`, divide by the operand's value; they require it
    to be non-zero (the source leaves that case to floating point). */
module Eager {
  import Elementary

  /** A dual number: a value and its derivative with respect to the seeded variable. */
  datatype Dual = Dual(v: real, dv: real)

  /** `Dual()`. */
  function Zero(): Dual
  {
    Dual(0.0, 0.0)
  }

  /** `Dual(value)`: a constant, whose derivative is 0. */
  function Constant(c: real): Dual
  {
    Dual(c, 0.0)
  }

  /** The copy constructor. */
  function Copy(x: Dual): (r: Dual)
    ensures r.v == x.v && r.dv == x.dv
  {
    Dual(x.v, x.dv)
  }

  /** `setValue`: the derivative is untouched. */
  function SetValue(x: Dual, value: real): (r: Dual)
    ensures r.v == value && r.dv == x.dv
  {
    x.(v := value)
  }

  /** `setDerivative`: the value is untouched. */
  function SetDerivative(x: Dual, derivative: real): (r: Dual)
    ensures r.v == x.v && r.dv == derivative
  {
    x.(dv := derivative)
  }

  function Add(a: Dual, b: Dual): Dual
  {
    Dual(a.v + b.v, a.dv + b.dv)
  }

  function Sub(a: Dual, b: Dual): Dual
  {
    Dual(a.v - b.v, a.dv - b.dv)
  }

  /** The product rule. */
  function Mul(a: Dual, b: Dual): Dual
  {
    Dual(a.v * b.v, a.v * b.dv + a.dv * b.v)
  }

  /** The quotient rule. */
  function Div(a: Dual, b: Dual): Dual
    requires b.v != 0.0
  {
    Dual(a.v / b.v, Elementary.QuotientRule(a.v, a.dv, b.v, b.dv))
  }

  function Sin(m: Elementary.Library, x: Dual): Dual
  {
    Dual(m.sin(x.v), x.dv * m.cos(x.v))
  }

  function Cos(m: Elementary.Library, x: Dual): Dual
  {
    Dual(m.cos(x.v), -x.dv * m.sin(x.v))
  }

  function Exp(m: Elementary.Library, x: Dual): Dual
  {
    Dual(m.exp(x.v), x.dv * m.exp(x.v))
  }

  function Log(m: Elementary.Library, x: Dual): Dual
    requires x.v != 0.0
  {
    Dual(m.log(x.v), x.dv / x.v)
  }

  /** `pow(x, k)` for a scalar exponent `k`, which is not differentiated. */
  function Pow(m: Elementary.Library, x: Dual, k: real): Dual
  {
    Dual(m.pow(x.v, k), k * m.pow(x.v, k - 1.0) * x.dv)
  }

  function Abs(x: Dual): Dual
    requires x.v != 0.0
  {
    Dual(Elementary.Abs(x.v), Elementary.AbsRule(x.v, x.dv))
  }

  /** The chain rule as a reference: a scalar function with value `fv` and slope
      `slope` at `x.v` carries the derivative `slope * x.dv`. */
  function Chain(x: Dual, fv: real, slope: real): Dual
  {
    Dual(fv, slope * x.dv)
  }

  /** Lifted constants act as plain scalars: they shift or scale the value, and
      contribute nothing of their own to the derivative. */
  lemma LiftedConstantsAreScalars(a: Dual, c: real)
    ensures Zero() == Constant(0.0)
    ensures Add(a, Zero()) == a && Mul(a, Constant(1.0)) == a
    ensures Add(a, Constant(c)) == Dual(a.v + c, a.dv)
    ensures Sub(a, Constant(c)) == Dual(a.v - c, a.dv)
    ensures Mul(a, Constant(c)) == Dual(a.v * c, a.dv * c)
    ensures Mul(a, Zero()) == Zero()
  {
  }

  /** Subtraction undoes addition and the other way round. */
  lemma AddSubRoundTrip(a: Dual, b: Dual)
    ensures Sub(Add(a, b), b) == a
    ensures Add(Sub(a, b), b) == a
    ensures Sub(a, a) == Zero()
  {
  }

  /** With the product rule for `*`, dual numbers form a commutative ring:
      `+` and `*` commute and associate (here and in `MulAssociates`), and `*`
      distributes over `+` and `-` (`MulDistributes`). */
  lemma RingLaws(a: Dual, b: Dual, c: Dual)
    ensures Add(a, b) == Add(b, a)
    ensures Add(Add(a, b), c) == Add(a, Add(b, c))
    ensures Mul(a, b) == Mul(b, a)
  {
    ProductRuleCommutes(a.v, a.dv, b.v, b.dv);
  }

  lemma MulAssociates(a: Dual, b: Dual, c: Dual)
    ensures Mul(Mul(a, b), c) == Mul(a, Mul(b, c))
  {
    ProductRuleAssociates(a.v, a.dv, b.v, b.dv, c.v, c.dv);
  }

  lemma MulDistributes(a: Dual, b: Dual, c: Dual)
    ensures Mul(a, Add(b, c)) == Add(Mul(a, b), Mul(a, c))
    ensures Mul(a, Sub(b, c)) == Sub(Mul(a, b), Mul(a, c))
  {
    ProductRuleDistributes(a.v, a.dv, b.v, b.dv, c.v, c.dv);
    ProductRuleDistributes(a.v, a.dv, b.v, b.dv, -c.v, -c.dv);
  }

  /** The quotient rule is exactly the inverse of the product rule: for a divisor
      with non-zero value, `q * b == a` holds for one dual number `q`, `a / b`. */
  lemma QuotientInvertsProduct(a: Dual, b: Dual, q: Dual)
    requires b.v != 0.0
    ensures Mul(q, b) == a <==> q == Div(a, b)
  {
    QuotientTimesDivisor(a.v, a.dv, b.v, b.dv);
    assert Mul(Div(a, b), b) == a;
    if Mul(q, b) == a {
      MulCancel(q, Div(a, b), b);
    }
  }

  /** Dividing a product by a factor with non-zero value gives back the other
      factor, and multiplying a quotient by its divisor gives back the dividend. */
  lemma MulDivRoundTrip(a: Dual, b: Dual)
    requires b.v != 0.0
    ensures Div(Mul(a, b), b) == a
    ensures Mul(Div(a, b), b) == a
  {
    QuotientInvertsProduct(Mul(a, b), b, a);
    QuotientInvertsProduct(a, b, Div(a, b));
  }

  /** Multiplying by a dual number with non-zero value is injective. */
  lemma MulCancel(p: Dual, q: Dual, b: Dual)
    requires b.v != 0.0 && Mul(p, b) == Mul(q, b)
    ensures p == q
  {
    FactorOut(b.v, p.v, q.v);
    assert p.dv * b.v == q.dv * b.v;
    FactorOut(b.v, p.dv, q.dv);
  }

  // Facts of real arithmetic that the solver does not find on its own inside
  // the lemmas above.

  lemma Distribute(x: real, y: real, z: real)
    ensures x * (y + z) == x * y + x * z
    ensures (y + z) * x == y * x + z * x
  {
  }

  lemma Product3(x: real, y: real, z: real)
    ensures (x * y) * z == x * (y * z)
    ensures (x * y) * z == (x * z) * y
    ensures x * y == y * x
  {
  }

  /** The value and derivative parts of `a * b` and `b * a`, on scalars. */
  lemma ProductRuleCommutes(av: real, adv: real, bv: real, bdv: real)
    ensures av * bv == bv * av
    ensures av * bdv + adv * bv == bv * adv + bdv * av
  {
  }

  /** The value and derivative parts of `(a * b) * c` and `a * (b * c)`, on
      scalars. */
  lemma ProductRuleAssociates(av: real, adv: real, bv: real, bdv: real, cv: real, cdv: real)
    ensures (av * bv) * cv == av * (bv * cv)
    ensures (av * bv) * cdv + (av * bdv + adv * bv) * cv
         == av * (bv * cdv + bdv * cv) + adv * (bv * cv)
  {
    Product3(av, bv, cv);
    Product3(av, bv, cdv);
    Product3(av, bdv, cv);
    Product3(adv, bv, cv);
    Distribute(cv, av * bdv, adv * bv);
    Distribute(av, bv * cdv, bdv * cv);
  }

  /** The value and derivative parts of `a * (b + c)` and `a * b + a * c`, on
      scalars; with `-c` in place of `c` they are those of `a * (b - c)`. */
  lemma ProductRuleDistributes(av: real, adv: real, bv: real, bdv: real, cv: real, cdv: real)
    ensures av * (bv + cv) == av * bv + av * cv
    ensures av * (bdv + cdv) + adv * (bv + cv) == (av * bdv + adv * bv) + (av * cdv + adv * cv)
  {
    Distribute(av, bv, cv);
    Distribute(av, bdv, cdv);
    Distribute(adv, bv, cv);
  }

  lemma FactorOut(x: real, y: real, z: real)
    requires x != 0.0 && y * x == z * x
    ensures y == z
  {
  }

  /** The value and derivative parts of `(a / b) * b`, written out on scalars. */
  lemma QuotientTimesDivisor(av: real, adv: real, bv: real, bdv: real)
    requires bv != 0.0
    ensures (av / bv) * bv == av
    ensures (av / bv) * bdv + ((adv * bv - av * bdv) / (bv * bv)) * bv == adv
  {
    var q := (adv * bv - av * bdv) / (bv * bv);
    assert q * (bv * bv) == adv * bv - av * bdv;
    assert (q * bv + (av / bv) * bdv) * bv == adv * bv;
    FactorOut(bv, q * bv + (av / bv) * bdv, adv);
  }

  /** Each elementary function returns (f(v), f'(v) * dv): the chain rule with
      f' = cos, -sin, exp, 1/v, k * pow(v, k - 1) and v/|v| respectively. */
  lemma ElementaryFunctionsFollowChainRule(m: Elementary.Library, x: Dual, k: real)
    ensures Sin(m, x) == Chain(x, m.sin(x.v), m.cos(x.v))
    ensures Cos(m, x) == Chain(x, m.cos(x.v), -m.sin(x.v))
    ensures Exp(m, x) == Chain(x, m.exp(x.v), m.exp(x.v))
    ensures x.v != 0.0 ==> Log(m, x) == Chain(x, m.log(x.v), 1.0 / x.v)
    ensures Pow(m, x, k) == Chain(x, m.pow(x.v, k), k * m.pow(x.v, k - 1.0))
    ensures x.v != 0.0 ==> Abs(x) == Chain(x, Elementary.Abs(x.v), x.v / Elementary.Abs(x.v))
  {
    if x.v != 0.0 {
      assert x.dv / x.v == (1.0 / x.v) * x.dv;
      var s := Elementary.Abs(x.v);
      assert x.dv * x.v / s == (x.v / s) * x.dv;
    }
  }

  /** `pow` of a constant is a constant, whatever the exponent. */
  lemma PowOfConstant(m: Elementary.Library, x: Dual, k: real)
    requires x.dv == 0.0
    ensures Pow(m, x, k) == Constant(m.pow(x.v, k))
  {
  }

  /** `abs` passes the derivative through where the value is positive and negates
      it where the value is negative; its value is never negative. */
  lemma AbsDerivativeSign(x: Dual)
    requires x.v != 0.0
    ensures 0.0 <= Abs(x).v
    ensures x.v > 0.0 ==> Abs(x) == x
    ensures x.v < 0.0 ==> Abs(x) == Dual(-x.v, -x.dv)
  {
    if x.v < 0.0 {
      assert x.dv * x.v / -x.v == -x.dv;
    }
  }
}
