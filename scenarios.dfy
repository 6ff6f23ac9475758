/** The eager situations exercised by src/test_forward_scalar.cpp. The seeded
    ones are stated for every seed value rather than for the sample point; the
    constructor and arithmetic checks are stated at their sample pairs. */
module Scenarios {
  import Elementary
  import opened Eager

  /** Constructors and the four operators on the sample pairs. */
  lemma ArithmeticVectors()
    ensures Zero() == Dual(0.0, 0.0)
    ensures Constant(4.56) == Dual(4.56, 0.0)
    ensures Copy(Dual(7.53, 2.99)) == Dual(7.53, 2.99)
    ensures Add(Dual(1.2, 2.9), Dual(9.1, 7.5)) == Dual(10.3, 10.4)
    ensures Sub(Dual(1.2, 2.9), Dual(9.1, 7.5)) == Dual(-7.9, -4.6)
    ensures Mul(Dual(6.0, 10.0), Dual(3.0, 5.0)) == Dual(18.0, 60.0)
    ensures Div(Dual(6.0, 10.0), Dual(3.0, 2.0)) == Dual(2.0, 2.0)
  {
  }

  /** The variable `x0` seeded for differentiation. */
  function Seed(x0: real): Dual
  {
    Dual(x0, 1.0)
  }

  /** `f(x * x)` for each smooth function differentiates to `2 x0 f'(x0^2)`. */
  lemma SeededSquareThroughFunctions(m: Elementary.Library, x0: real)
    ensures Sin(m, Mul(Seed(x0), Seed(x0))).dv == 2.0 * x0 * m.cos(x0 * x0)
    ensures Cos(m, Mul(Seed(x0), Seed(x0))).dv == -2.0 * x0 * m.sin(x0 * x0)
    ensures Exp(m, Mul(Seed(x0), Seed(x0))).dv == 2.0 * x0 * m.exp(x0 * x0)
  {
    SeededSquare(x0);
  }

  /** `log(x * x)` differentiates to `2 x0 / x0^2` for a non-zero seed. */
  lemma SeededLogOfSquare(m: Elementary.Library, x0: real)
    requires x0 != 0.0
    ensures Mul(Seed(x0), Seed(x0)).v != 0.0
    ensures Log(m, Mul(Seed(x0), Seed(x0))).dv == 2.0 * x0 / (x0 * x0)
  {
  }

  /** `x * x * x` differentiates to `3 x0^2`, which is what `pow(x, 3)` gives
      when `pow(y, 2) == y * y` for every `y`. */
  lemma SeededCube(m: Elementary.Library, x0: real)
    ensures Mul(Mul(Seed(x0), Seed(x0)), Seed(x0)).dv == 3.0 * x0 * x0
    ensures (forall v :: m.pow(v, 2.0) == v * v) ==> Pow(m, Seed(x0), 3.0).dv == 3.0 * x0 * x0
  {
  }

  /** Subtracting a lifted constant leaves the derivative of `x * x` alone, and
      `abs` then scales it by the sign of the value. */
  lemma SeededAbsOfShiftedSquare(x0: real)
    requires x0 * x0 != 2.3
    ensures Sub(Mul(Seed(x0), Seed(x0)), Constant(2.3)).dv == Mul(Seed(x0), Seed(x0)).dv
    ensures Sub(Mul(Seed(x0), Seed(x0)), Constant(2.3)).v != 0.0
    ensures Abs(Sub(Mul(Seed(x0), Seed(x0)), Constant(2.3))).dv
            == 2.0 * x0 * (x0 * x0 - 2.3) / Elementary.Abs(x0 * x0 - 2.3)
  {
    SeededSquare(x0);
    assert Sub(Dual(x0 * x0, 2.0 * x0), Constant(2.3)) == Dual(x0 * x0 - 2.3, 2.0 * x0);
    AbsOfPair(x0 * x0 - 2.3, 2.0 * x0);
  }

  /** The seeded square carries the derivative `2 x0`. */
  lemma SeededSquare(x0: real)
    ensures Mul(Seed(x0), Seed(x0)) == Dual(x0 * x0, 2.0 * x0)
  {
  }

  lemma AbsOfPair(a: real, b: real)
    requires a != 0.0
    ensures Abs(Dual(a, b)).dv == b * a / Elementary.Abs(a)
  {
  }

  /** The nested chain `exp(sin(cos(log(x * x))))` multiplies the slopes of the
      four functions and of the square. */
  lemma SeededNestedChain(m: Elementary.Library, x0: real)
    requires x0 != 0.0
    ensures Mul(Seed(x0), Seed(x0)).v != 0.0
    ensures
      var l := m.log(x0 * x0);
      Exp(m, Sin(m, Cos(m, Log(m, Mul(Seed(x0), Seed(x0)))))).dv
      == m.exp(m.sin(m.cos(l))) * m.cos(m.cos(l)) * -m.sin(l) * 2.0 * x0 / (x0 * x0)
  {
    var l := m.log(x0 * x0);
    SeededSquare(x0);
    SeededLogOfSquare(m, x0);
    LogOfPair(m, x0 * x0, 2.0 * x0);
    ChainOfThree(m.exp(m.sin(m.cos(l))), m.cos(m.cos(l)), -m.sin(l), 2.0 * x0, x0 * x0);
  }

  lemma LogOfPair(m: Elementary.Library, a: real, b: real)
    requires a != 0.0
    ensures Log(m, Dual(a, b)) == Dual(m.log(a), b / a)
  {
  }

  lemma ChainOfThree(a: real, b: real, c: real, n: real, s: real)
    requires s != 0.0
    ensures (n / s * c) * b * a == a * b * c * n / s
  {
  }
}
