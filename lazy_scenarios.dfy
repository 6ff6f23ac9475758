/** The tests of the expression-template design (src/test_forward_scalar.cpp,
    namespace dual2), run on the class model: operands are `Dual2` objects,
    a result is either `eval()` of a node or an assignment `f = expr`. Also the
    assignment of an expression that reads its own target. */
module LazyScenarios {
  import Elementary
  import Eager
  import opened Lazy
  import Equivalence
  import Scenarios

  /** The four constructors on the sample values; the copy is a new object. */
  method Constructors() returns (x1: Dual2, x2: Dual2, x3: Dual2, x4: Dual2)
    ensures x1.value == 0.0 && x1.derivative == 0.0
    ensures x2.value == 4.56 && x2.derivative == 0.0
    ensures x3.value == 7.53 && x3.derivative == 2.99
    ensures x4 != x3 && x4.value == x3.value && x4.derivative == x3.derivative
  {
    x1 := new Dual2.Zero();
    x2 := new Dual2.Constant(4.56);
    x3 := new Dual2(7.53, 2.99);
    x4 := new Dual2.Copy(x3);
  }

  /** A copy is deep: setting the copy's fields leaves the original alone. */
  method CopyIsDeep() returns (original: Stored, copy: Stored)
    ensures original == Stored(7.53, 2.99) && copy == Stored(1.0, 2.0)
  {
    var x3 := new Dual2(7.53, 2.99);
    var x4 := new Dual2.Copy(x3);
    x4.SetValue(1.0);
    x4.SetDerivative(2.0);
    original, copy := Stored(x3.value, x3.derivative), Stored(x4.value, x4.derivative);
  }

  /** `(x1 + x2).eval()` on the sample pairs. */
  method AdditionByEval(m: Elementary.Library) returns (r: Dual2)
    ensures r.value == 10.3 && r.derivative == 10.4
  {
    var x1 := new Dual2(1.2, 2.9);
    var x2 := new Dual2(9.1, 7.5);
    ghost var env := map[x1 := Stored(1.2, 2.9), x2 := Stored(9.1, 7.5)];
    assert Defined(Operand(x1), env, m) && Defined(Operand(x2), env, m);
    assert ValueDefined(Add(Operand(x1), Operand(x2)), env, m);
    assert Defined(Add(Operand(x1), Operand(x2)), env, m);
    assert Objs(Add(Operand(x1), Operand(x2))) == {x1, x2};
    assert Now({x1, x2}) == env;
    assert ValueIn(Add(Operand(x1), Operand(x2)), env, m) == 10.3;
    assert DerivIn(Add(Operand(x1), Operand(x2)), env, m, AsWritten) == 10.4;
    r := Eval(Add(Operand(x1), Operand(x2)), m);
  }

  /** `(x1 - x2).eval()` on the sample pairs. */
  method SubtractionByEval(m: Elementary.Library) returns (r: Dual2)
    ensures r.value == -7.9 && r.derivative == -4.6
  {
    var x1 := new Dual2(1.2, 2.9);
    var x2 := new Dual2(9.1, 7.5);
    ghost var env := map[x1 := Stored(1.2, 2.9), x2 := Stored(9.1, 7.5)];
    assert Defined(Operand(x1), env, m) && Defined(Operand(x2), env, m);
    assert ValueDefined(Subtract(Operand(x1), Operand(x2)), env, m);
    assert Defined(Subtract(Operand(x1), Operand(x2)), env, m);
    assert Objs(Subtract(Operand(x1), Operand(x2))) == {x1, x2};
    assert Now({x1, x2}) == env;
    assert ValueIn(Subtract(Operand(x1), Operand(x2)), env, m) == -7.9;
    assert DerivIn(Subtract(Operand(x1), Operand(x2)), env, m, AsWritten) == -4.6;
    r := Eval(Subtract(Operand(x1), Operand(x2)), m);
  }

  /** `(x1 * x2).eval()` on the sample pairs. */
  method MultiplicationByEval(m: Elementary.Library) returns (r: Dual2)
    ensures r.value == 18.0 && r.derivative == 60.0
  {
    var x1 := new Dual2(6.0, 10.0);
    var x2 := new Dual2(3.0, 5.0);
    ghost var env := map[x1 := Stored(6.0, 10.0), x2 := Stored(3.0, 5.0)];
    assert Defined(Operand(x1), env, m) && Defined(Operand(x2), env, m);
    assert ValueDefined(Multiply(Operand(x1), Operand(x2)), env, m);
    assert Defined(Multiply(Operand(x1), Operand(x2)), env, m);
    assert Objs(Multiply(Operand(x1), Operand(x2))) == {x1, x2};
    assert Now({x1, x2}) == env;
    assert ValueIn(Multiply(Operand(x1), Operand(x2)), env, m) == 18.0;
    assert DerivIn(Multiply(Operand(x1), Operand(x2)), env, m, AsWritten) == 60.0;
    r := Eval(Multiply(Operand(x1), Operand(x2)), m);
  }

  /** `(x1 / x2).eval()` on the sample pairs. */
  method DivisionByEval(m: Elementary.Library) returns (r: Dual2)
    ensures r.value == 2.0 && r.derivative == 2.0
  {
    var x1 := new Dual2(6.0, 10.0);
    var x2 := new Dual2(3.0, 2.0);
    ghost var env := map[x1 := Stored(6.0, 10.0), x2 := Stored(3.0, 2.0)];
    assert Defined(Operand(x1), env, m) && Defined(Operand(x2), env, m);
    assert ValueDefined(Divide(Operand(x1), Operand(x2)), env, m);
    assert Defined(Divide(Operand(x1), Operand(x2)), env, m);
    assert Objs(Divide(Operand(x1), Operand(x2))) == {x1, x2};
    assert Now({x1, x2}) == env;
    assert Elementary.QuotientRule(6.0, 10.0, 3.0, 2.0) == 2.0;
    assert ValueIn(Divide(Operand(x1), Operand(x2)), env, m) == 2.0;
    assert DerivIn(Divide(Operand(x1), Operand(x2)), env, m, AsWritten) == 2.0;
    r := Eval(Divide(Operand(x1), Operand(x2)), m);
  }

  /** `x1 * x1` over a seeded operand. */
  function Square(x: Dual2): Expr
  {
    Multiply(Operand(x), Operand(x))
  }

  /** The seeded square in a store where the seed holds `(x0, 1)`: value
      `x0^2`, derivative `2 x0`. */
  lemma SeededSquareQueries(x1: Dual2, x0: real, env: Env, m: Elementary.Library, rule: PowerRule)
    requires x1 in env && env[x1] == Stored(x0, 1.0)
    ensures Objs(Square(x1)) == {x1}
    ensures Defined(Square(x1), env, m)
    ensures ValueIn(Square(x1), env, m) == x0 * x0
    ensures DerivIn(Square(x1), env, m, rule) == 2.0 * x0
  {
  }

  /** `sin`, `cos` and `exp` of the seeded square: each derivative is
      `2 x0 f'(x0^2)`. */
  lemma SeededSmoothQueries(x1: Dual2, x0: real, env: Env, m: Elementary.Library)
    requires x1 in env && env[x1] == Stored(x0, 1.0)
    ensures Objs(Sine(Square(x1))) == Objs(Cosine(Square(x1))) == Objs(Exponential(Square(x1))) == {x1}
    ensures Defined(Sine(Square(x1)), env, m)
    ensures Defined(Cosine(Square(x1)), env, m)
    ensures Defined(Exponential(Square(x1)), env, m)
    ensures DerivIn(Sine(Square(x1)), env, m, AsWritten) == 2.0 * x0 * m.cos(x0 * x0)
    ensures DerivIn(Cosine(Square(x1)), env, m, AsWritten) == -2.0 * x0 * m.sin(x0 * x0)
    ensures DerivIn(Exponential(Square(x1)), env, m, AsWritten) == 2.0 * x0 * m.exp(x0 * x0)
  {
    SeededSquareQueries(x1, x0, env, m, AsWritten);
  }

  /** `x1 * x1 * x1` over the seed: derivative `3 x0^2`. */
  lemma SeededCubeQueries(x1: Dual2, x0: real, env: Env, m: Elementary.Library)
    requires x1 in env && env[x1] == Stored(x0, 1.0)
    ensures Objs(Multiply(Square(x1), Operand(x1))) == {x1}
    ensures Defined(Multiply(Square(x1), Operand(x1)), env, m)
    ensures DerivIn(Multiply(Square(x1), Operand(x1)), env, m, AsWritten) == 3.0 * x0 * x0
  {
    SeededSquareQueries(x1, x0, env, m, AsWritten);
    assert DerivIn(Multiply(Square(x1), Operand(x1)), env, m, AsWritten)
        == (x0 * x0) * 1.0 + (2.0 * x0) * x0;
  }

  /** `f = sin(x1 * x1)`, then `cos` and `exp` of the same square, each
      assigned to the same `f`. */
  method SeededSmoothAssignments(m: Elementary.Library, x0: real) returns (sine: real, cosine: real, exponential: real)
    ensures sine == 2.0 * x0 * m.cos(x0 * x0)
    ensures cosine == -2.0 * x0 * m.sin(x0 * x0)
    ensures exponential == 2.0 * x0 * m.exp(x0 * x0)
  {
    var x1 := new Dual2(x0, 1.0);
    var f := new Dual2.Zero();
    ghost var env := Now({x1});
    SeededSmoothQueries(x1, x0, env, m);
    f.Assign(Sine(Square(x1)), m);
    sine := f.derivative;
    assert Now({x1}) == env;
    f.Assign(Cosine(Square(x1)), m);
    cosine := f.derivative;
    assert Now({x1}) == env;
    f.Assign(Exponential(Square(x1)), m);
    exponential := f.derivative;
  }

  /** `f = x1 * x1 * x1`. */
  method SeededCubeAssignment(m: Elementary.Library, x0: real) returns (cube: real)
    ensures cube == 3.0 * x0 * x0
  {
    var x1 := new Dual2(x0, 1.0);
    var f := new Dual2.Zero();
    ghost var env := Now({x1});
    SeededCubeQueries(x1, x0, env, m);
    f.Assign(Multiply(Square(x1), Operand(x1)), m);
    cube := f.derivative;
  }

  /** `exp(sin(cos(log(x1 * x1))))` over a seeded `x1`. */
  function NestedChain(x1: Dual2): Expr
  {
    Exponential(Sine(Cosine(Logarithm(Square(x1)))))
  }

  /** The nested chain over a non-zero seed is defined, has no `pow` node, and
      evaluates eagerly to the eager chain applied to the seeded square. */
  lemma NestedChainIsEager(x1: Dual2, x0: real, env: Env, m: Elementary.Library)
    requires x0 != 0.0
    requires x1 in env && env[x1] == Stored(x0, 1.0)
    ensures Objs(NestedChain(x1)) == {x1}
    ensures Defined(NestedChain(x1), env, m) && PowerFree(NestedChain(x1))
    ensures Equivalence.EagerDefined(NestedChain(x1), env, m)
    ensures Eager.Mul(Scenarios.Seed(x0), Scenarios.Seed(x0)).v != 0.0
    ensures Equivalence.Eagerly(NestedChain(x1), env, m)
         == Eager.Exp(m, Eager.Sin(m, Eager.Cos(m, Eager.Log(m, Eager.Mul(Scenarios.Seed(x0), Scenarios.Seed(x0))))))
  {
    var e, lg := NestedChain(x1), Logarithm(Square(x1));
    var seed := Scenarios.Seed(x0);
    SeededSquareQueries(x1, x0, env, m, AsWritten);
    assert x0 * x0 != 0.0;
    assert Objs(lg) == {x1};
    assert Objs(Sine(Cosine(lg))) == {x1};
    assert Defined(lg, env, m);
    assert Defined(Cosine(lg), env, m);
    assert Defined(Sine(Cosine(lg)), env, m);
    assert PowerFree(lg);
    assert PowerFree(Sine(Cosine(lg)));
    Equivalence.ValuesAgree(e, env, m);
    assert Equivalence.Leaf(env[x1]) == seed;
    var sq := Eager.Mul(seed, seed);
    assert Equivalence.Eagerly(Square(x1), env, m) == sq;
    assert Equivalence.Eagerly(lg, env, m) == Eager.Log(m, sq);
    assert Equivalence.Eagerly(Cosine(lg), env, m) == Eager.Cos(m, Eager.Log(m, sq));
    assert Equivalence.Eagerly(Sine(Cosine(lg)), env, m) == Eager.Sin(m, Eager.Cos(m, Eager.Log(m, sq)));
  }

  /** The nested chain over a non-zero seed: its derivative is the product of
      the five slopes, as the eager evaluation gives. */
  lemma SeededNestedChainQueries(x1: Dual2, x0: real, env: Env, m: Elementary.Library)
    requires x0 != 0.0
    requires x1 in env && env[x1] == Stored(x0, 1.0)
    ensures Objs(NestedChain(x1)) == {x1}
    ensures Defined(NestedChain(x1), env, m)
    ensures
      var l := m.log(x0 * x0);
      DerivIn(NestedChain(x1), env, m, AsWritten)
      == m.exp(m.sin(m.cos(l))) * m.cos(m.cos(l)) * -m.sin(l) * 2.0 * x0 / (x0 * x0)
  {
    NestedChainIsEager(x1, x0, env, m);
    Equivalence.LazyEagerEquivalence(NestedChain(x1), env, m);
    Scenarios.SeededNestedChain(m, x0);
  }

  /** `f = exp(sin(cos(log(x1 * x1))))`, the expression of the timing test. */
  method SeededNestedChainAssignment(m: Elementary.Library, x0: real) returns (nested: real)
    requires x0 != 0.0
    ensures
      var l := m.log(x0 * x0);
      nested == m.exp(m.sin(m.cos(l))) * m.cos(m.cos(l)) * -m.sin(l) * 2.0 * x0 / (x0 * x0)
  {
    var x1 := new Dual2(x0, 1.0);
    var f := new Dual2.Zero();
    ghost var env := Now({x1});
    SeededNestedChainQueries(x1, x0, env, m);
    f.Assign(NestedChain(x1), m);
    nested := f.derivative;
  }

  /** `f = log(x1 * x1)` for a non-zero seed. */
  method SeededLogAssignment(m: Elementary.Library, x0: real) returns (logarithm: real)
    requires x0 != 0.0
    ensures logarithm == 2.0 * x0 / (x0 * x0)
  {
    var x1 := new Dual2(x0, 1.0);
    var f := new Dual2.Zero();
    ghost var env := map[x1 := Stored(x0, 1.0)];
    SeededSquareQueries(x1, x0, env, m, AsWritten);
    assert Now({x1}) == env;
    assert x0 * x0 != 0.0;
    SameQuotient(DerivIn(Square(x1), env, m, AsWritten), ValueIn(Square(x1), env, m), 2.0 * x0, x0 * x0);
    f.Assign(Logarithm(Square(x1)), m);
    logarithm := f.derivative;
  }

  /** `abs(x1 * x1 - c)` with `x1` seeded and `c` the constant 2.3. */
  function ShiftedAbs(x1: Dual2, c: Dual2): Expr
  {
    Absolute(Subtract(Square(x1), Operand(c)))
  }

  /** Subtracting the constant keeps the square's derivative `2 x0`, and `abs`
      scales it by the sign of `x0^2 - 2.3`. */
  lemma SeededShiftedAbsQueries(x1: Dual2, c: Dual2, x0: real, env: Env, m: Elementary.Library)
    requires x0 * x0 != 2.3
    requires x1 in env && env[x1] == Stored(x0, 1.0)
    requires c in env && env[c] == Stored(2.3, 0.0)
    ensures Objs(ShiftedAbs(x1, c)) == {x1, c}
    ensures Defined(ShiftedAbs(x1, c), env, m)
    ensures DerivIn(ShiftedAbs(x1, c), env, m, AsWritten)
         == 2.0 * x0 * (x0 * x0 - 2.3) / Elementary.Abs(x0 * x0 - 2.3)
  {
    var shifted := Subtract(Square(x1), Operand(c));
    SeededSquareQueries(x1, x0, env, m, AsWritten);
    assert Objs(shifted) == {x1, c};
    assert Defined(Operand(c), env, m);
    assert Defined(shifted, env, m);
    assert ValueIn(shifted, env, m) == x0 * x0 - 2.3;
    assert DerivIn(shifted, env, m, AsWritten) == 2.0 * x0;
  }

  /** `f = abs(x1 * x1 - Dual2(2.3, 0))`. */
  method SeededAbsAssignment(m: Elementary.Library, x0: real) returns (absolute: real)
    requires x0 * x0 != 2.3
    ensures absolute == 2.0 * x0 * (x0 * x0 - 2.3) / Elementary.Abs(x0 * x0 - 2.3)
  {
    var x1 := new Dual2(x0, 1.0);
    var c := new Dual2(2.3, 0.0);
    var f := new Dual2.Zero();
    ghost var env := Now({x1, c});
    SeededShiftedAbsQueries(x1, c, x0, env, m);
    f.Assign(ShiftedAbs(x1, c), m);
    absolute := f.derivative;
  }

  /** `x = x * x` with `x = (3, 1)`: the assignment as written stores the value
      9 first and then reads it back for the derivative, giving 18 where the
      derivative of the square is 6. */
  method SquareInPlaceAsWritten(m: Elementary.Library) returns (value: real, derivative: real)
    ensures value == 9.0 && derivative == 18.0
  {
    var x := new Dual2(3.0, 1.0);
    SeededSquareQueries(x, 3.0, map[x := Stored(3.0, 1.0)], m, AsWritten);
    assert Now({x}) == map[x := Stored(3.0, 1.0)];
    x.Assign(Square(x), m);
    value, derivative := x.value, x.derivative;
  }

  /** The same assignment when both parts are evaluated before either is stored. */
  method SquareInPlaceCorrected(m: Elementary.Library) returns (value: real, derivative: real)
    ensures value == 9.0 && derivative == 6.0
  {
    var x := new Dual2(3.0, 1.0);
    SeededSquareQueries(x, 3.0, map[x := Stored(3.0, 1.0)], m, AsWritten);
    assert Now({x}) == map[x := Stored(3.0, 1.0)];
    x.AssignAliasSafe(Square(x), m);
    value, derivative := x.value, x.derivative;
  }

  /** For every starting pair `(v, d)`, the assignment `x = x * x` as written
      leaves the derivative `2 v^2 d` instead of `2 v d`; the two agree exactly
      when `d`, `v` or `v - 1` is zero. */
  lemma AliasedSquare(x: Dual2, v: real, d: real, m: Elementary.Library)
    ensures
      var env := map[x := Stored(v, d)];
      var written := AfterValueWrite(env, x, v * v);
      Defined(Square(x), env, m) && Defined(Square(x), written, m)
      && ValueIn(Square(x), env, m) == v * v
      && DerivIn(Square(x), env, m, AsWritten) == 2.0 * v * d
      && DerivIn(Square(x), written, m, AsWritten) == 2.0 * (v * v) * d
    ensures 2.0 * (v * v) * d == 2.0 * v * d <==> d == 0.0 || v == 0.0 || v == 1.0
  {
    var env := map[x := Stored(v, d)];
    assert AfterValueWrite(env, x, v * v) == map[x := Stored(v * v, d)];
    Factor(v, d);
    ZeroProduct(2.0 * v * d, v - 1.0);
    ZeroProduct(2.0 * v, d);
  }

  lemma SameQuotient(a: real, b: real, c: real, d: real)
    requires a == c && b == d && b != 0.0
    ensures a / b == c / d
  {
  }

  lemma Factor(v: real, d: real)
    ensures 2.0 * (v * v) * d - 2.0 * v * d == 2.0 * v * d * (v - 1.0)
  {
  }

  lemma ZeroProduct(a: real, b: real)
    ensures a * b == 0.0 <==> a == 0.0 || b == 0.0
  {
  }
}
