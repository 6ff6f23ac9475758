/** Lazy dual numbers (include/dual2.h): the concrete storage class `Dual2` and the
    expression nodes that compute their value and derivative from their operands
    every time they are queried.

    An expression is a tree of `Expr` nodes whose leaves are references to `Dual2`
    objects, as the source's nodes hold references to their operands and read
    them at query time. A query reads the operands' stored fields; the pure
    evaluators `ValueIn` and `DerivIn` take those fields as an environment
    (`Env`), and `Value`/`Deriv` evaluate against the heap as it is now.

    Division, and the derivatives of `log` and `abs`, divide by an operand's value:
    `ValueDefined` and `Defined` say when every such divisor is non-zero. */
module Lazy {
  import Elementary

  /** Concrete storage for a dual number: the one place where a lazy expression
      is materialised. */
  class Dual2 {
    var value: real
    var derivative: real

    /** `Dual2()`. */
    constructor Zero()
      ensures value == 0.0 && derivative == 0.0
    {
      value, derivative := 0.0, 0.0;
    }

    /** `Dual2(value)`: a constant. */
    constructor Constant(v: real)
      ensures value == v && derivative == 0.0
    {
      value, derivative := v, 0.0;
    }

    /** `Dual2(value, derivative)`. */
    constructor (v: real, d: real)
      ensures value == v && derivative == d
    {
      value, derivative := v, d;
    }

    /** The copy constructor. */
    constructor Copy(other: Dual2)
      ensures value == other.value && derivative == other.derivative
    {
      value, derivative := other.value, other.derivative;
    }

    method SetValue(v: real)
      modifies this
      ensures value == v && derivative == old(derivative)
    {
      value := v;
    }

    method SetDerivative(d: real)
      modifies this
      ensures value == old(value) && derivative == d
    {
      derivative := d;
    }

    /** `operator=(const E& expr)` as written: it stores `expr.v()` and only then
        evaluates `expr.dv()`. When the expression refers to this object, that
        second query sees the new value (`AfterValueWrite`); otherwise the result
        is the expression's value and derivative at the time of the call. */
    method Assign(e: Expr, m: Elementary.Library)
      requires ValueDefined(e, Now(Objs(e)), m)
      requires Defined(e, AfterValueWrite(Now(Objs(e)), this, ValueIn(e, Now(Objs(e)), m)), m)
      modifies this
      ensures value == old(Value(e, m))
      ensures derivative == old(DerivIn(e, AfterValueWrite(Now(Objs(e)), this, ValueIn(e, Now(Objs(e)), m)), m, AsWritten))
      ensures this !in Objs(e) ==> old(Defined(e, Now(Objs(e)), m)) && derivative == old(Deriv(e, m))
    {
      ghost var before := Now(Objs(e));
      value := ValueIn(e, Now(Objs(e)), m);
      assert Now(Objs(e)) == AfterValueWrite(before, this, value);
      derivative := DerivIn(e, Now(Objs(e)), m, AsWritten);
    }

    /** Assignment that queries both parts before storing either, so that the
        result is the expression's value and derivative at the time of the call
        even when the expression refers to this object. */
    method AssignAliasSafe(e: Expr, m: Elementary.Library)
      requires Defined(e, Now(Objs(e)), m)
      modifies this
      ensures value == old(Value(e, m)) && derivative == old(Deriv(e, m))
    {
      var v, d := Value(e, m), Deriv(e, m);
      value, derivative := v, d;
    }
  }

  /** The fields of a `Dual2` as a node reads them. */
  datatype Stored = Stored(value: real, derivative: real)

  /** What each referenced operand holds when a query runs. */
  type Env = map<Dual2, Stored>

  /** An expression-template tree. `Operand` is a reference to concrete storage;
      the other constructors are the node classes, built by the operator and
      function factories of dual2.h. */
  datatype Expr =
    | Operand(x: Dual2)
    | Add(l: Expr, r: Expr)
    | Subtract(l: Expr, r: Expr)
    | Multiply(l: Expr, r: Expr)
    | Divide(l: Expr, r: Expr)
    | Sine(r: Expr)
    | Cosine(r: Expr)
    | Exponential(r: Expr)
    | Logarithm(r: Expr)
    | Power(r: Expr, k: real)
    | Absolute(r: Expr)

  /** Which derivative formula the `Power` node uses: the one written in
      dual2.h, or the power rule that the eager `pow` applies. */
  datatype PowerRule = AsWritten | Intended

  /** The storage objects an expression refers to. */
  function Objs(e: Expr): set<Dual2>
  {
    match e
    case Operand(x) => {x}
    case Add(l, r) => Objs(l) + Objs(r)
    case Subtract(l, r) => Objs(l) + Objs(r)
    case Multiply(l, r) => Objs(l) + Objs(r)
    case Divide(l, r) => Objs(l) + Objs(r)
    case Sine(r) => Objs(r)
    case Cosine(r) => Objs(r)
    case Exponential(r) => Objs(r)
    case Logarithm(r) => Objs(r)
    case Power(r, _) => Objs(r)
    case Absolute(r) => Objs(r)
  }

  /** The fields of the given objects as they are now. */
  function Now(s: set<Dual2>): (env: Env)
    reads s
    ensures env.Keys == s
    ensures forall x :: x in s ==> env[x] == Stored(x.value, x.derivative)
  {
    map x | x in s :: Stored(x.value, x.derivative)
  }

  /** The environment after `x`'s value is overwritten with `v`. */
  function AfterValueWrite(env: Env, x: Dual2, v: real): Env
  {
    if x in env then env[x := Stored(v, env[x].derivative)] else env
  }

  /** Every operand is in `env` and every divisor of a value query is non-zero. */
  predicate ValueDefined(e: Expr, env: Env, m: Elementary.Library)
    decreases e, 0
  {
    match e
    case Operand(x) => x in env
    case Add(l, r) => ValueDefined(l, env, m) && ValueDefined(r, env, m)
    case Subtract(l, r) => ValueDefined(l, env, m) && ValueDefined(r, env, m)
    case Multiply(l, r) => ValueDefined(l, env, m) && ValueDefined(r, env, m)
    case Divide(l, r) =>
      ValueDefined(l, env, m) && ValueDefined(r, env, m) && ValueIn(r, env, m) != 0.0
    case Sine(r) => ValueDefined(r, env, m)
    case Cosine(r) => ValueDefined(r, env, m)
    case Exponential(r) => ValueDefined(r, env, m)
    case Logarithm(r) => ValueDefined(r, env, m)
    case Power(r, _) => ValueDefined(r, env, m)
    case Absolute(r) => ValueDefined(r, env, m)
  }

  /** Every node's `v()`. */
  function ValueIn(e: Expr, env: Env, m: Elementary.Library): real
    requires ValueDefined(e, env, m)
    decreases e, 1
  {
    match e
    case Operand(x) => env[x].value
    case Add(l, r) => ValueIn(l, env, m) + ValueIn(r, env, m)
    case Subtract(l, r) => ValueIn(l, env, m) - ValueIn(r, env, m)
    case Multiply(l, r) => ValueIn(l, env, m) * ValueIn(r, env, m)
    case Divide(l, r) => ValueIn(l, env, m) / ValueIn(r, env, m)
    case Sine(r) => m.sin(ValueIn(r, env, m))
    case Cosine(r) => m.cos(ValueIn(r, env, m))
    case Exponential(r) => m.exp(ValueIn(r, env, m))
    case Logarithm(r) => m.log(ValueIn(r, env, m))
    case Power(r, k) => m.pow(ValueIn(r, env, m), k)
    case Absolute(r) => Elementary.Abs(ValueIn(r, env, m))
  }

  /** Value queries are defined, and so are derivative queries: the operands of
      `log` and `abs` have non-zero value. */
  predicate Defined(e: Expr, env: Env, m: Elementary.Library)
  {
    ValueDefined(e, env, m) &&
    match e
    case Operand(_) => true
    case Add(l, r) => Defined(l, env, m) && Defined(r, env, m)
    case Subtract(l, r) => Defined(l, env, m) && Defined(r, env, m)
    case Multiply(l, r) => Defined(l, env, m) && Defined(r, env, m)
    case Divide(l, r) => Defined(l, env, m) && Defined(r, env, m)
    case Sine(r) => Defined(r, env, m)
    case Cosine(r) => Defined(r, env, m)
    case Exponential(r) => Defined(r, env, m)
    case Logarithm(r) => Defined(r, env, m) && ValueIn(r, env, m) != 0.0
    case Power(r, _) => Defined(r, env, m)
    case Absolute(r) => Defined(r, env, m) && ValueIn(r, env, m) != 0.0
  }

  /** Every node's `dv()`. With `AsWritten`, the `Power` node computes
      `k * pow(v, k - 1 * dv)`, as C++ precedence reads dual2.h. */
  function DerivIn(e: Expr, env: Env, m: Elementary.Library, rule: PowerRule): real
    requires Defined(e, env, m)
  {
    match e
    case Operand(x) => env[x].derivative
    case Add(l, r) => DerivIn(l, env, m, rule) + DerivIn(r, env, m, rule)
    case Subtract(l, r) => DerivIn(l, env, m, rule) - DerivIn(r, env, m, rule)
    case Multiply(l, r) =>
      ValueIn(l, env, m) * DerivIn(r, env, m, rule) + DerivIn(l, env, m, rule) * ValueIn(r, env, m)
    case Divide(l, r) =>
      Elementary.QuotientRule(ValueIn(l, env, m), DerivIn(l, env, m, rule), ValueIn(r, env, m), DerivIn(r, env, m, rule))
    case Sine(r) => DerivIn(r, env, m, rule) * m.cos(ValueIn(r, env, m))
    case Cosine(r) => -DerivIn(r, env, m, rule) * m.sin(ValueIn(r, env, m))
    case Exponential(r) => DerivIn(r, env, m, rule) * m.exp(ValueIn(r, env, m))
    case Logarithm(r) => DerivIn(r, env, m, rule) / ValueIn(r, env, m)
    case Power(r, k) =>
      if rule == AsWritten then k * m.pow(ValueIn(r, env, m), k - 1.0 * DerivIn(r, env, m, rule))
      else k * m.pow(ValueIn(r, env, m), k - 1.0) * DerivIn(r, env, m, rule)
    case Absolute(r) =>
      Elementary.AbsRule(ValueIn(r, env, m), DerivIn(r, env, m, rule))
  }

  /** `v()` of an expression, against the operands as they are now. */
  function Value(e: Expr, m: Elementary.Library): real
    reads Objs(e)
    requires ValueDefined(e, Now(Objs(e)), m)
  {
    ValueIn(e, Now(Objs(e)), m)
  }

  /** `dv()` of an expression, against the operands as they are now. */
  function Deriv(e: Expr, m: Elementary.Library): real
    reads Objs(e)
    requires Defined(e, Now(Objs(e)), m)
  {
    DerivIn(e, Now(Objs(e)), m, AsWritten)
  }

  /** `eval()` of a node: a new `Dual2` holding the node's value and derivative.
      It changes no existing object. */
  method Eval(e: Expr, m: Elementary.Library) returns (r: Dual2)
    requires !e.Operand?
    requires Defined(e, Now(Objs(e)), m)
    ensures fresh(r)
    ensures r.value == old(Value(e, m)) && r.derivative == old(Deriv(e, m))
  {
    var v, d := Value(e, m), Deriv(e, m);
    r := new Dual2(v, d);
  }

  /** The expression contains no `Power` node. */
  predicate PowerFree(e: Expr)
  {
    match e
    case Operand(_) => true
    case Add(l, r) => PowerFree(l) && PowerFree(r)
    case Subtract(l, r) => PowerFree(l) && PowerFree(r)
    case Multiply(l, r) => PowerFree(l) && PowerFree(r)
    case Divide(l, r) => PowerFree(l) && PowerFree(r)
    case Sine(r) => PowerFree(r)
    case Cosine(r) => PowerFree(r)
    case Exponential(r) => PowerFree(r)
    case Logarithm(r) => PowerFree(r)
    case Power(_, _) => false
    case Absolute(r) => PowerFree(r)
  }

  /** Every `Power` node's operand has derivative exactly 1, as a seeded
      variable does. */
  predicate PowersSeeded(e: Expr, env: Env, m: Elementary.Library)
    requires Defined(e, env, m)
  {
    match e
    case Operand(_) => true
    case Add(l, r) => PowersSeeded(l, env, m) && PowersSeeded(r, env, m)
    case Subtract(l, r) => PowersSeeded(l, env, m) && PowersSeeded(r, env, m)
    case Multiply(l, r) => PowersSeeded(l, env, m) && PowersSeeded(r, env, m)
    case Divide(l, r) => PowersSeeded(l, env, m) && PowersSeeded(r, env, m)
    case Sine(r) => PowersSeeded(r, env, m)
    case Cosine(r) => PowersSeeded(r, env, m)
    case Exponential(r) => PowersSeeded(r, env, m)
    case Logarithm(r) => PowersSeeded(r, env, m)
    case Power(r, _) => PowersSeeded(r, env, m) && DerivIn(r, env, m, AsWritten) == 1.0
    case Absolute(r) => PowersSeeded(r, env, m)
  }

  /** `v()` reads only the operands of its own tree: storing into any other
      object leaves the answer unchanged, so nothing outside the tree affects
      a query. */
  lemma {:induction false} ValuesIgnoreOtherObjects(e: Expr, env: Env, y: Dual2, s: Stored, m: Elementary.Library)
    requires y !in Objs(e)
    ensures ValueDefined(e, env[y := s], m) == ValueDefined(e, env, m)
    ensures ValueDefined(e, env, m) ==> ValueIn(e, env[y := s], m) == ValueIn(e, env, m)
  {
    match e
    case Operand(_) =>
    case Add(l, r) => ValuesIgnoreOtherObjects(l, env, y, s, m); ValuesIgnoreOtherObjects(r, env, y, s, m);
    case Subtract(l, r) => ValuesIgnoreOtherObjects(l, env, y, s, m); ValuesIgnoreOtherObjects(r, env, y, s, m);
    case Multiply(l, r) => ValuesIgnoreOtherObjects(l, env, y, s, m); ValuesIgnoreOtherObjects(r, env, y, s, m);
    case Divide(l, r) => ValuesIgnoreOtherObjects(l, env, y, s, m); ValuesIgnoreOtherObjects(r, env, y, s, m);
    case Sine(r) => ValuesIgnoreOtherObjects(r, env, y, s, m);
    case Cosine(r) => ValuesIgnoreOtherObjects(r, env, y, s, m);
    case Exponential(r) => ValuesIgnoreOtherObjects(r, env, y, s, m);
    case Logarithm(r) => ValuesIgnoreOtherObjects(r, env, y, s, m);
    case Power(r, _) => ValuesIgnoreOtherObjects(r, env, y, s, m);
    case Absolute(r) => ValuesIgnoreOtherObjects(r, env, y, s, m);
  }

  /** Whether `dv()` is defined does not depend on other objects either. */
  lemma {:induction false} DefinedIgnoresOtherObjects(e: Expr, env: Env, y: Dual2, s: Stored, m: Elementary.Library)
    requires y !in Objs(e)
    ensures Defined(e, env[y := s], m) == Defined(e, env, m)
  {
    match e
    case Operand(_) =>
    case Add(l, r) => DefinedIgnoresOtherObjects(l, env, y, s, m); ValuesIgnoreOtherObjects(l, env, y, s, m); DefinedIgnoresOtherObjects(r, env, y, s, m); ValuesIgnoreOtherObjects(r, env, y, s, m);
    case Subtract(l, r) => DefinedIgnoresOtherObjects(l, env, y, s, m); ValuesIgnoreOtherObjects(l, env, y, s, m); DefinedIgnoresOtherObjects(r, env, y, s, m); ValuesIgnoreOtherObjects(r, env, y, s, m);
    case Multiply(l, r) => DefinedIgnoresOtherObjects(l, env, y, s, m); ValuesIgnoreOtherObjects(l, env, y, s, m); DefinedIgnoresOtherObjects(r, env, y, s, m); ValuesIgnoreOtherObjects(r, env, y, s, m);
    case Divide(l, r) => DefinedIgnoresOtherObjects(l, env, y, s, m); ValuesIgnoreOtherObjects(l, env, y, s, m); DefinedIgnoresOtherObjects(r, env, y, s, m); ValuesIgnoreOtherObjects(r, env, y, s, m);
    case Sine(r) => DefinedIgnoresOtherObjects(r, env, y, s, m); ValuesIgnoreOtherObjects(r, env, y, s, m);
    case Cosine(r) => DefinedIgnoresOtherObjects(r, env, y, s, m); ValuesIgnoreOtherObjects(r, env, y, s, m);
    case Exponential(r) => DefinedIgnoresOtherObjects(r, env, y, s, m); ValuesIgnoreOtherObjects(r, env, y, s, m);
    case Logarithm(r) => DefinedIgnoresOtherObjects(r, env, y, s, m); ValuesIgnoreOtherObjects(r, env, y, s, m);
    case Power(r, _) => DefinedIgnoresOtherObjects(r, env, y, s, m); ValuesIgnoreOtherObjects(r, env, y, s, m);
    case Absolute(r) => DefinedIgnoresOtherObjects(r, env, y, s, m); ValuesIgnoreOtherObjects(r, env, y, s, m);
  }
}
