/** The two designs side by side: a lazy expression tree evaluated by its nodes'
    `v()`/`dv()` against the same tree evaluated with the eager operators and
    functions of dual.h. */
module Equivalence {
  import Elementary
  import Eager
  import opened Lazy

  /** The eager pair of a stored operand. */
  function Leaf(s: Stored): Eager.Dual
  {
    Eager.Dual(s.value, s.derivative)
  }

  /** The eager evaluation is defined: every divisor, and every operand of `log`
      and `abs`, has non-zero value. */
  predicate EagerDefined(e: Expr, env: Env, m: Elementary.Library)
    decreases e, 0
  {
    match e
    case Operand(x) => x in env
    case Add(l, r) => EagerDefined(l, env, m) && EagerDefined(r, env, m)
    case Subtract(l, r) => EagerDefined(l, env, m) && EagerDefined(r, env, m)
    case Multiply(l, r) => EagerDefined(l, env, m) && EagerDefined(r, env, m)
    case Divide(l, r) =>
      EagerDefined(l, env, m) && EagerDefined(r, env, m) && Eagerly(r, env, m).v != 0.0
    case Sine(r) => EagerDefined(r, env, m)
    case Cosine(r) => EagerDefined(r, env, m)
    case Exponential(r) => EagerDefined(r, env, m)
    case Logarithm(r) => EagerDefined(r, env, m) && Eagerly(r, env, m).v != 0.0
    case Power(r, _) => EagerDefined(r, env, m)
    case Absolute(r) => EagerDefined(r, env, m) && Eagerly(r, env, m).v != 0.0
  }

  /** The same tree computed with the eager operators: each node builds its
      pair at once from its operands' pairs. */
  function Eagerly(e: Expr, env: Env, m: Elementary.Library): Eager.Dual
    requires EagerDefined(e, env, m)
    decreases e, 1
  {
    match e
    case Operand(x) => Leaf(env[x])
    case Add(l, r) => Eager.Add(Eagerly(l, env, m), Eagerly(r, env, m))
    case Subtract(l, r) => Eager.Sub(Eagerly(l, env, m), Eagerly(r, env, m))
    case Multiply(l, r) => Eager.Mul(Eagerly(l, env, m), Eagerly(r, env, m))
    case Divide(l, r) => Eager.Div(Eagerly(l, env, m), Eagerly(r, env, m))
    case Sine(r) => Eager.Sin(m, Eagerly(r, env, m))
    case Cosine(r) => Eager.Cos(m, Eagerly(r, env, m))
    case Exponential(r) => Eager.Exp(m, Eagerly(r, env, m))
    case Logarithm(r) => Eager.Log(m, Eagerly(r, env, m))
    case Power(r, k) => Eager.Pow(m, Eagerly(r, env, m), k)
    case Absolute(r) => Eager.Abs(Eagerly(r, env, m))
  }

  /** What a node's `v()` and `dv()` return, as one pair. */
  function Queried(e: Expr, env: Env, m: Elementary.Library, rule: PowerRule): Eager.Dual
    requires Defined(e, env, m)
  {
    Eager.Dual(ValueIn(e, env, m), DerivIn(e, env, m, rule))
  }

  // One node at a time: each node's `v()` and `dv()` return what the matching
  // eager operator returns on its operands' query results.

  lemma AddNode(l: Expr, r: Expr, env: Env, m: Elementary.Library, rule: PowerRule)
    requires Defined(Add(l, r), env, m)
    ensures Queried(Add(l, r), env, m, rule) == Eager.Add(Queried(l, env, m, rule), Queried(r, env, m, rule))
  {
    assert Defined(l, env, m) && Defined(r, env, m);
    var a, b := Queried(l, env, m, rule), Queried(r, env, m, rule);
    var q := Queried(Add(l, r), env, m, rule);
    assert q.v == a.v + b.v;
    assert q.dv == a.dv + b.dv;
  }

  lemma SubtractNode(l: Expr, r: Expr, env: Env, m: Elementary.Library, rule: PowerRule)
    requires Defined(Subtract(l, r), env, m)
    ensures Queried(Subtract(l, r), env, m, rule) == Eager.Sub(Queried(l, env, m, rule), Queried(r, env, m, rule))
  {
    assert Defined(l, env, m) && Defined(r, env, m);
    var a, b := Queried(l, env, m, rule), Queried(r, env, m, rule);
    var q := Queried(Subtract(l, r), env, m, rule);
    assert q.v == a.v - b.v;
    assert q.dv == a.dv - b.dv;
  }

  lemma MultiplyNode(l: Expr, r: Expr, env: Env, m: Elementary.Library, rule: PowerRule)
    requires Defined(Multiply(l, r), env, m)
    ensures Queried(Multiply(l, r), env, m, rule) == Eager.Mul(Queried(l, env, m, rule), Queried(r, env, m, rule))
  {
    assert Defined(l, env, m) && Defined(r, env, m);
    var a, b := Queried(l, env, m, rule), Queried(r, env, m, rule);
    var q := Queried(Multiply(l, r), env, m, rule);
    assert q.v == a.v * b.v;
    assert q.dv == a.v * b.dv + a.dv * b.v;
  }

  lemma DivideNode(l: Expr, r: Expr, env: Env, m: Elementary.Library, rule: PowerRule)
    requires Defined(Divide(l, r), env, m)
    ensures Queried(r, env, m, rule).v != 0.0
    ensures Queried(Divide(l, r), env, m, rule) == Eager.Div(Queried(l, env, m, rule), Queried(r, env, m, rule))
  {
    assert Defined(l, env, m) && Defined(r, env, m);
    var a, b := Queried(l, env, m, rule), Queried(r, env, m, rule);
    var q := Queried(Divide(l, r), env, m, rule);
    assert q.v == a.v / b.v;
    assert q.dv == Elementary.QuotientRule(a.v, a.dv, b.v, b.dv);
  }

  lemma SineNode(r: Expr, env: Env, m: Elementary.Library, rule: PowerRule)
    requires Defined(Sine(r), env, m)
    ensures Queried(Sine(r), env, m, rule) == Eager.Sin(m, Queried(r, env, m, rule))
  {
    assert Defined(r, env, m);
    var a := Queried(r, env, m, rule);
    var q := Queried(Sine(r), env, m, rule);
    assert q.v == m.sin(a.v);
    assert q.dv == a.dv * m.cos(a.v);
  }

  lemma CosineNode(r: Expr, env: Env, m: Elementary.Library, rule: PowerRule)
    requires Defined(Cosine(r), env, m)
    ensures Queried(Cosine(r), env, m, rule) == Eager.Cos(m, Queried(r, env, m, rule))
  {
    assert Defined(r, env, m);
    var a := Queried(r, env, m, rule);
    var q := Queried(Cosine(r), env, m, rule);
    assert q.v == m.cos(a.v);
    assert q.dv == -a.dv * m.sin(a.v);
  }

  lemma ExponentialNode(r: Expr, env: Env, m: Elementary.Library, rule: PowerRule)
    requires Defined(Exponential(r), env, m)
    ensures Queried(Exponential(r), env, m, rule) == Eager.Exp(m, Queried(r, env, m, rule))
  {
    assert Defined(r, env, m);
    var a := Queried(r, env, m, rule);
    var q := Queried(Exponential(r), env, m, rule);
    assert q.v == m.exp(a.v);
    assert q.dv == a.dv * m.exp(a.v);
  }

  lemma LogarithmNode(r: Expr, env: Env, m: Elementary.Library, rule: PowerRule)
    requires Defined(Logarithm(r), env, m)
    ensures Queried(r, env, m, rule).v != 0.0
    ensures Queried(Logarithm(r), env, m, rule) == Eager.Log(m, Queried(r, env, m, rule))
  {
    assert Defined(r, env, m);
    var a := Queried(r, env, m, rule);
    var q := Queried(Logarithm(r), env, m, rule);
    assert q.v == m.log(a.v);
    assert q.dv == a.dv / a.v;
  }

  lemma AbsoluteNode(r: Expr, env: Env, m: Elementary.Library, rule: PowerRule)
    requires Defined(Absolute(r), env, m)
    ensures Queried(r, env, m, rule).v != 0.0
    ensures Queried(Absolute(r), env, m, rule) == Eager.Abs(Queried(r, env, m, rule))
  {
    assert Defined(r, env, m);
    var a := Queried(r, env, m, rule);
    var q := Queried(Absolute(r), env, m, rule);
    assert q.v == Elementary.Abs(a.v);
    assert q.dv == Elementary.AbsRule(a.v, a.dv);
  }

  /** The `Power` node as an operator on pairs: as written, `dv()` is
      `k * pow(v, k - 1 * dv)`; under the intended rule it is the eager `pow`. */
  function PowerPair(m: Elementary.Library, a: Eager.Dual, k: real, rule: PowerRule): Eager.Dual
  {
    if rule == AsWritten then Eager.Dual(m.pow(a.v, k), k * m.pow(a.v, k - 1.0 * a.dv))
    else Eager.Pow(m, a, k)
  }

  lemma PowerNode(r: Expr, k: real, env: Env, m: Elementary.Library, rule: PowerRule)
    requires Defined(Power(r, k), env, m)
    ensures Queried(Power(r, k), env, m, rule) == PowerPair(m, Queried(r, env, m, rule), k, rule)
  {
    assert Defined(r, env, m);
    var a := Queried(r, env, m, rule);
    var q := Queried(Power(r, k), env, m, rule);
    assert q.v == m.pow(a.v, k);
    if rule == AsWritten {
      assert q.dv == k * m.pow(a.v, k - 1.0 * a.dv);
    } else {
      assert q.dv == k * m.pow(a.v, k - 1.0) * a.dv;
    }
  }

  /** Under the intended rule the node is the eager `pow`; as written it is too
      whenever the operand's derivative is 1, as for a seeded variable. */
  lemma PowerRulesAgreeWhenSeeded(m: Elementary.Library, a: Eager.Dual, k: real, rule: PowerRule)
    requires rule == Intended || a.dv == 1.0
    ensures PowerPair(m, a, k, rule) == Eager.Pow(m, a, k)
  {
  }

  /** Conversely, for a non-zero exponent the as-written node departs from the
      eager `pow` on every operand whose derivative is not 1: some `pow` makes
      the two derivatives differ. The witness `pow` is 0 at the exponent
      `k - 1` and 1 elsewhere, so the node as written gives `k` where eager
      `pow` gives 0. */
  lemma PowerRulesDisagreeUnlessSeeded(a: Eager.Dual, k: real)
    requires k != 0.0 && a.dv != 1.0
    ensures exists m: Elementary.Library :: PowerPair(m, a, k, AsWritten) != Eager.Pow(m, a, k)
  {
    var id := (x: real) => x;
    var m := Elementary.Library(id, id, id, id, (x: real, y: real) => if y == k - 1.0 then 0.0 else 1.0);
    assert k - 1.0 * a.dv != k - 1.0;
    assert PowerPair(m, a, k, AsWritten).dv == k;
    assert Eager.Pow(m, a, k).dv == 0.0;
  }

  /** For a non-zero exponent, the as-written `Power` node agrees with the
      eager `pow` under every `pow` exactly when its operand's derivative is 1. */
  lemma PowerRulesAgreeExactlyWhenSeeded(a: Eager.Dual, k: real)
    requires k != 0.0
    ensures (forall m: Elementary.Library :: PowerPair(m, a, k, AsWritten) == Eager.Pow(m, a, k)) <==> a.dv == 1.0
  {
    if a.dv == 1.0 {
      forall m: Elementary.Library
        ensures PowerPair(m, a, k, AsWritten) == Eager.Pow(m, a, k)
      {
        PowerRulesAgreeWhenSeeded(m, a, k, AsWritten);
      }
    } else {
      PowerRulesDisagreeUnlessSeeded(a, k);
    }
  }

  /** `v()` and `dv()` read only the operands of their own tree: storing into
      any other object changes neither answer, so nothing outside the tree
      affects a query. */
  lemma {:induction false} QueriesIgnoreOtherObjects(e: Expr, env: Env, y: Dual2, s: Stored, m: Elementary.Library, rule: PowerRule)
    requires y !in Objs(e) && Defined(e, env, m)
    ensures Defined(e, env[y := s], m)
    ensures Queried(e, env[y := s], m, rule) == Queried(e, env, m, rule)
    decreases e, 1
  {
    DefinedIgnoresOtherObjects(e, env, y, s, m);
    if e.Operand? {
    } else if e.Add? || e.Subtract? || e.Multiply? || e.Divide? {
      BinaryIgnoresOtherObjects(e, env, y, s, m, rule);
    } else if e.Sine? || e.Cosine? || e.Exponential? {
      SmoothIgnoresOtherObjects(e, env, y, s, m, rule);
    } else {
      GuardedIgnoresOtherObjects(e, env, y, s, m, rule);
    }
  }

  lemma {:induction false} BinaryIgnoresOtherObjects(e: Expr, env: Env, y: Dual2, s: Stored, m: Elementary.Library, rule: PowerRule)
    requires e.Add? || e.Subtract? || e.Multiply? || e.Divide?
    requires y !in Objs(e) && Defined(e, env, m) && Defined(e, env[y := s], m)
    ensures Queried(e, env[y := s], m, rule) == Queried(e, env, m, rule)
    decreases e, 0
  {
    match e
    case Add(l, r) =>
      QueriesIgnoreOtherObjects(l, env, y, s, m, rule); QueriesIgnoreOtherObjects(r, env, y, s, m, rule);
      AddNode(l, r, env, m, rule); AddNode(l, r, env[y := s], m, rule);
    case Subtract(l, r) =>
      QueriesIgnoreOtherObjects(l, env, y, s, m, rule); QueriesIgnoreOtherObjects(r, env, y, s, m, rule);
      SubtractNode(l, r, env, m, rule); SubtractNode(l, r, env[y := s], m, rule);
    case Multiply(l, r) =>
      QueriesIgnoreOtherObjects(l, env, y, s, m, rule); QueriesIgnoreOtherObjects(r, env, y, s, m, rule);
      MultiplyNode(l, r, env, m, rule); MultiplyNode(l, r, env[y := s], m, rule);
    case Divide(l, r) =>
      QueriesIgnoreOtherObjects(l, env, y, s, m, rule); QueriesIgnoreOtherObjects(r, env, y, s, m, rule);
      DivideNode(l, r, env, m, rule); DivideNode(l, r, env[y := s], m, rule);
  }

  lemma {:induction false} SmoothIgnoresOtherObjects(e: Expr, env: Env, y: Dual2, s: Stored, m: Elementary.Library, rule: PowerRule)
    requires e.Sine? || e.Cosine? || e.Exponential?
    requires y !in Objs(e) && Defined(e, env, m) && Defined(e, env[y := s], m)
    ensures Queried(e, env[y := s], m, rule) == Queried(e, env, m, rule)
    decreases e, 0
  {
    match e
    case Sine(r) =>
      QueriesIgnoreOtherObjects(r, env, y, s, m, rule); SineNode(r, env, m, rule); SineNode(r, env[y := s], m, rule);
    case Cosine(r) =>
      QueriesIgnoreOtherObjects(r, env, y, s, m, rule); CosineNode(r, env, m, rule); CosineNode(r, env[y := s], m, rule);
    case Exponential(r) =>
      QueriesIgnoreOtherObjects(r, env, y, s, m, rule); ExponentialNode(r, env, m, rule); ExponentialNode(r, env[y := s], m, rule);
  }

  lemma {:induction false} GuardedIgnoresOtherObjects(e: Expr, env: Env, y: Dual2, s: Stored, m: Elementary.Library, rule: PowerRule)
    requires e.Logarithm? || e.Power? || e.Absolute?
    requires y !in Objs(e) && Defined(e, env, m) && Defined(e, env[y := s], m)
    ensures Queried(e, env[y := s], m, rule) == Queried(e, env, m, rule)
    decreases e, 0
  {
    match e
    case Logarithm(r) =>
      QueriesIgnoreOtherObjects(r, env, y, s, m, rule); LogarithmNode(r, env, m, rule); LogarithmNode(r, env[y := s], m, rule);
    case Power(r, k) =>
      QueriesIgnoreOtherObjects(r, env, y, s, m, rule); PowerNode(r, k, env, m, rule); PowerNode(r, k, env[y := s], m, rule);
    case Absolute(r) =>
      QueriesIgnoreOtherObjects(r, env, y, s, m, rule); AbsoluteNode(r, env, m, rule); AbsoluteNode(r, env[y := s], m, rule);
  }


  /** Both designs are defined on the same trees, and there they compute the
      same values, `Power` nodes included: only derivatives can differ. */
  lemma {:induction false} ValuesAgree(e: Expr, env: Env, m: Elementary.Library)
    ensures Defined(e, env, m) <==> EagerDefined(e, env, m)
    ensures Defined(e, env, m) ==> ValueIn(e, env, m) == Eagerly(e, env, m).v
  {
    match e
    case Operand(x) =>
    case Add(l, r) => ValuesAgree(l, env, m); ValuesAgree(r, env, m);
    case Subtract(l, r) => ValuesAgree(l, env, m); ValuesAgree(r, env, m);
    case Multiply(l, r) => ValuesAgree(l, env, m); ValuesAgree(r, env, m);
    case Divide(l, r) => ValuesAgree(l, env, m); ValuesAgree(r, env, m);
    case Sine(r) => ValuesAgree(r, env, m);
    case Cosine(r) => ValuesAgree(r, env, m);
    case Exponential(r) => ValuesAgree(r, env, m);
    case Logarithm(r) => ValuesAgree(r, env, m);
    case Power(r, _) => ValuesAgree(r, env, m);
    case Absolute(r) => ValuesAgree(r, env, m);
  }

  /** Value and derivative agree with the eager pair whenever every `Power` node
      sees an operand with derivative 1, and always under the intended power rule. */
  lemma {:induction false} QueriesAgree(e: Expr, env: Env, m: Elementary.Library, rule: PowerRule)
    requires Defined(e, env, m)
    requires rule == Intended || PowersSeeded(e, env, m)
    ensures EagerDefined(e, env, m)
    ensures Queried(e, env, m, rule) == Eagerly(e, env, m)
  {
    ValuesAgree(e, env, m);
    match e
    case Operand(x) =>
    case Add(l, r) =>
      QueriesAgree(l, env, m, rule); QueriesAgree(r, env, m, rule); AddNode(l, r, env, m, rule);
    case Subtract(l, r) =>
      QueriesAgree(l, env, m, rule); QueriesAgree(r, env, m, rule); SubtractNode(l, r, env, m, rule);
    case Multiply(l, r) =>
      QueriesAgree(l, env, m, rule); QueriesAgree(r, env, m, rule); MultiplyNode(l, r, env, m, rule);
    case Divide(l, r) =>
      QueriesAgree(l, env, m, rule); QueriesAgree(r, env, m, rule); DivideNode(l, r, env, m, rule);
    case Sine(r) => QueriesAgree(r, env, m, rule); SineNode(r, env, m, rule);
    case Cosine(r) => QueriesAgree(r, env, m, rule); CosineNode(r, env, m, rule);
    case Exponential(r) => QueriesAgree(r, env, m, rule); ExponentialNode(r, env, m, rule);
    case Logarithm(r) => QueriesAgree(r, env, m, rule); LogarithmNode(r, env, m, rule);
    case Power(r, k) =>
      QueriesAgree(r, env, m, rule); PowerNode(r, k, env, m, rule);
      PowerRulesAgreeWhenSeeded(m, Queried(r, env, m, rule), k, rule);
    case Absolute(r) => QueriesAgree(r, env, m, rule); AbsoluteNode(r, env, m, rule);
  }

  /** A tree without `Power` nodes trivially has all its powers seeded. */
  lemma {:induction false} PowerFreeIsSeeded(e: Expr, env: Env, m: Elementary.Library)
    requires Defined(e, env, m) && PowerFree(e)
    ensures PowersSeeded(e, env, m)
  {
    match e
    case Operand(_) =>
    case Add(l, r) => PowerFreeIsSeeded(l, env, m); PowerFreeIsSeeded(r, env, m);
    case Subtract(l, r) => PowerFreeIsSeeded(l, env, m); PowerFreeIsSeeded(r, env, m);
    case Multiply(l, r) => PowerFreeIsSeeded(l, env, m); PowerFreeIsSeeded(r, env, m);
    case Divide(l, r) => PowerFreeIsSeeded(l, env, m); PowerFreeIsSeeded(r, env, m);
    case Sine(r) => PowerFreeIsSeeded(r, env, m);
    case Cosine(r) => PowerFreeIsSeeded(r, env, m);
    case Exponential(r) => PowerFreeIsSeeded(r, env, m);
    case Logarithm(r) => PowerFreeIsSeeded(r, env, m);
    case Absolute(r) => PowerFreeIsSeeded(r, env, m);
  }

  /** Lazy/eager equivalence for the source as written: for every tree without
      `Power`, the nodes' `v()` and `dv()` equal the eager evaluation. */
  lemma LazyEagerEquivalence(e: Expr, env: Env, m: Elementary.Library)
    requires Defined(e, env, m) && PowerFree(e)
    ensures EagerDefined(e, env, m)
    ensures Queried(e, env, m, AsWritten) == Eagerly(e, env, m)
  {
    PowerFreeIsSeeded(e, env, m);
    QueriesAgree(e, env, m, AsWritten);
  }

  /** With the power rule the eager `pow` applies, the equivalence holds for
      every tree. */
  lemma CorrectedLazyEagerEquivalence(e: Expr, env: Env, m: Elementary.Library)
    requires Defined(e, env, m)
    ensures EagerDefined(e, env, m)
    ensures Queried(e, env, m, Intended) == Eagerly(e, env, m)
  {
    QueriesAgree(e, env, m, Intended);
  }

  /** The `Power` node as written gives a constant operand (derivative 0) the
      derivative `k * pow(v, k)`, which is non-zero whenever `k` and `pow(v, k)`
      are; the eager `pow` gives it 0. */
  lemma PowerOfConstantAsWritten(x: Dual2, v: real, k: real, m: Elementary.Library)
    requires k != 0.0 && m.pow(v, k) != 0.0
    ensures Defined(Power(Operand(x), k), map[x := Stored(v, 0.0)], m)
    ensures DerivIn(Power(Operand(x), k), map[x := Stored(v, 0.0)], m, AsWritten) == k * m.pow(v, k)
    ensures DerivIn(Power(Operand(x), k), map[x := Stored(v, 0.0)], m, AsWritten) != 0.0
    ensures Eagerly(Power(Operand(x), k), map[x := Stored(v, 0.0)], m).dv == 0.0
  {
    var env := map[x := Stored(v, 0.0)];
    assert Defined(Operand(x), env, m);
    assert Defined(Power(Operand(x), k), env, m);
    assert DerivIn(Power(Operand(x), k), env, m, AsWritten) == k * m.pow(v, k - 1.0 * 0.0);
    assert k - 1.0 * 0.0 == k;
  }

  /** Every operand has derivative 0 in `env`. */
  predicate AllConstant(e: Expr, env: Env)
  {
    forall x :: x in Objs(e) ==> x in env && env[x].derivative == 0.0
  }

  /** Eagerly, an expression over constants is a constant: its derivative is 0.
      The same holds for the lazy nodes under the intended power rule. */
  lemma ConstantsStayConstant(e: Expr, env: Env, m: Elementary.Library)
    requires EagerDefined(e, env, m) && AllConstant(e, env)
    ensures Eagerly(e, env, m).dv == 0.0
    ensures Defined(e, env, m) && DerivIn(e, env, m, Intended) == 0.0
  {
    EagerConstantsStayConstant(e, env, m);
    ValuesAgree(e, env, m);
    CorrectedLazyEagerEquivalence(e, env, m);
  }

  lemma {:induction false} EagerConstantsStayConstant(e: Expr, env: Env, m: Elementary.Library)
    requires EagerDefined(e, env, m) && AllConstant(e, env)
    ensures Eagerly(e, env, m).dv == 0.0
  {
    match e
    case Operand(x) =>
    case Add(l, r) => EagerConstantsStayConstant(l, env, m); EagerConstantsStayConstant(r, env, m);
    case Subtract(l, r) => EagerConstantsStayConstant(l, env, m); EagerConstantsStayConstant(r, env, m);
    case Multiply(l, r) => EagerConstantsStayConstant(l, env, m); EagerConstantsStayConstant(r, env, m);
    case Divide(l, r) => EagerConstantsStayConstant(l, env, m); EagerConstantsStayConstant(r, env, m);
    case Sine(r) => EagerConstantsStayConstant(r, env, m);
    case Cosine(r) => EagerConstantsStayConstant(r, env, m);
    case Exponential(r) => EagerConstantsStayConstant(r, env, m);
    case Logarithm(r) => EagerConstantsStayConstant(r, env, m);
    case Power(r, _) => EagerConstantsStayConstant(r, env, m);
    case Absolute(r) => EagerConstantsStayConstant(r, env, m);
  }
}
