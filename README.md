# Dual numbers for forward-mode differentiation

This project models the two scalar dual-number designs of the `autodiff`
library and proves properties about them. A dual number is a pair: a value,
and the derivative of that value with respect to one chosen variable. To
differentiate with respect to `x`, the caller seeds `x` as `(x0, 1)` and gives
every other input derivative 0. Each operator then carries the pair forward
with the sum, product, quotient and chain rules.

- **Eager `Dual`** (`include/dual.h`, module `Eager` in `eager.dfy`). Every
  operator and elementary function returns a new pair straight away. `Dual` is
  a value type, so it is a `datatype`. The constructors, the setters and the
  operators are pure functions. A setter is a record update.
- **Lazy `Dual2`** (`include/dual2.h`, module `Lazy` in `lazy.dfy`).
  - `Dual2` is concrete storage whose fields are updated in place. It is a
    `class` with the four constructors, `setValue`, `setDerivative` and the
    templated assignment `operator=`.
  - The operators and `sin`/`cos`/`exp`/`log`/`pow`/`abs` build expression
    nodes (`Add`, `Subtract`, …, `Absolute`). A node holds references to its
    operands and computes `v()` and `dv()` from them each time it is queried.
    In the model a node is an `Expr` datatype whose leaves are `Operand`
    references to `Dual2` objects.
  - A query is the pair of functions `ValueIn`/`DerivIn`. They run over the
    operands' stored fields (`Env`). `Value`/`Deriv` evaluate against the heap
    as it is now, and read only the tree's own operands.
  - `Eval` is a node's `eval()`: it returns a fresh `Dual2` and changes no
    existing object.
- **Equivalence** (`equivalence.dfy`). `Eagerly` evaluates the same tree with
  the eager operations. Each node's `(v(), dv())` equals the eager operation
  applied to its operands' pairs. By induction, a whole tree with no `pow` node
  gives exactly the eager pair. The `Power` node is modelled as written:
  - for a non-zero exponent it agrees with eager `pow`, whatever `pow` computes,
    exactly when its operand's derivative is 1, as for a seeded variable
    (`PowerRulesAgreeWhenSeeded`, `PowerRulesDisagreeUnlessSeeded`,
    `PowerRulesAgreeExactlyWhenSeeded`);
  - it disagrees on a constant operand (derivative 0) whenever `k` and
    `pow(v, k)` are non-zero (see Findings);
  - under the intended power rule the equivalence holds for every tree.
- **Scenarios** (`scenarios.dfy`, `lazy_scenarios.dfy`). The situations of
  `src/test_forward_scalar.cpp`, for both designs:
  - the seeded situations (test lines 69-119 and 180-237) are proved for every
    seed `x0`, not only for the sample point, and the lazy ones go through the
    assignment `f = expr`;
  - the constructor and arithmetic checks (test lines 15-67 and 126-178) are
    stated at their sample values, the lazy ones through `eval()`.

The scalar type `T` is `real`. The `<cmath>` functions `sin`, `cos`, `exp`, `log`
and `pow` are the fields of an `Elementary.Library` value passed to every
operation that applies one of them. Each theorem therefore holds whatever those functions compute: what
is verified is how each operator combines them, not their numeric content.
`abs` is defined on `real`. Division, the derivative of `log` and the derivative
of `abs` all divide by an operand's value. For the eager type this is a
`requires` that the divisor is non-zero. For the lazy nodes it is the predicate
`Lazy.Defined`.

## Model

| member | source | states |
|---|---|---|
| Elementary.Abs | include/dual.h:76-79 | the absolute value is non-negative, is `x` or `-x`, and is zero exactly when `x` is |
| Eager.Copy | include/dual.h:20-24 | the copy holds the original's value and derivative |
| Eager.SetValue | include/dual.h:27 | the value is replaced and the derivative is kept |
| Eager.SetDerivative | include/dual.h:28 | the derivative is replaced and the value is kept |
| Eager.Zero | include/dual.h:17 | none of its own: `Dual()` is `(0, 0)`; `LiftedConstantsAreScalars` shows it equals `Dual(0)` and is the identity of `+`, `ArithmeticVectors` checks the test's sample |
| Eager.Constant | include/dual.h:18 | none of its own: `Dual(value)` has derivative 0; `LiftedConstantsAreScalars` shows a constant only shifts or scales, `PowOfConstant` and `EagerConstantsStayConstant` that it stays constant |
| Eager.Add | include/dual.h:33-36 | none of its own; its laws are `RingLaws`, `AddSubRoundTrip` and `LiftedConstantsAreScalars` |
| Eager.Sub | include/dual.h:37-40 | none of its own; `AddSubRoundTrip` shows it inverts `Add`, `MulDistributes` that `*` distributes over it |
| Eager.Mul | include/dual.h:41-44 | none of its own; its laws are `RingLaws`, `MulAssociates`, `MulDistributes`, `MulCancel` and `QuotientInvertsProduct` |
| Eager.Div | include/dual.h:45-48 | none of its own; `QuotientInvertsProduct` shows it is the unique inverse of `Mul`, `MulDivRoundTrip` gives both round trips |
| Eager.Sin | include/dual.h:56-59 | none of its own; `ElementaryFunctionsFollowChainRule` gives the chain rule with slope `cos` |
| Eager.Cos | include/dual.h:60-63 | none of its own; `ElementaryFunctionsFollowChainRule` gives the chain rule with slope `-sin` |
| Eager.Exp | include/dual.h:64-67 | none of its own; `ElementaryFunctionsFollowChainRule` gives the chain rule with slope `exp` |
| Eager.Log | include/dual.h:68-71 | none of its own; `ElementaryFunctionsFollowChainRule` gives the chain rule with slope `1/v` |
| Eager.Pow | include/dual.h:72-75 | none of its own; `ElementaryFunctionsFollowChainRule` gives the power rule, `PowOfConstant` that a constant stays constant |
| Eager.Abs | include/dual.h:76-79 | none of its own; `ElementaryFunctionsFollowChainRule` gives the slope `v/abs(v)`, `AbsDerivativeSign` the sign cases |
| Eager.LiftedConstantsAreScalars | include/dual.h:17-44 | `Dual()` is `Dual(0)`; a lifted constant shifts or scales the value and adds nothing to the derivative; `0` and `1` are the identities of `+` and `*` |
| Eager.AddSubRoundTrip | include/dual.h:33-40 | `(a + b) - b == a`, `(a - b) + b == a`, and `a - a` is zero |
| Eager.RingLaws | include/dual.h:33-44 | `+` and `*` commute, and `+` associates |
| Eager.MulAssociates | include/dual.h:41-44 | the product rule is associative |
| Eager.MulDistributes | include/dual.h:33-44 | the product rule distributes over sum and difference |
| Eager.QuotientInvertsProduct | include/dual.h:41-48 | for a divisor with non-zero value, `q * b == a` if and only if `q == a / b` |
| Eager.MulDivRoundTrip | include/dual.h:41-48 | `(a * b) / b == a` and `(a / b) * b == a` for a divisor with non-zero value |
| Eager.MulCancel | include/dual.h:41-44 | multiplying by a dual number with non-zero value is injective |
| Eager.QuotientTimesDivisor | include/dual.h:47 | the quotient rule's value and derivative parts, multiplied back by the divisor, give the dividend |
| Eager.ElementaryFunctionsFollowChainRule | include/dual.h:56-79 | `sin`, `cos`, `exp`, `log`, `pow` and `abs` each return `(f(v), f'(v) * dv)`, with the slopes `cos`, `-sin`, `exp`, `1/v`, `k * pow(v, k-1)` and `v/abs(v)` |
| Eager.PowOfConstant | include/dual.h:72-75 | `pow` of a constant is a constant |
| Eager.AbsDerivativeSign | include/dual.h:76-79 | `abs` keeps a positive argument unchanged, negates both parts of a negative one, and never has a negative value |
| Lazy.Dual2.Zero | include/dual2.h:18 | the default constructor stores `(0, 0)` |
| Lazy.Dual2.Constant | include/dual2.h:19 | the value constructor stores `(v, 0)`, a constant |
| Lazy.Dual2.constructor | include/dual2.h:20 | the two-argument constructor stores `(v, d)` |
| Lazy.Dual2.Copy | include/dual2.h:21-25 | the copy holds the other object's value and derivative |
| Lazy.Dual2.SetValue | include/dual2.h:28 | the value is replaced and the derivative is kept |
| Lazy.Dual2.SetDerivative | include/dual2.h:29 | the derivative is replaced and the value is kept |
| Lazy.Dual2.Assign | include/dual2.h:33-38 | the value becomes the expression's value; the derivative is the expression's `dv()` queried after the value is stored; when the target is not an operand of the expression, both parts are the expression's pair at the time of the call |
| Lazy.Dual2.AssignAliasSafe | include/dual2.h:33-38 | the target receives the expression's value and derivative from the time of the call, even when it is one of the expression's operands |
| Lazy.Eval | include/dual2.h:62 | `eval()` returns a new object holding the node's current `v()` and `dv()`, and changes no existing object |
| Lazy.ValueIn | include/dual2.h:52-176 | none of its own: every node's `v()` over the operands' stored fields; `Equivalence.ValuesAgree` shows it is the eager value, `ValuesIgnoreOtherObjects` that it reads only the tree's operands |
| Lazy.DerivIn | include/dual2.h:52-176 | none of its own: every node's `dv()`, the `Power` node as written or corrected; `Equivalence.QueriesAgree`, `LazyEagerEquivalence` and `CorrectedLazyEagerEquivalence` relate it to the eager derivative, `PowerOfConstantAsWritten` shows where it departs |
| Lazy.Value | include/dual2.h:30-176 | none of its own: `v()` against the heap as it is now; `Eval` and `Assign` state their results through it |
| Lazy.Deriv | include/dual2.h:30-176 | none of its own: `dv()` against the heap as it is now; `Eval`, `Assign` and `AssignAliasSafe` state their results through it |
| Lazy.ValuesIgnoreOtherObjects | include/dual2.h:52-62 | `v()`, and whether it is defined, do not depend on any object outside the tree's operands |
| Lazy.DefinedIgnoresOtherObjects | include/dual2.h:52-62 | whether `dv()` is defined does not depend on any object outside the tree's operands |
| Equivalence.AddNode | include/dual2.h:60-61 | the `Add` node's pair is the eager sum of its operands' pairs |
| Equivalence.SubtractNode | include/dual2.h:73-74 | the `Subtract` node's pair is the eager difference |
| Equivalence.MultiplyNode | include/dual2.h:86-87 | the `Multiply` node's pair is the eager product |
| Equivalence.DivideNode | include/dual2.h:99-100 | the `Divide` node's pair is the eager quotient |
| Equivalence.SineNode | include/dual2.h:112-113 | the `Sine` node's pair is the eager `sin` |
| Equivalence.CosineNode | include/dual2.h:124-125 | the `Cosine` node's pair is the eager `cos` |
| Equivalence.ExponentialNode | include/dual2.h:136-137 | the `Exponential` node's pair is the eager `exp` |
| Equivalence.LogarithmNode | include/dual2.h:148-149 | the `Logarithm` node's pair is the eager `log` |
| Equivalence.AbsoluteNode | include/dual2.h:173-174 | the `Absolute` node's pair is the eager `abs` |
| Equivalence.PowerNode | include/dual2.h:161-162 | the `Power` node's pair is `(pow(v, k), k * pow(v, k - 1*dv))` as written, and the eager `pow` under the intended rule |
| Equivalence.PowerRulesAgreeWhenSeeded | include/dual2.h:162 | the `Power` node as written equals eager `pow` when its operand's derivative is 1 |
| Equivalence.PowerRulesDisagreeUnlessSeeded | include/dual2.h:162 | for a non-zero exponent and an operand whose derivative is not 1, some `pow` makes the `Power` node as written differ from eager `pow` |
| Equivalence.PowerRulesAgreeExactlyWhenSeeded | include/dual2.h:162 | for a non-zero exponent, the `Power` node as written equals eager `pow` under every `pow` if and only if its operand's derivative is 1 |
| Equivalence.QueriesIgnoreOtherObjects | include/dual2.h:52-176 | storing into an object that is not an operand of the tree changes neither `v()` nor `dv()` |
| Equivalence.ValuesAgree | include/dual2.h:52-176 | the lazy tree and its eager evaluation are defined on the same inputs and have the same value, `Power` nodes included |
| Equivalence.QueriesAgree | include/dual2.h:52-176 | the lazy pair equals the eager pair whenever every `Power` node's operand has derivative 1, and always under the intended power rule |
| Equivalence.LazyEagerEquivalence | include/dual2.h:52-176 | for every tree without `pow`, the lazy `v()` and `dv()` equal the eager pair |
| Equivalence.CorrectedLazyEagerEquivalence | include/dual2.h:153-164 | with the intended power rule, the lazy pair equals the eager pair for every tree |
| Equivalence.PowerOfConstantAsWritten | include/dual2.h:162 | the `Power` node as written gives a constant operand the non-zero derivative `k * pow(v, k)`, while eager `pow` gives 0 |
| Equivalence.ConstantsStayConstant | include/dual2.h:19 | an expression whose operands are all constants has derivative 0, both eagerly and lazily under the intended power rule |
| Equivalence.EagerConstantsStayConstant | include/dual.h:18 | eager operations on constants yield a constant |
| Scenarios.ArithmeticVectors | src/test_forward_scalar.cpp:15-67 | the eager constructors and `+ - * /` give the expected pairs on the sample inputs |
| Scenarios.SeededSquareThroughFunctions | src/test_forward_scalar.cpp:69-88 | for every seed `x0`, `sin`, `cos` and `exp` of `x*x` differentiate to `2 x0 f'(x0^2)` |
| Scenarios.SeededLogOfSquare | src/test_forward_scalar.cpp:90-95 | `log(x*x)` differentiates to `2 x0 / x0^2` for every non-zero seed |
| Scenarios.SeededCube | src/test_forward_scalar.cpp:97-102 | `x*x*x` differentiates to `3 x0^2`, which is also what `pow(x, 3)` gives when `pow(·, 2)` is the square |
| Scenarios.SeededAbsOfShiftedSquare | src/test_forward_scalar.cpp:104-109 | subtracting a lifted constant keeps the derivative of `x*x`, and `abs` scales it by the sign of the value |
| Scenarios.SeededNestedChain | src/test_forward_scalar.cpp:111-119 | `exp(sin(cos(log(x*x))))` differentiates to the product of the five slopes |
| LazyScenarios.Constructors | src/test_forward_scalar.cpp:126-142 | the four `Dual2` constructors store the expected pairs, and the copy is a distinct object |
| LazyScenarios.CopyIsDeep | include/dual2.h:21-25 | setting the fields of a copy leaves the original unchanged |
| LazyScenarios.AdditionByEval | src/test_forward_scalar.cpp:144-151 | `(x1 + x2).eval()` gives `(10.3, 10.4)` |
| LazyScenarios.SubtractionByEval | src/test_forward_scalar.cpp:153-160 | `(x1 - x2).eval()` gives `(-7.9, -4.6)` |
| LazyScenarios.MultiplicationByEval | src/test_forward_scalar.cpp:162-169 | `(x1 * x2).eval()` gives `(18, 60)` |
| LazyScenarios.DivisionByEval | src/test_forward_scalar.cpp:171-178 | `(x1 / x2).eval()` gives `(2, 2)` |
| LazyScenarios.SeededSquareQueries | src/test_forward_scalar.cpp:182-184 | the node `x1 * x1` over a seeded `x1` has value `x0^2` and derivative `2 x0` |
| LazyScenarios.SeededSmoothQueries | src/test_forward_scalar.cpp:180-202 | the nodes `sin`, `cos` and `exp` of `x1 * x1` over a seeded `x1` have derivatives `2 x0 f'(x0^2)` |
| LazyScenarios.SeededCubeQueries | src/test_forward_scalar.cpp:212-218 | the node `x1 * x1 * x1` over a seeded `x1` has derivative `3 x0^2` |
| LazyScenarios.SeededSmoothAssignments | src/test_forward_scalar.cpp:180-202 | assigning `sin`, `cos` and `exp` of `x1*x1` stores the derivatives `2 x0 f'(x0^2)` |
| LazyScenarios.SeededLogAssignment | src/test_forward_scalar.cpp:204-210 | assigning `log(x1*x1)` stores `2 x0 / x0^2` |
| LazyScenarios.SeededCubeAssignment | src/test_forward_scalar.cpp:212-218 | assigning `x1*x1*x1` stores `3 x0^2` |
| LazyScenarios.SeededAbsAssignment | src/test_forward_scalar.cpp:220-226 | assigning `abs(x1*x1 - Dual2(2.3, 0))` stores `2 x0 (x0^2 - 2.3) / abs(x0^2 - 2.3)` |
| LazyScenarios.SeededShiftedAbsQueries | src/test_forward_scalar.cpp:220-226 | the node `abs(x1*x1 - c)` with `c = (2.3, 0)` has derivative `2 x0 (x0^2 - 2.3) / abs(x0^2 - 2.3)` |
| LazyScenarios.NestedChainIsEager | src/test_forward_scalar.cpp:232-234 | the lazy tree `exp(sin(cos(log(x1*x1))))` over a non-zero seed is defined and evaluates eagerly to the eager chain on the seeded square |
| LazyScenarios.SeededNestedChainQueries | src/test_forward_scalar.cpp:234-235 | that tree's `dv()` is the product of the five slopes, obtained from `LazyEagerEquivalence` and `Scenarios.SeededNestedChain` |
| LazyScenarios.SeededNestedChainAssignment | src/test_forward_scalar.cpp:228-237 | assigning `exp(sin(cos(log(x1*x1))))` stores the derivative each timing iteration expects, for every non-zero seed |
| LazyScenarios.SquareInPlaceAsWritten | include/dual2.h:33-38 | `x = x * x` from `(3, 1)` leaves `(9, 18)` |
| LazyScenarios.SquareInPlaceCorrected | include/dual2.h:33-38 | the same assignment, with both parts evaluated before either is stored, leaves `(9, 6)` |
| LazyScenarios.AliasedSquare | include/dual2.h:33-38 | from any `(v, d)`, `x = x * x` as written stores the derivative `2 v^2 d` instead of `2 v d`; these agree exactly when `d`, `v` or `v - 1` is zero |

## Left out

- Floating point. `T` is `real`: there is no rounding, no NaN or infinity, and no test tolerance; the tests' `EXPECT_FLOAT_EQ` comparisons become exact equalities.
- Eager.Div: requires a divisor with non-zero value; the source divides anyway and, in floating point, produces an infinity or NaN.
- Eager.Log: requires a non-zero value, for the same reason.
- Eager.Abs: requires a non-zero value, because the derivative divides by `abs(v)`; the lazy `Absolute`, `Logarithm` and `Divide` nodes carry the same condition through `Lazy.Defined`.
- The numeric content of `sin`, `cos`, `exp`, `log` and `pow` from `<cmath>`. They are an arbitrary `Elementary.Library`, so no theorem depends on what they compute.
- `operator<<` of both types (include/dual.h:49-53, include/dual2.h:39-43). It is output formatting only.
- Lifetimes of the references that nodes hold (operands, temporaries of a full expression, the `Power` node's exponent held by reference). Dafny references cannot dangle, so a node whose operand has been destroyed is not modelled.
- The `Power` node holds its exponent by reference (`const value_type& k`, include/dual2.h:157). `Lazy.Expr.Power` holds the exponent's value, so a change to the referenced scalar after the node is built, which the source's `dv()` and `v()` would see, is not modelled.
- The template plumbing: `value_type`, and the choice of `R` in `eval()`. `Lazy.Eval` always returns a `Dual2`, which is the only storage type the library has.
- Lazy.Dual2.Assign: the returned reference `*this`, which allows chained assignment, is not modelled.
- The implicit copy assignment of `Dual` and `Dual2`. The eager type is a value; for the lazy type, only the templated `operator=` over expressions is modelled.
- The timing loops of src/test_forward_scalar.cpp:111-119 and 228-237. Only the derivative each iteration expects is modelled: eagerly as `Scenarios.SeededNestedChain`, and through the lazy assignment as `LazyScenarios.SeededNestedChainAssignment`.
- A symbolic-derivative reference (an independent `d/dx` of the expression tree) is not part of this model. The partners of the operations are the ring, inverse and chain-rule laws of the eager type, and the eager type for the lazy nodes.

## Findings

| source | as written | input that shows it | evidently intended | confidence | as-written member | corrected member |
|---|---|---|---|---|---|---|
| include/dual2.h:162 | `k * pow(r.v(), k-value_type(1) * r.dv())`: by precedence, `dv` multiplies the `1` inside the exponent | an operand with derivative 0, for example the constant `(3, 0)` with `k = 2`: the node gives `2 * pow(3, 2)`, but the derivative of a constant is 0 (and the eager `pow` gives 0); more generally, for `k != 0` every operand derivative other than 1 disagrees under some `pow` (`Equivalence.PowerRulesDisagreeUnlessSeeded`) | `k * pow(r.v(), k - 1) * r.dv()`, as include/dual.h:74 writes it | high; not executed | Equivalence.PowerOfConstantAsWritten | Equivalence.CorrectedLazyEagerEquivalence |
| include/dual2.h:33-38 | `operator=` stores `expr.v()` into `value` before evaluating `expr.dv()`, so an expression that reads the target sees the new value | `x = x * x` with `x = (3, 1)` leaves `(9, 18)`; the derivative of `x^2` at 3 is 6 | evaluate both parts, then store them | medium; not executed | LazyScenarios.SquareInPlaceAsWritten | Lazy.Dual2.AssignAliasSafe |

The model keeps both behaviours:

- `Lazy.Deriv` and `Lazy.Dual2.Assign` model the source as written.
- `Lazy.DerivIn` with `Intended` is the corrected `Power` node.
- `Lazy.Dual2.AssignAliasSafe` is the corrected assignment. `LazyScenarios.SquareInPlaceCorrected` uses it.
