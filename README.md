# A verified model of filterx conditionals, `startswith`/`endswith` and the variable record

This project models three pieces of syslog-ng's filterx expression language in Dafny.

- **The conditional node** (`lib/filterx/expr-condition.c`). It implements the ternary
  `c ? t : f`, the Elvis form `c ?: f` and `if / elif / else` chains. The model covers
  evaluation, the optimiser that folds a literal condition, the tail search used to
  extend an else-if chain, the two branch setters, and `_init`/`_deinit` with their
  rollback and counter registration.
- **The simple functions `startswith` and `endswith`** (`lib/filterx/func-str.c`). They
  check the argument list, extract two strings, and compare bytes with the start or the
  end of the haystack.
- **The variable record** (`lib/filterx/filterx-variable.h`). The model covers its
  bitfields and their inline accessors.

Files, one module each:

- `wrappers.dfy`: `Option` and `Result`.
- `filterx_object.dfy`: the value model the core consumes. A value is either a boolean or
  an opaque object. The object carries its own truthiness and, if it is string-like, the
  bytes `filterx_object_extract_string` yields.
- `expr_condition.dfy`: the conditional node.
  - The expression tree is a datatype `Expr` with constructors `Literal`, `Cond` and
    `Other`. `Other` stands for every other kind of expression.
  - Evaluation is the function `Eval`, taken against an `Env`. The `Env` maps each opaque
    expression to its value; an unmapped one fails to evaluate.
  - `Eval` returns the value, or None on failure, together with the opaque expressions
    evaluated, in order. That list stands for evaluation's side effects, so it shows
    which branches ran. What `_eval` promises is stated in the lemmas about `Eval`
    (`EvalConditionFirst`, `EvalEffectsOccur`, `EvalConditionFails`, `EvalTruthy`,
    `EvalFalsy`) rather than on the function itself.
  - The node itself is the class `Conditional`. Its methods update the children, the
    per-child "initialised" flags and the "counter registered" flag in place.
  - The class also keeps a record, `calls`, of the init, deinit, register and release
    calls it made, in order.
  - `RunChain` says clause by clause what an `if / elif / else` chain does. The nested
    conditionals the chain is built from are proved to evaluate the same way.
- `func_str.dfy`: the two builtins. Each is a method with its comparison loop.
- `filterx_variable.dfy`: the class `Variable` with its bitfields and accessors.

The `startswith` and `endswith` in lib/filterx/func-str.c are simple functions over an
argument list. They have no `ignorecase`, no list needles and no literal caching. The
`endswith` loop condition is `i > needle_len`, so its body never runs (see Findings).

## Model

| member | source | states |
|---|---|---|
| `ExprCondition.EvalConditionFirst` | lib/filterx/expr-condition.c:100-108 | `_eval` evaluates the condition before anything else, and the node succeeds only if its condition does |
| `ExprCondition.EvalEffectsOccur` | lib/filterx/expr-condition.c:100-147 | evaluating a tree evaluates only opaque expressions that occur in it |
| `ExprCondition.EvalConditionFails` | lib/filterx/expr-condition.c:104-108 | when the condition fails to evaluate, the node fails and evaluates neither branch |
| `ExprCondition.EvalTruthy` | lib/filterx/expr-condition.c:130-136 | a truthy condition yields the true branch's outcome after the condition's, or the condition's own value when there is no true branch |
| `ExprCondition.EvalFalsy` | lib/filterx/expr-condition.c:137-143 | a falsy condition yields the false branch's outcome, or boolean `true` when there is no false branch |
| `ExprCondition.Fold` | lib/filterx/expr-condition.c:164-188 | a replacement is offered exactly when the condition is a literal, and it is the true branch, the false branch, the condition itself or the literal `true`: never a newly built conditional |
| `ExprCondition.OptimizeExpr` | lib/filterx/expr-condition.c:149-191 | `filterx_expr_optimize` of a conditional, children first, as `_optimize_branches` applies it at :154-156: the result has no conditional left whose condition is a literal |
| `ExprCondition.OptimizeBranch` | lib/filterx/expr-condition.c:155-156 | optimising a branch keeps an absent branch absent and leaves nothing to fold in a present one |
| `ExprCondition.FoldAgreesWithEval` | lib/filterx/expr-condition.c:169-188 | the replacement `_optimize` picks for a literal condition evaluates exactly like the node it replaces |
| `ExprCondition.OptimizePreservesEval` | lib/filterx/expr-condition.c:149-191 | optimising a tree (children first, then folding) does not change its value or its side effects on any record |
| `ExprCondition.OptimizeFixedPoints` | lib/filterx/expr-condition.c:149-191 | the optimiser leaves a tree unchanged exactly when no conditional in it has a literal condition |
| `ExprCondition.OptimizeIdempotent` | lib/filterx/expr-condition.c:149-191 | optimising an already optimised tree returns it unchanged |
| `ExprCondition.FindTail` | lib/filterx/expr-condition.c:226-244 | nothing for a non-conditional; otherwise the last conditional of the false-branch chain, whose false branch is absent or not a conditional, and absent when the tail lies below the root |
| `ExprCondition.IfChainRuns` | lib/filterx/expr-condition.c:100-147 | the nested conditionals of an `if / elif / else` chain evaluate exactly as the clause-by-clause reference `RunChain` says |
| `ExprCondition.RunChainTakesFirstTruthy` | tests/light/functional_tests/filterx/test_filterx.py:890-930 | clause by clause, the first clause whose condition is truthy is taken, after exactly the conditions up to it |
| `ExprCondition.RunChainTakesElse` | tests/light/functional_tests/filterx/test_filterx.py:871-950 | clause by clause, when every condition is falsy the `else` body is taken, or `true` is the result |
| `ExprCondition.RunChainFailsAt` | lib/filterx/expr-condition.c:104-108 | clause by clause, a failing condition fails the chain and no body runs |
| `ExprCondition.IfChainTakesFirstTruthy` | tests/light/functional_tests/filterx/test_filterx.py:890-930 | in an `if / elif` chain, the first clause whose condition is truthy is taken; only the conditions up to it and its body are evaluated |
| `ExprCondition.IfChainTakesElse` | tests/light/functional_tests/filterx/test_filterx.py:871-950 | when every condition is falsy, the `else` body is taken, or the chain yields `true` when there is none |
| `ExprCondition.IfChainFailsAt` | lib/filterx/expr-condition.c:104-108 | a failing condition in a chain fails the whole chain, and no body runs |
| `ExprCondition.IfChainTail` | lib/filterx/expr-condition.c:226-244 | an `if / elif` chain without `else` has one conditional per clause, and its tail is the last clause's node |
| `ExprCondition.IfChainElseTail` | lib/filterx/expr-condition.c:226-244 | once a non-conditional `else` is attached to a chain of two or more clauses, the tail has a false branch and the assertion at :239 fails |
| `ExprCondition.InitCalls` | lib/filterx/expr-condition.c:42-70 | `_init` always starts by initialising the condition, registers the counter only as its very last call, and never unregisters it |
| `ExprCondition.DeinitCalls` | lib/filterx/expr-condition.c:72-87 | `_deinit` unregisters the counter first, then deinitialises the condition, the true branch and the false branch once each, and initialises nothing |
| `ExprCondition.InitRollsBack` | lib/filterx/expr-condition.c:47-61 | when child k fails to initialise, exactly the children before k are deinitialised, later children are never touched, and the counter is not registered |
| `ExprCondition.InitRegistersLast` | lib/filterx/expr-condition.c:63-69 | the counter is registered exactly when all three children initialise, and only after them |
| `ExprCondition.InitFlags` | lib/filterx/expr-condition.c:42-70 | the flags `_init` leaves, from any starting state: all set on success; on failure, nothing up to the failing child is initialised, and later children and the counter are as before |
| `ExprCondition.DeinitFlags` | lib/filterx/expr-condition.c:72-87 | after `_deinit` no child is initialised and the counter is unregistered |
| `ExprCondition.Conditional.constructor` | lib/filterx/expr-condition.c:211-224 | a new node holds its condition, no branches, and nothing initialised |
| `ExprCondition.Conditional.SetTrueBranch` | lib/filterx/expr-condition.c:193-200 | replaces only the true branch and releases the previous one, if any |
| `ExprCondition.Conditional.SetFalseBranch` | lib/filterx/expr-condition.c:202-209 | replaces only the false branch and releases the previous one, if any |
| `ExprCondition.Conditional.OptimizeBranches` | lib/filterx/expr-condition.c:149-157 | each child is replaced in place by its optimised form |
| `ExprCondition.Conditional.Optimize` | lib/filterx/expr-condition.c:159-191 | children are optimised in place; a replacement is returned exactly when the condition is a literal; the result evaluates like the old tree on every record |
| `ExprCondition.Conditional.Init` | lib/filterx/expr-condition.c:42-70 | succeeds exactly when all children initialise (absent branches succeed); the calls made are the rollback sequence; the flags after success and after each kind of failure |
| `ExprCondition.Conditional.Deinit` | lib/filterx/expr-condition.c:72-87 | unregisters the counter, then deinitialises all three children; nothing is left initialised |
| `FuncStr.ReportedLength` | lib/filterx/func-str.c:47 | the reported length is the extracted length clamped to `G_MAXINT64`, never negative, and unchanged for any realistic length |
| `FuncStr.ExtractHaystackArg` | lib/filterx/func-str.c:28-49 | fails unless there are exactly two arguments, then unless argument 0 is a string; otherwise yields its bytes and clamped length |
| `FuncStr.ExtractNeedleArg` | lib/filterx/func-str.c:51-72 | the same for argument 1 |
| `FuncStr.StartsWith` | lib/filterx/func-str.c:74-92 | the argument-count and string errors; otherwise `true` exactly when every needle byte equals the haystack byte at the same position and the needle is no longer |
| `FuncStr.CompareSuffix` | lib/filterx/func-str.c:107-111 | under the loop condition as written the loop body never runs and the result is `true`; under the intended condition it is `true` exactly when the needle equals the haystack's trailing bytes |
| `FuncStr.EndsWith` | lib/filterx/func-str.c:94-112 | the argument-count and string errors; otherwise, as written, only the length check decides, and with the fixed loop condition it is the suffix test |
| `FuncStr.PrefixMatchesIsPrefix` | lib/filterx/func-str.c:85-91 | for realistic lengths, the `startswith` result is exactly "the needle is a prefix of the haystack" |
| `FuncStr.SuffixMatchesIsSuffix` | lib/filterx/func-str.c:105-111 | for realistic lengths, the corrected `endswith` result is exactly "the needle is a suffix of the haystack" |
| `FuncStr.EmptyNeedleMatches` | lib/filterx/func-str.c:87-91 | an empty needle matches every haystack |
| `FuncStr.LongerNeedleNeverMatches` | lib/filterx/func-str.c:85-86 | a needle longer than the haystack is never a match |
| `FuncStr.EndsWithAsWrittenIsLengthCheck` | lib/filterx/func-str.c:105-111 | as written, `endswith` is true exactly when the needle is no longer than the haystack, which every real suffix also satisfies |
| `FuncStr.EndsWithAsWrittenAcceptsNonSuffix` | lib/filterx/func-str.c:107-108 | as written, `endswith("a", "b")` is true although "b" is not a suffix of "a" |
| `FilterXVariable.StoreGeneration` | lib/filterx/filterx-variable.h:45-47 | a generation up to `FILTERX_SCOPE_MAX_GENERATION` is stored unchanged; a larger one is truncated and stored as a different value |
| `FilterXVariable.StoreBit` | lib/filterx/filterx-variable.h:45-46 | TRUE is stored as a set flag and FALSE as a clear one |
| `FilterXVariable.Variable.IsDeclared` | lib/filterx/filterx-variable.h:72-76 | a gboolean that is exactly TRUE or FALSE, the value a 1-bit unsigned field reads as, and TRUE exactly when the `declared` bit is set |
| `FilterXVariable.Variable.IsAssigned` | lib/filterx/filterx-variable.h:78-82 | exactly TRUE or FALSE, and TRUE exactly when the `assigned` bit is set |
| `FilterXVariable.Variable.IsSameGeneration` | lib/filterx/filterx-variable.h:84-88 | exactly TRUE or FALSE, TRUE exactly when the stored generation equals the argument, and never TRUE for a generation wider than 20 bits |
| `FilterXVariable.Variable.SetGeneration` | lib/filterx/filterx-variable.h:90-94 | stores the truncated generation, so afterwards `IsSameGeneration(g)` is TRUE exactly when `g` fits in 20 bits; no other field changes |
| `FilterXVariable.Variable.Unassign` | lib/filterx/filterx-variable.h:96-100 | afterwards `IsAssigned()` is FALSE, and nothing else changes |
| `FilterXVariable.Variable.SetDeclared` | lib/filterx/filterx-variable.h:102-106 | stores the flag's lowest bit into `declared`, so afterwards `IsDeclared()` is TRUE after TRUE and FALSE after FALSE; nothing else changes |

## Findings

| source | as written | input that shows it | evidently intended | confidence | as-written member | corrected member |
|---|---|---|---|---|---|---|
| lib/filterx/func-str.c:107 | the loop condition `i > needle_len` is false at `i = 0`, so no byte is compared and `endswith` returns true whenever the needle is no longer than the haystack | `endswith("a", "b")` returns true | `i < needle_len`, comparing `haystack[haystack_len - needle_len + i]` with `needle[i]` as the body at :108 does | high; found by proof, not executed | `FuncStr.EndsWithAsWrittenAcceptsNonSuffix` | `FuncStr.SuffixMatchesIsSuffix` |

`FuncStr.EndsWith` takes the loop condition as a parameter. With `AsWritten` it is the
code as written; with `Intended` it is the corrected function. `FuncStr.CompareSuffix` is
the shared loop.

## Left out

- The trace block of `_eval` (lib/filterx/expr-condition.c:110-128) is left out. It only
  logs: the value rendering, the scratch-buffer mark and reclaim, and the fatal assertion
  when neither `repr` nor `marshal` succeeds.
- `_free` and all reference counting are left out, because the model has no heap
  lifetime. This covers `filterx_expr_ref` on the replacement `_optimize` returns and the
  unref of the condition value. A setter's release of its old branch is recorded as a
  `Release` call.
- The stats registry is reduced to one "counter registered" flag per node. The lock, the
  key name `fx_condition_evals_total`, the stats level and how the counter is counted
  (that happens in `filterx_expr_eval`, which is not part of this model) are left out. So
  the claim "after N evaluations the counter reads N" is not modelled.
- `filterx_expr_init_method` and `filterx_expr_deinit_method` are not part of this model.
  `_init`'s final result is taken to be success.
- The init and deinit of the children are external. `Conditional.Init` receives each
  child's init result as a parameter. Initialising an absent branch is taken to succeed,
  as the code relies on.
- Other kinds of expressions are external. Their evaluation is a lookup in `Env`, and
  optimising them returns them unchanged.
- Because `Env` is fixed for one evaluation, an opaque expression's value cannot depend on
  what earlier evaluations did: a condition that assigns a variable cannot change what a
  body then reads. The model keeps the order in which opaque expressions are evaluated,
  and optimising and chaining keep that order, but not the data flowing between them.
- `filterx_expr_optimize` itself is not part of this model. It is taken to return the
  replacement when one is offered and the node otherwise.
- `filterx_conditional_new` also sets `suppress_from_trace` and installs function
  pointers. The model does not keep either.
- FindTail: the `g_assert` at lib/filterx/expr-condition.c:239 becomes the precondition
  `TailAssertionHolds`. The model does not describe the abort that happens when the
  assertion fails. That precondition excludes every complete `if / elif / else` chain of
  two or more clauses whose `else` body is not a conditional (`IfChainElseTail`), so the
  tail may only be looked up before the `else` is attached.
- Building `if / elif / else` trees is the grammar's job, and the grammar is not part of
  this model. `IfChain` gives the tree shape that the end-to-end tests exercise.
- FuncStr.StartsWith: the model cannot show that the haystack is checked before the
  needle, because both failures report the same "Object must be string" error. For the
  same reason it cannot show that a too-long needle returns before comparing any bytes.
- FuncStr.EndsWith: the same limit on error order and comparison order applies.
- The affix node declared in lib/filterx/func-str.h is left out. Its definitions live in
  .c files this model does not cover: `ignorecase` with Unicode case folding, list
  needles, literal caching, `filterx_expr_affix_init` and the `get_*_str` helpers.
- The non-inline variable functions declared in lib/filterx/filterx-variable.h are left
  out. Their definitions live in .c files this model does not cover: `init_instance`,
  `get_name`, `set_value`, `is_floating`, `map_varname_to_handle` and similar. The "MSB
  marks a floating variable" convention of the handle is left out with them.
