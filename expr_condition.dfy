/**
 * The filterx conditional expression node: the ternary `c ? t : f`, the
 * Elvis form `c ?: f` and `if / elif / else` chains.
 *
 * The pure parts of the node (evaluation, the replacement that the optimiser
 * computes, the tail of an else-if chain) are functions over a datatype view
 * of the expression tree; the parts that update the node in place (children
 * optimisation, branch setters, init and deinit) are methods of the class
 * `Conditional` further down.
 */
module ExprCondition {
  import opened Wrappers
  import opened FilterXObjects

  /** An expression tree as seen by the conditional node. */
  datatype Expr =
    | Literal(v: Value)
    | Cond(condition: Expr, trueBranch: Option<Expr>, falseBranch: Option<Expr>)
      /** Any other kind of expression; its evaluation is external. */
    | Other(id: nat)

  /**
   * The record an expression is evaluated against: what each opaque
   * expression evaluates to. An id that is not mapped fails to evaluate.
   */
  type Env = map<nat, Value>

  /**
   * The outcome of evaluating an expression: its value (None when the
   * evaluation failed) and the opaque sub-expressions that were evaluated, in
   * order. The latter stands for the side effects of evaluation (an `if` body
   * assigns to variables), so it says which branches ran.
   */
  datatype Outcome = Outcome(value: Option<Value>, effects: seq<nat>)

  /** `first` is evaluated, then `second`, whose value is the result. */
  function Then(first: Outcome, second: Outcome): Outcome {
    Outcome(second.value, first.effects + second.effects)
  }

  /** The opaque expressions that occur in `e`. */
  function Ids(e: Expr): set<nat> {
    match e
    case Literal(_) => {}
    case Other(id) => {id}
    case Cond(c, t, f) =>
      Ids(c)
      + (match t case Some(tb) => Ids(tb) case None => {})
      + (match f case Some(fb) => Ids(fb) case None => {})
  }

  /** filterx_expr_eval; for a conditional it is `_eval`. */
  function Eval(e: Expr, env: Env): Outcome {
    match e
    case Literal(v) => Outcome(Some(v), [])
    case Other(id) => Outcome(if id in env then Some(env[id]) else None, [id])
    case Cond(c, t, f) =>
      var oc := Eval(c, env);
      if oc.value.None? then
        oc
      else if Truthy(oc.value.value) then
        match t
        case Some(tb) => Then(oc, Eval(tb, env))
        case None => oc
      else
        match f
        case Some(fb) => Then(oc, Eval(fb, env))
        case None => Outcome(Some(Boolean(true)), oc.effects)
  }

  /** `e` evaluates without failing. */
  predicate Succeeds(e: Expr, env: Env) {
    Eval(e, env).value.Some?
  }

  // ---------------------------------------------------------------------------
  // Evaluation: fail fast and the two fallbacks
  // ---------------------------------------------------------------------------

  /**
   * A conditional evaluates its condition before anything else, and succeeds
   * only if its condition does.
   */
  lemma EvalConditionFirst(e: Expr, env: Env)
    requires e.Cond?
    ensures Eval(e.condition, env).effects <= Eval(e, env).effects
    ensures Succeeds(e, env) ==> Succeeds(e.condition, env)
  {
  }

  /** Evaluation only evaluates opaque expressions that occur in the tree. */
  lemma {:induction false} EvalEffectsOccur(e: Expr, env: Env)
    ensures forall id :: id in Eval(e, env).effects ==> id in Ids(e)
  {
    match e
    case Cond(c, t, f) =>
      EvalEffectsOccur(c, env);
      if t.Some? { EvalEffectsOccur(t.value, env); }
      if f.Some? { EvalEffectsOccur(f.value, env); }
    case _ =>
  }

  /** A failing condition fails the node, and no branch is evaluated. */
  lemma EvalConditionFails(c: Expr, t: Option<Expr>, f: Option<Expr>, env: Env)
    requires !Succeeds(c, env)
    ensures Eval(Cond(c, t, f), env) == Outcome(None, Eval(c, env).effects)
  {
  }

  /**
   * A truthy condition selects the true branch; without one the result is
   * the condition's own value (the Elvis operator).
   */
  lemma EvalTruthy(c: Expr, t: Option<Expr>, f: Option<Expr>, env: Env)
    requires Succeeds(c, env) && Truthy(Eval(c, env).value.value)
    ensures t.Some? ==> Eval(Cond(c, t, f), env) == Then(Eval(c, env), Eval(t.value, env))
    ensures t.None? ==> Eval(Cond(c, t, f), env) == Eval(c, env)
  {
  }

  /**
   * A falsy condition selects the false branch; without one the result is
   * boolean `true`, so an `if` without `else` never drops the record.
   */
  lemma EvalFalsy(c: Expr, t: Option<Expr>, f: Option<Expr>, env: Env)
    requires Succeeds(c, env) && !Truthy(Eval(c, env).value.value)
    ensures f.Some? ==> Eval(Cond(c, t, f), env) == Then(Eval(c, env), Eval(f.value, env))
    ensures f.None? ==> Eval(Cond(c, t, f), env) == Outcome(Some(Boolean(true)), Eval(c, env).effects)
  {
  }

  // ---------------------------------------------------------------------------
  // Optimisation
  // ---------------------------------------------------------------------------

  /**
   * `_optimize` once `_optimize_branches` has run: the replacement for a
   * conditional with (already optimised) children `c`, `t`, `f`, or None
   * when the condition is not a literal.
   */
  function Fold(c: Expr, t: Option<Expr>, f: Option<Expr>): (r: Option<Expr>)
    ensures r.Some? <==> c.Literal?
    ensures r.Some? ==> Some(r.value) == t || Some(r.value) == f || r.value == c || r.value == Literal(Boolean(true))
  {
    if !c.Literal? then None
    else if Truthy(c.v) then Some(t.GetOr(c))
    else Some(f.GetOr(Literal(Boolean(true))))
  }

  /** No conditional in `e` has a literal condition: nothing is left to fold. */
  predicate Folded(e: Expr) {
    match e
    case Cond(c, t, f) =>
      !c.Literal? && Folded(c)
      && (match t case Some(tb) => Folded(tb) case None => true)
      && (match f case Some(fb) => Folded(fb) case None => true)
    case _ => true
  }

  /**
   * filterx_expr_optimize: the replacement if the node offers one, else the
   * node. Whatever it returns has nothing left to fold.
   */
  function OptimizeExpr(e: Expr): (r: Expr)
    ensures Folded(r)
  {
    match e
    case Cond(c, t, f) =>
      var c', t', f' := OptimizeExpr(c), OptimizeBranch(t), OptimizeBranch(f);
      Fold(c', t', f').GetOr(Cond(c', t', f'))
    case _ => e
  }

  /** filterx_expr_optimize of a branch that may be absent: an absent branch stays absent. */
  function OptimizeBranch(b: Option<Expr>): (r: Option<Expr>)
    ensures r.Some? <==> b.Some?
    ensures r.Some? ==> Folded(r.value)
  {
    match b
    case Some(e) => Some(OptimizeExpr(e))
    case None => None
  }

  /** The node `_optimize` folds away evaluates exactly like its replacement. */
  lemma FoldAgreesWithEval(c: Expr, t: Option<Expr>, f: Option<Expr>, env: Env)
    requires Fold(c, t, f).Some?
    ensures Eval(Fold(c, t, f).value, env) == Eval(Cond(c, t, f), env)
  {
  }

  /** Optimising a tree does not change what evaluating it does, on any record. */
  lemma {:induction false} OptimizePreservesEval(e: Expr, env: Env)
    ensures Eval(OptimizeExpr(e), env) == Eval(e, env)
  {
    match e
    case Cond(c, t, f) =>
      var c', t', f' := OptimizeExpr(c), OptimizeBranch(t), OptimizeBranch(f);
      OptimizePreservesEval(c, env);
      if t.Some? { OptimizePreservesEval(t.value, env); }
      if f.Some? { OptimizePreservesEval(f.value, env); }
      assert Eval(Cond(c', t', f'), env) == Eval(e, env);
      if Fold(c', t', f').Some? {
        FoldAgreesWithEval(c', t', f', env);
      }
    case _ =>
  }

  /** The trees the optimiser leaves as they are are exactly those with nothing to fold. */
  lemma {:induction false} OptimizeFixedPoints(e: Expr)
    ensures OptimizeExpr(e) == e <==> Folded(e)
  {
    match e
    case Cond(c, t, f) =>
      OptimizeFixedPoints(c);
      if t.Some? { OptimizeFixedPoints(t.value); }
      if f.Some? { OptimizeFixedPoints(f.value); }
    case _ =>
  }

  /** Optimising an optimised tree changes nothing: the pass is idempotent. */
  lemma OptimizeIdempotent(e: Expr)
    ensures OptimizeExpr(OptimizeExpr(e)) == OptimizeExpr(e)
  {
    OptimizeFixedPoints(OptimizeExpr(e));
  }

  // ---------------------------------------------------------------------------
  // The tail of an else-if chain
  // ---------------------------------------------------------------------------

  /** The conditionals reached from `e` by following false branches, `e` first. */
  function Chain(e: Expr): (r: seq<Expr>)
    ensures |r| > 0 <==> e.Cond?
    ensures forall i :: 0 <= i < |r| ==> r[i].Cond?
    ensures |r| > 0 ==> r[0] == e
  {
    if !e.Cond? then []
    else [e] + match e.falseBranch
               case Some(fb) => Chain(fb)
               case None => []
  }

  /** The last conditional of a non-empty chain. */
  function Last(s: seq<Expr>): Expr
    requires |s| > 0
  {
    s[|s| - 1]
  }

  /**
   * The assertion in filterx_conditional_find_tail holds: a tail found below
   * the root has no false branch.
   */
  predicate TailAssertionHolds(e: Expr) {
    |Chain(e)| <= 1 || Last(Chain(e)).falseBranch.None?
  }

  /**
   * filterx_conditional_find_tail: nothing for a non-conditional, otherwise
   * the last conditional of the chain of false branches.
   */
  function FindTail(e: Expr): (r: Option<Expr>)
    requires TailAssertionHolds(e)
    ensures r.Some? <==> e.Cond?
    ensures r.Some? ==> r.value == Last(Chain(e))
    ensures r.Some? ==> r.value.Cond? && (r.value.falseBranch.None? || !r.value.falseBranch.value.Cond?)
    ensures r.Some? && |Chain(e)| > 1 ==> r.value.falseBranch.None?
  {
    if !e.Cond? then
      None
    else if e.falseBranch.Some? then
      var fb := e.falseBranch.value;
      assert Chain(e) == [e] + Chain(fb);
      var tail := FindTail(fb);
      if tail.Some? then
        assert tail.value.falseBranch.None?;
        tail
      else
        Some(e)
    else
      Some(e)
  }

  // ---------------------------------------------------------------------------
  // if / elif / else
  // ---------------------------------------------------------------------------

  /** One `if (condition) { body }` or `elif (condition) { body }` clause. */
  datatype Clause = Clause(condition: Expr, body: Expr)

  /**
   * The tree of `if (c0) {b0} elif (c1) {b1} ... else {e}`: one conditional
   * per clause, each the false branch of the one before, the `else` body (if
   * any) the false branch of the last.
   */
  function IfChain(clauses: seq<Clause>, otherwise: Option<Expr>): Expr
    requires |clauses| > 0
  {
    Cond(clauses[0].condition, Some(clauses[0].body),
         if |clauses| == 1 then otherwise else Some(IfChain(clauses[1..], otherwise)))
  }

  /** `e` evaluates, to a falsy value. */
  predicate Falsy(e: Expr, env: Env) {
    Succeeds(e, env) && !Truthy(Eval(e, env).value.value)
  }

  /** The conditions of the first `k` clauses evaluate, and all are falsy. */
  predicate FalsyUpTo(clauses: seq<Clause>, k: nat, env: Env)
    requires k <= |clauses|
  {
    k == 0 || (Falsy(clauses[0].condition, env) && FalsyUpTo(clauses[1..], k - 1, env))
  }

  /** The effects of evaluating the conditions of the first `k` clauses, in order. */
  function ConditionEffects(clauses: seq<Clause>, k: nat, env: Env): seq<nat>
    requires k <= |clauses|
  {
    if k == 0 then [] else Eval(clauses[0].condition, env).effects + ConditionEffects(clauses[1..], k - 1, env)
  }

  /** `FalsyUpTo` says of each of the first `k` conditions that it is falsy. */
  lemma {:induction false} FalsyUpToEach(clauses: seq<Clause>, k: nat, env: Env)
    requires k <= |clauses|
    ensures FalsyUpTo(clauses, k, env) <==> forall j :: 0 <= j < k ==> Falsy(clauses[j].condition, env)
  {
    if k > 0 {
      FalsyUpToEach(clauses[1..], k - 1, env);
      assert forall j :: 0 < j < k ==> clauses[1..][j - 1] == clauses[j];
    }
  }

  /** The conditions' effects are the first condition's, then those of the rest. */
  lemma ConditionEffectsStep(clauses: seq<Clause>, k: nat, env: Env)
    requires 0 < k <= |clauses|
    ensures ConditionEffects(clauses, k, env)
         == Eval(clauses[0].condition, env).effects + ConditionEffects(clauses[1..], k - 1, env)
  {
  }

  /**
   * What an `if / elif / else` chain does, clause by clause: the conditions
   * are evaluated in turn; the first that fails stops the chain, the first
   * truthy one has its body run; when none is truthy the `else` body runs,
   * or the chain yields `true`.
   */
  function RunChain(clauses: seq<Clause>, otherwise: Option<Expr>, env: Env): Outcome
    decreases |clauses|
  {
    if clauses == [] then
      match otherwise
      case Some(e) => Eval(e, env)
      case None => Outcome(Some(Boolean(true)), [])
    else
      var oc := Eval(clauses[0].condition, env);
      if oc.value.None? then Outcome(None, oc.effects)
      else if Truthy(oc.value.value) then Then(oc, Eval(clauses[0].body, env))
      else Then(oc, RunChain(clauses[1..], otherwise, env))
  }

  /** The tree of nested conditionals built for a chain evaluates as the chain runs. */
  lemma {:induction false} IfChainRuns(clauses: seq<Clause>, otherwise: Option<Expr>, env: Env)
    requires |clauses| > 0
    ensures Eval(IfChain(clauses, otherwise), env) == RunChain(clauses, otherwise, env)
  {
    var oc := Eval(clauses[0].condition, env);
    if |clauses| == 1 {
      assert clauses[1..] == [];
      assert oc.effects + [] == oc.effects;
    } else {
      IfChainRuns(clauses[1..], otherwise, env);
    }
  }

  /**
   * Exactly the first clause whose condition is truthy is taken: the
   * conditions up to it are evaluated, then its body and no other.
   */
  lemma {:induction false} RunChainTakesFirstTruthy(clauses: seq<Clause>, otherwise: Option<Expr>, env: Env, k: nat)
    requires k < |clauses| && FalsyUpTo(clauses, k, env)
    requires Succeeds(clauses[k].condition, env) && Truthy(Eval(clauses[k].condition, env).value.value)
    ensures RunChain(clauses, otherwise, env)
         == Outcome(Eval(clauses[k].body, env).value,
                    ConditionEffects(clauses, k + 1, env) + Eval(clauses[k].body, env).effects)
  {
    ConditionEffectsStep(clauses, k + 1, env);
    if k > 0 {
      assert clauses[1..][k - 1] == clauses[k];
      RunChainTakesFirstTruthy(clauses[1..], otherwise, env, k - 1);
      var oc, rest, be := Eval(clauses[0].condition, env).effects, ConditionEffects(clauses[1..], k, env),
                          Eval(clauses[k].body, env).effects;
      assert oc + (rest + be) == (oc + rest) + be;
    }
  }

  /**
   * When every condition is falsy, the `else` body is taken; without an
   * `else` the chain evaluates to `true`.
   */
  lemma {:induction false} RunChainTakesElse(clauses: seq<Clause>, otherwise: Option<Expr>, env: Env)
    requires FalsyUpTo(clauses, |clauses|, env)
    ensures otherwise.Some? ==>
              RunChain(clauses, otherwise, env)
              == Outcome(Eval(otherwise.value, env).value,
                         ConditionEffects(clauses, |clauses|, env) + Eval(otherwise.value, env).effects)
    ensures otherwise.None? ==>
              RunChain(clauses, otherwise, env)
              == Outcome(Some(Boolean(true)), ConditionEffects(clauses, |clauses|, env))
  {
    if clauses != [] {
      ConditionEffectsStep(clauses, |clauses|, env);
      RunChainTakesElse(clauses[1..], otherwise, env);
      if otherwise.Some? {
        var oc, rest, ee := Eval(clauses[0].condition, env).effects,
                            ConditionEffects(clauses[1..], |clauses| - 1, env), Eval(otherwise.value, env).effects;
        assert oc + (rest + ee) == (oc + rest) + ee;
      }
    }
  }

  /** A failing condition stops the chain: the chain fails and no body runs. */
  lemma {:induction false} RunChainFailsAt(clauses: seq<Clause>, otherwise: Option<Expr>, env: Env, k: nat)
    requires k < |clauses| && FalsyUpTo(clauses, k, env) && !Succeeds(clauses[k].condition, env)
    ensures RunChain(clauses, otherwise, env) == Outcome(None, ConditionEffects(clauses, k + 1, env))
  {
    ConditionEffectsStep(clauses, k + 1, env);
    if k > 0 {
      assert clauses[1..][k - 1] == clauses[k];
      RunChainFailsAt(clauses[1..], otherwise, env, k - 1);
    } else {
      assert ConditionEffects(clauses[1..], 0, env) == [];
    }
  }

  /** In the tree built for a chain, the first truthy clause is taken. */
  lemma IfChainTakesFirstTruthy(clauses: seq<Clause>, otherwise: Option<Expr>, env: Env, k: nat)
    requires k < |clauses| && FalsyUpTo(clauses, k, env)
    requires Succeeds(clauses[k].condition, env) && Truthy(Eval(clauses[k].condition, env).value.value)
    ensures Eval(IfChain(clauses, otherwise), env)
         == Outcome(Eval(clauses[k].body, env).value,
                    ConditionEffects(clauses, k + 1, env) + Eval(clauses[k].body, env).effects)
  {
    IfChainRuns(clauses, otherwise, env);
    RunChainTakesFirstTruthy(clauses, otherwise, env, k);
  }

  /** In the tree built for a chain whose conditions are all falsy, the `else` body (or `true`) is the result. */
  lemma IfChainTakesElse(clauses: seq<Clause>, otherwise: Option<Expr>, env: Env)
    requires |clauses| > 0 && FalsyUpTo(clauses, |clauses|, env)
    ensures otherwise.Some? ==>
              Eval(IfChain(clauses, otherwise), env)
              == Outcome(Eval(otherwise.value, env).value,
                         ConditionEffects(clauses, |clauses|, env) + Eval(otherwise.value, env).effects)
    ensures otherwise.None? ==>
              Eval(IfChain(clauses, otherwise), env)
              == Outcome(Some(Boolean(true)), ConditionEffects(clauses, |clauses|, env))
  {
    IfChainRuns(clauses, otherwise, env);
    RunChainTakesElse(clauses, otherwise, env);
  }

  /** In the tree built for a chain, a failing condition fails the chain and no body runs. */
  lemma IfChainFailsAt(clauses: seq<Clause>, otherwise: Option<Expr>, env: Env, k: nat)
    requires k < |clauses| && FalsyUpTo(clauses, k, env) && !Succeeds(clauses[k].condition, env)
    ensures Eval(IfChain(clauses, otherwise), env) == Outcome(None, ConditionEffects(clauses, k + 1, env))
  {
    IfChainRuns(clauses, otherwise, env);
    RunChainFailsAt(clauses, otherwise, env, k);
  }

  /** An `if / elif` chain without `else` has one link per clause and can be extended at its tail. */
  lemma {:induction false} IfChainTail(clauses: seq<Clause>)
    requires |clauses| > 0
    ensures |Chain(IfChain(clauses, None))| == |clauses|
    ensures TailAssertionHolds(IfChain(clauses, None))
    ensures FindTail(IfChain(clauses, None))
         == Some(Cond(clauses[|clauses| - 1].condition, Some(clauses[|clauses| - 1].body), None))
  {
    if |clauses| > 1 {
      IfChainTail(clauses[1..]);
      assert clauses[1..][|clauses| - 2] == clauses[|clauses| - 1];
    }
  }

  /**
   * Once a non-conditional `else` body is attached, the tail of a chain of
   * two or more clauses has a false branch, so the assertion in
   * filterx_conditional_find_tail fails: the tail is only to be looked up
   * while the chain has no `else`.
   */
  lemma {:induction false} IfChainElseTail(clauses: seq<Clause>, otherwise: Expr)
    requires |clauses| > 0 && !otherwise.Cond?
    ensures |Chain(IfChain(clauses, Some(otherwise)))| == |clauses|
    ensures Last(Chain(IfChain(clauses, Some(otherwise))))
         == Cond(clauses[|clauses| - 1].condition, Some(clauses[|clauses| - 1].body), Some(otherwise))
    ensures |clauses| > 1 ==> !TailAssertionHolds(IfChain(clauses, Some(otherwise)))
  {
    if |clauses| > 1 {
      IfChainElseTail(clauses[1..], otherwise);
      assert clauses[1..][|clauses| - 2] == clauses[|clauses| - 1];
    }
  }

  // ---------------------------------------------------------------------------
  // The node's lifecycle: init with rollback, deinit
  // ---------------------------------------------------------------------------

  /** The three children of a conditional, in the order `_init` visits them. */
  datatype Child = ConditionChild | TrueChild | FalseChild

  /**
   * The calls the node makes to its children and to the metrics registry,
   * and the releases of children it gives up.
   */
  datatype Call =
    | InitChild(child: Child, ok: bool)
    | DeinitChild(child: Child)
    | RegisterCounter
    | UnregisterCounter
    | Release(expr: Expr)

  /** Which children are initialised and whether the evaluation counter is registered. */
  datatype Flags = Flags(condition: bool, trueBranch: bool, falseBranch: bool, counter: bool)

  /** A freshly built node: nothing initialised, nothing registered. */
  const Uninitialised := Flags(false, false, false, false)

  /** The flags after one call; a child whose init fails is left uninitialised. */
  function Apply(s: Flags, c: Call): Flags {
    match c
    case InitChild(ConditionChild, ok) => s.(condition := ok)
    case InitChild(TrueChild, ok) => s.(trueBranch := ok)
    case InitChild(FalseChild, ok) => s.(falseBranch := ok)
    case DeinitChild(ConditionChild) => s.(condition := false)
    case DeinitChild(TrueChild) => s.(trueBranch := false)
    case DeinitChild(FalseChild) => s.(falseBranch := false)
    case RegisterCounter => s.(counter := true)
    case UnregisterCounter => s.(counter := false)
    case Release(_) => s
  }

  /** The flags after a sequence of calls, made in order. */
  function Replay(s: Flags, calls: seq<Call>): Flags
    decreases |calls|
  {
    if calls == [] then s else Replay(Apply(s, calls[0]), calls[1..])
  }

  /** Replaying two runs of calls is replaying the first, then the second. */
  lemma {:induction false} ReplayAppend(s: Flags, a: seq<Call>, b: seq<Call>)
    ensures Replay(s, a + b) == Replay(Replay(s, a), b)
    decreases |a|
  {
    if a == [] {
      assert a + b == b;
    } else {
      assert (a + b)[0] == a[0];
      assert (a + b)[1..] == a[1..] + b;
      ReplayAppend(Apply(s, a[0]), a[1..], b);
    }
  }

  /** Replaying one more call applies it to what the earlier calls left. */
  lemma ReplayStep(s: Flags, a: seq<Call>, c: Call)
    ensures Replay(s, a + [c]) == Apply(Replay(s, a), c)
  {
    ReplayAppend(s, a, [c]);
    assert [c][1..] == [];
  }

  /** Appending one call to a log that extends `x` by `y`. */
  lemma AppendCall(x: seq<Call>, y: seq<Call>, c: Call)
    ensures x + y + [c] == x + (y + [c])
  {
  }

  /**
   * The calls `_init` makes, given what initialising each child returns:
   * on the first failure it deinitialises the children before it and stops;
   * the counter is registered only once all three children are initialised.
   * The list is built up in the order the calls are made.
   */
  function InitCalls(condOk: bool, trueOk: bool, falseOk: bool): (r: seq<Call>)
    ensures |r| > 0 && r[0] == InitChild(ConditionChild, condOk)
    ensures forall i :: 0 <= i < |r| - 1 ==> r[i] != RegisterCounter
    ensures UnregisterCounter !in r
  {
    var afterCondition := [InitChild(ConditionChild, condOk)];
    if !condOk then afterCondition
    else
      var afterTrue := afterCondition + [InitChild(TrueChild, trueOk)];
      if !trueOk then afterTrue + [DeinitChild(ConditionChild)]
      else
        var afterFalse := afterTrue + [InitChild(FalseChild, falseOk)];
        if !falseOk then afterFalse + [DeinitChild(ConditionChild)] + [DeinitChild(TrueChild)]
        else afterFalse + [RegisterCounter]
  }

  /**
   * The calls `_deinit` makes: unregister the counter first, then deinit each
   * child once, in the order `_init` visits them, and initialise nothing.
   */
  function DeinitCalls(): (r: seq<Call>)
    ensures |r| == 4 && r[0] == UnregisterCounter
    ensures forall i :: 1 <= i < |r| ==> r[i].DeinitChild? && Position(r[i].child) == i - 1
    ensures RegisterCounter !in r && forall k: Child, ok: bool :: InitChild(k, ok) !in r
  {
    [UnregisterCounter, DeinitChild(ConditionChild), DeinitChild(TrueChild), DeinitChild(FalseChild)]
  }

  /** Position of a child in the order `_init` visits them. */
  function Position(k: Child): nat {
    match k
    case ConditionChild => 0
    case TrueChild => 1
    case FalseChild => 2
  }

  /** The first child whose init fails, if any. */
  function FirstFailure(condOk: bool, trueOk: bool, falseOk: bool): Option<Child> {
    if !condOk then Some(ConditionChild)
    else if !trueOk then Some(TrueChild)
    else if !falseOk then Some(FalseChild)
    else None
  }

  /**
   * Rollback of `_init`: when child k fails, exactly the children before k
   * are deinitialised, the children after k are never touched, and the
   * counter is not registered.
   */
  lemma InitRollsBack(condOk: bool, trueOk: bool, falseOk: bool, k: Child)
    requires FirstFailure(condOk, trueOk, falseOk) == Some(k)
    ensures forall j: Child :: DeinitChild(j) in InitCalls(condOk, trueOk, falseOk) <==> Position(j) < Position(k)
    ensures forall j: Child, ok: bool ::
              InitChild(j, ok) in InitCalls(condOk, trueOk, falseOk) <==> (Position(j) < Position(k) && ok) || (j == k && !ok)
    ensures RegisterCounter !in InitCalls(condOk, trueOk, falseOk)
  {
  }

  /**
   * A successful `_init` initialises each child once, in order, and
   * registers the counter last.
   */
  lemma InitRegistersLast(condOk: bool, trueOk: bool, falseOk: bool)
    ensures RegisterCounter in InitCalls(condOk, trueOk, falseOk) <==> condOk && trueOk && falseOk
    ensures condOk && trueOk && falseOk ==>
              InitCalls(condOk, trueOk, falseOk)
              == [InitChild(ConditionChild, true), InitChild(TrueChild, true), InitChild(FalseChild, true), RegisterCounter]
  {
  }

  /**
   * What `_init` leaves behind, from any starting flags: success initialises
   * everything and registers the counter; a failure leaves no child before
   * or at the failing one initialised, the ones after it as they were, and
   * the counter as it was.
   */
  lemma InitFlags(s: Flags, condOk: bool, trueOk: bool, falseOk: bool)
    ensures var r := Replay(s, InitCalls(condOk, trueOk, falseOk));
            (condOk && trueOk && falseOk ==> r == Flags(true, true, true, true))
            && (!condOk ==> r == s.(condition := false))
            && (condOk && !trueOk ==> r == s.(condition := false, trueBranch := false))
            && (condOk && trueOk && !falseOk ==> r == s.(condition := false, trueBranch := false, falseBranch := false))
  {
    var a := [InitChild(ConditionChild, condOk)];
    ReplayStep(s, [], a[0]);
    assert [] + a == a;
    if condOk {
      var t := InitChild(TrueChild, trueOk);
      ReplayStep(s, a, t);
      if !trueOk {
        ReplayStep(s, a + [t], DeinitChild(ConditionChild));
      } else {
        var f := InitChild(FalseChild, falseOk);
        ReplayStep(s, a + [t], f);
        if !falseOk {
          ReplayStep(s, a + [t] + [f], DeinitChild(ConditionChild));
          ReplayStep(s, a + [t] + [f] + [DeinitChild(ConditionChild)], DeinitChild(TrueChild));
        } else {
          ReplayStep(s, a + [t] + [f], RegisterCounter);
        }
      }
    }
  }

  /** `_deinit` leaves nothing initialised and the counter unregistered, whatever came before. */
  lemma DeinitFlags(s: Flags)
    ensures Replay(s, DeinitCalls()) == Uninitialised
  {
  }

  /**
   * A conditional node (struct _FilterXConditional). Its children are held
   * as expression trees; `calls` records, in order, what the node has asked
   * of its children and of the metrics registry.
   */
  class Conditional {
    var condition: Expr
    var trueBranch: Option<Expr>
    var falseBranch: Option<Expr>
    var conditionInited: bool
    var trueInited: bool
    var falseInited: bool
    var counterRegistered: bool
    var calls: seq<Call>

    /** The node as an expression tree. */
    function View(): Expr
      reads this
    {
      Cond(condition, trueBranch, falseBranch)
    }

    function State(): Flags
      reads this
    {
      Flags(conditionInited, trueInited, falseInited, counterRegistered)
    }

    /** The flags are what the recorded calls made of a freshly built node. */
    ghost predicate Valid()
      reads this
    {
      State() == Replay(Uninitialised, calls)
    }

    /** filterx_conditional_new: a node with only a condition. */
    constructor (condition: Expr)
      ensures Valid()
      ensures this.condition == condition && trueBranch.None? && falseBranch.None?
      ensures State() == Uninitialised && calls == []
    {
      this.condition := condition;
      trueBranch := None;
      falseBranch := None;
      conditionInited, trueInited, falseInited, counterRegistered := false, false, false, false;
      calls := [];
    }

    /** filterx_conditional_set_true_branch: replace the true branch, releasing the old one. */
    method SetTrueBranch(b: Option<Expr>)
      requires Valid()
      modifies this
      ensures Valid()
      ensures trueBranch == b
      ensures condition == old(condition) && falseBranch == old(falseBranch) && State() == old(State())
      ensures calls == old(calls) + Released(old(trueBranch))
    {
      if trueBranch.Some? {
        Perform(Release(trueBranch.value));
      }
      trueBranch := b;
    }

    /** filterx_conditional_set_false_branch: replace the false branch, releasing the old one. */
    method SetFalseBranch(b: Option<Expr>)
      requires Valid()
      modifies this
      ensures Valid()
      ensures falseBranch == b
      ensures condition == old(condition) && trueBranch == old(trueBranch) && State() == old(State())
      ensures calls == old(calls) + Released(old(falseBranch))
    {
      if falseBranch.Some? {
        Perform(Release(falseBranch.value));
      }
      falseBranch := b;
    }

    /** `_optimize_branches`: each child is replaced by its optimised form, in place. */
    method OptimizeBranches()
      modifies this
      ensures condition == OptimizeExpr(old(condition))
      ensures trueBranch == OptimizeBranch(old(trueBranch))
      ensures falseBranch == OptimizeBranch(old(falseBranch))
      ensures State() == old(State()) && calls == old(calls)
    {
      condition := OptimizeExpr(condition);
      trueBranch := OptimizeBranch(trueBranch);
      falseBranch := OptimizeBranch(falseBranch);
    }

    /**
     * `_optimize`: optimise the children in place, then offer a replacement
     * for the whole node when the condition is a literal. The node (or its
     * replacement) is then what filterx_expr_optimize makes of the old tree,
     * and evaluates as the old tree did.
     */
    method Optimize() returns (r: Option<Expr>)
      modifies this
      ensures condition == OptimizeExpr(old(condition))
      ensures trueBranch == OptimizeBranch(old(trueBranch))
      ensures falseBranch == OptimizeBranch(old(falseBranch))
      ensures r.Some? <==> condition.Literal?
      ensures r.GetOr(View()) == OptimizeExpr(old(View()))
      ensures forall env: Env :: Eval(r.GetOr(View()), env) == Eval(old(View()), env)
      ensures State() == old(State()) && calls == old(calls)
    {
      ghost var before := View();
      OptimizeBranches();
      if !condition.Literal? {
        r := None;
      } else {
        var v := condition.v;
        if Truthy(v) {
          r := Some(if trueBranch.Some? then trueBranch.value else condition);
        } else {
          r := Some(if falseBranch.Some? then falseBranch.value else Literal(Boolean(true)));
        }
      }
      forall env: Env ensures Eval(r.GetOr(View()), env) == Eval(before, env) {
        OptimizePreservesEval(before, env);
      }
    }

    /** One call of the node, recorded and applied to the flags. */
    method Perform(c: Call)
      requires Valid()
      modifies this
      ensures Valid()
      ensures calls == old(calls) + [c] && State() == Apply(old(State()), c)
      ensures condition == old(condition) && trueBranch == old(trueBranch) && falseBranch == old(falseBranch)
    {
      ReplayStep(Uninitialised, calls, c);
      calls := calls + [c];
      match c
      case InitChild(ConditionChild, ok) => conditionInited := ok;
      case InitChild(TrueChild, ok) => trueInited := ok;
      case InitChild(FalseChild, ok) => falseInited := ok;
      case DeinitChild(ConditionChild) => conditionInited := false;
      case DeinitChild(TrueChild) => trueInited := false;
      case DeinitChild(FalseChild) => falseInited := false;
      case RegisterCounter => counterRegistered := true;
      case UnregisterCounter => counterRegistered := false;
      case Release(_) =>
    }

    /**
     * `_init`, given what initialising each child returns. An absent branch
     * initialises successfully.
     */
    method Init(condOk: bool, trueOk: bool, falseOk: bool) returns (ok: bool)
      requires Valid()
      modifies this
      ensures Valid()
      ensures ok == (condOk && (trueBranch.None? || trueOk) && (falseBranch.None? || falseOk))
      ensures calls == old(calls) + InitCalls(condOk, trueBranch.None? || trueOk, falseBranch.None? || falseOk)
      ensures ok ==> conditionInited && trueInited && falseInited && counterRegistered
      ensures !ok ==> !conditionInited && counterRegistered == old(counterRegistered)
      ensures !ok && condOk ==> !trueInited
      ensures !ok && condOk && (trueBranch.None? || trueOk) ==> !falseInited
      ensures !condOk ==> trueInited == old(trueInited)
      ensures !(condOk && (trueBranch.None? || trueOk)) ==> falseInited == old(falseInited)
      ensures condition == old(condition) && trueBranch == old(trueBranch) && falseBranch == old(falseBranch)
    {
      var tOk := trueBranch.None? || trueOk;
      var fOk := falseBranch.None? || falseOk;
      ghost var before := calls;

      Perform(InitChild(ConditionChild, condOk));
      ghost var made := [InitChild(ConditionChild, condOk)];
      if !condOk {
        return false;
      }
      Perform(InitChild(TrueChild, tOk));
      AppendCall(before, made, InitChild(TrueChild, tOk));
      made := made + [InitChild(TrueChild, tOk)];
      if !tOk {
        Perform(DeinitChild(ConditionChild));
        AppendCall(before, made, DeinitChild(ConditionChild));
        return false;
      }
      Perform(InitChild(FalseChild, fOk));
      AppendCall(before, made, InitChild(FalseChild, fOk));
      made := made + [InitChild(FalseChild, fOk)];
      if !fOk {
        Perform(DeinitChild(ConditionChild));
        AppendCall(before, made, DeinitChild(ConditionChild));
        made := made + [DeinitChild(ConditionChild)];
        Perform(DeinitChild(TrueChild));
        AppendCall(before, made, DeinitChild(TrueChild));
        return false;
      }
      Perform(RegisterCounter);
      AppendCall(before, made, RegisterCounter);
      return true;
    }

    /** `_deinit`: unregister the counter and deinitialise all three children. */
    method Deinit()
      requires Valid()
      modifies this
      ensures Valid()
      ensures State() == Uninitialised
      ensures calls == old(calls) + DeinitCalls()
      ensures condition == old(condition) && trueBranch == old(trueBranch) && falseBranch == old(falseBranch)
    {
      Perform(UnregisterCounter);
      Perform(DeinitChild(ConditionChild));
      Perform(DeinitChild(TrueChild));
      Perform(DeinitChild(FalseChild));
    }
  }

  /** Giving up a branch that may be absent: releasing NULL does nothing. */
  function Released(b: Option<Expr>): seq<Call> {
    match b
    case Some(e) => [Release(e)]
    case None => []
  }
}
