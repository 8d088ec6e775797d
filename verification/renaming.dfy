/** Free columns of a bound tree, and what happens when each is replaced.

    A column is read `depth` queries up. Inside `n` nested queries a column of depth `n` or
    more is free: it reads the environment of the whole expression, at `depth - n`. */
module Renaming {
  import opened Bound
  import opened Evaluation
  import opened Relational
  import opened Evaluator

  type Renaming = ColumnBinding -> ColumnBinding

  function AtLevel(c: ColumnBinding, n: nat): ColumnBinding
    requires n <= c.depth
  {
    c.(depth := c.depth - n)
  }

  function Under(c: ColumnBinding, n: nat): ColumnBinding {
    c.(depth := c.depth + n)
  }

  /** `e` with each free column replaced by what `g` makes of it. */
  function Rename(e: Expr, n: nat, g: Renaming): (r: Expr)
    decreases e, 0
    ensures r.ty == e.ty
  {
    match e
    case Literal(_, _) => e
    case Variable(_, _) => e
    case ColumnRef(c, ty) => if c.depth >= n then ColumnRef(Under(g(AtLevel(c, n)), n), ty) else e
    case Op(op, args, ty) => Op(op, RenameAll(args, n, g), ty)
    case Subquery(kind, tested, plan, ty) =>
      Subquery(kind, RenameAll(tested, n, g), RenamePlan(plan, n + 1, g), ty)
  }

  function RenameAll(es: seq<Expr>, n: nat, g: Renaming): (rs: seq<Expr>)
    decreases es, 0
    ensures |rs| == |es|
    ensures forall i :: 0 <= i < |es| ==> rs[i] == Rename(es[i], n, g)
  {
    seq(|es|, i requires 0 <= i < |es| => Rename(es[i], n, g))
  }

  /** The expressions of a plan are `n` queries deep. A derived table has no free column. */
  function RenamePlan(p: Plan, n: nat, g: Renaming): (r: Plan)
    decreases p, 0
    ensures r.schema == p.schema && r.op == p.op
  {
    if p.op.Derived? then p
    else Rel(p.op, RenameAll(p.exprs, n, g), RenamePlans(p.inputs, n, g), p.schema)
  }

  function RenamePlans(ps: seq<Plan>, n: nat, g: Renaming): (rs: seq<Plan>)
    decreases ps, 0
    ensures |rs| == |ps|
    ensures forall i :: 0 <= i < |ps| ==> rs[i] == RenamePlan(ps[i], n, g)
  {
    seq(|ps|, i requires 0 <= i < |ps| => RenamePlan(ps[i], n, g))
  }

  /** Every free column of `e` satisfies `p`. */
  predicate Reads(e: Expr, n: nat, p: ColumnBinding -> bool)
    decreases e, 0
  {
    match e
    case Literal(_, _) => true
    case Variable(_, _) => true
    case ColumnRef(c, _) => c.depth >= n ==> p(AtLevel(c, n))
    case Op(_, args, _) => ReadsAll(args, n, p)
    case Subquery(_, tested, plan, _) => ReadsAll(tested, n, p) && PlanReads(plan, n + 1, p)
  }

  predicate ReadsAll(es: seq<Expr>, n: nat, p: ColumnBinding -> bool)
    decreases es, 0
  {
    forall i :: 0 <= i < |es| ==> Reads(es[i], n, p)
  }

  predicate PlanReads(plan: Plan, n: nat, p: ColumnBinding -> bool)
    decreases plan, 0
  {
    plan.op.Derived? || (ReadsAll(plan.exprs, n, p) && PlansRead(plan.inputs, n, p))
  }

  predicate PlansRead(plans: seq<Plan>, n: nat, p: ColumnBinding -> bool)
    decreases plans, 0
  {
    forall i :: 0 <= i < |plans| ==> PlanReads(plans[i], n, p)
  }

  /** What the renamed tree reads in `env2` is what the tree reads in `env1`. */
  ghost predicate Matches(p: ColumnBinding -> bool, g: Renaming, env1: Env, env2: Env) {
    forall c :: p(c) ==> Lookup(env1, c) == Lookup(env2, g(c))
  }

  /** Replacing the free columns by columns that read the same values changes no outcome,
      however deep the queries they are read in. */
  lemma {:induction false} RenameEval(sem: Sem, e: Expr, n: nat, p: ColumnBinding -> bool, g: Renaming,
                                      inner: Env, env1: Env, env2: Env)
    requires |inner| == n && Reads(e, n, p) && Matches(p, g, env1, env2)
    ensures Eval(sem, Rename(e, n, g), inner + env2) == Eval(sem, e, inner + env1)
    decreases e, 0
  {
    match e
    case Literal(_, _) =>
    case Variable(_, _) =>
    case ColumnRef(c, _) =>
      if c.depth >= n {
        var free := AtLevel(c, n);
        assert Lookup(env1, free) == Lookup(env2, g(free));
      }
    case Op(_, args, _) =>
      RenameEvalAll(sem, args, n, p, g, inner, env1, env2);
    case Subquery(_, tested, plan, _) =>
      RenameEvalAll(sem, tested, n, p, g, inner, env1, env2);
      RenameEvalPlan(sem, plan, n + 1, p, g, inner, env1, env2);
  }

  lemma {:induction false} RenameEvalAll(sem: Sem, es: seq<Expr>, n: nat, p: ColumnBinding -> bool, g: Renaming,
                                         inner: Env, env1: Env, env2: Env)
    requires |inner| == n && ReadsAll(es, n, p) && Matches(p, g, env1, env2)
    ensures EvalAll(sem, RenameAll(es, n, g), inner + env2) == EvalAll(sem, es, inner + env1)
    ensures Types(RenameAll(es, n, g)) == Types(es)
    decreases es, 0
  {
    forall i | 0 <= i < |es|
      ensures Eval(sem, Rename(es[i], n, g), inner + env2) == Eval(sem, es[i], inner + env1)
    {
      RenameEval(sem, es[i], n, p, g, inner, env1, env2);
    }
  }

  lemma {:induction false} RenameEvalPlan(sem: Sem, plan: Plan, n: nat, p: ColumnBinding -> bool, g: Renaming,
                                          inner: Env, env1: Env, env2: Env)
    requires |inner| + 1 == n && PlanReads(plan, n, p) && Matches(p, g, env1, env2)
    ensures EvalStream(sem, RenamePlan(plan, n, g), inner + env2) == EvalStream(sem, plan, inner + env1)
    ensures EvalPlan(sem, RenamePlan(plan, n, g), inner + env2) == EvalPlan(sem, plan, inner + env1)
    decreases plan, 0
  {
    if !plan.op.Derived? {
      RenameEvalPlans(sem, plan.inputs, n, p, g, inner, env1, env2);
      var ins := EvalStreams(sem, plan.inputs, inner + env1);
      RenameEvalOver(sem, plan.exprs, Candidates(plan.op, Produced(ins)), n, p, g, inner, env1, env2);
    }
  }

  lemma {:induction false} RenameEvalPlans(sem: Sem, plans: seq<Plan>, n: nat, p: ColumnBinding -> bool, g: Renaming,
                                           inner: Env, env1: Env, env2: Env)
    requires |inner| + 1 == n && PlansRead(plans, n, p) && Matches(p, g, env1, env2)
    ensures EvalStreams(sem, RenamePlans(plans, n, g), inner + env2) == EvalStreams(sem, plans, inner + env1)
    ensures Widths(RenamePlans(plans, n, g)) == Widths(plans)
    decreases plans, 0
  {
    forall i | 0 <= i < |plans|
      ensures EvalStream(sem, RenamePlan(plans[i], n, g), inner + env2) == EvalStream(sem, plans[i], inner + env1)
    {
      RenameEvalPlan(sem, plans[i], n, p, g, inner, env1, env2);
    }
  }

  lemma {:induction false} RenameEvalOver(sem: Sem, es: seq<Expr>, rows: seq<Row>, n: nat, p: ColumnBinding -> bool,
                                          g: Renaming, inner: Env, env1: Env, env2: Env)
    requires |inner| + 1 == n && ReadsAll(es, n, p) && Matches(p, g, env1, env2)
    ensures EvalOver(sem, RenameAll(es, n, g), rows, inner + env2) == EvalOver(sem, es, rows, inner + env1)
    ensures Types(RenameAll(es, n, g)) == Types(es)
    decreases es, 1
  {
    RenameEvalAll(sem, es, n, p, g, [Plain([])] + inner, env1, env2);
    forall i | 0 <= i < |rows|
      ensures EvalAll(sem, RenameAll(es, n, g), [Plain(rows[i])] + (inner + env2))
              == EvalAll(sem, es, [Plain(rows[i])] + (inner + env1))
    {
      assert [Plain(rows[i])] + (inner + env1) == ([Plain(rows[i])] + inner) + env1;
      assert [Plain(rows[i])] + (inner + env2) == ([Plain(rows[i])] + inner) + env2;
      RenameEvalAll(sem, es, n, p, g, [Plain(rows[i])] + inner, env1, env2);
    }
  }

  /** The free columns of a renamed tree are what the renaming made of those of the tree. */
  lemma {:induction false} RenameReads(e: Expr, n: nat, p: ColumnBinding -> bool, g: Renaming, q: ColumnBinding -> bool)
    requires Reads(e, n, p) && forall c :: p(c) ==> q(g(c))
    ensures Reads(Rename(e, n, g), n, q)
    decreases e, 0
  {
    match e
    case Literal(_, _) =>
    case Variable(_, _) =>
    case ColumnRef(c, _) =>
      if c.depth >= n {
        var free := AtLevel(c, n);
        assert AtLevel(Under(g(free), n), n) == g(free);
      }
    case Op(_, args, _) => RenameAllReads(args, n, p, g, q);
    case Subquery(_, tested, plan, _) =>
      RenameAllReads(tested, n, p, g, q);
      RenamePlanReads(plan, n + 1, p, g, q);
  }

  lemma {:induction false} RenameAllReads(es: seq<Expr>, n: nat, p: ColumnBinding -> bool, g: Renaming, q: ColumnBinding -> bool)
    requires ReadsAll(es, n, p) && forall c :: p(c) ==> q(g(c))
    ensures ReadsAll(RenameAll(es, n, g), n, q)
    decreases es, 0
  {
    forall i | 0 <= i < |es| ensures Reads(Rename(es[i], n, g), n, q) { RenameReads(es[i], n, p, g, q); }
  }

  lemma {:induction false} RenamePlanReads(plan: Plan, n: nat, p: ColumnBinding -> bool, g: Renaming, q: ColumnBinding -> bool)
    requires PlanReads(plan, n, p) && forall c :: p(c) ==> q(g(c))
    ensures PlanReads(RenamePlan(plan, n, g), n, q)
    decreases plan, 0
  {
    if !plan.op.Derived? {
      RenameAllReads(plan.exprs, n, p, g, q);
      forall i | 0 <= i < |plan.inputs| ensures PlanReads(RenamePlan(plan.inputs[i], n, g), n, q) {
        RenamePlanReads(plan.inputs[i], n, p, g, q);
      }
    }
  }

  /** A column that says nothing new leaves the tree as it is. */
  lemma {:induction false} RenameIdentity(e: Expr, n: nat)
    ensures Rename(e, n, c => c) == e
    decreases e, 0
  {
    match e
    case Literal(_, _) =>
    case Variable(_, _) =>
    case ColumnRef(_, _) =>
    case Op(_, args, _) => RenameAllIdentity(args, n);
    case Subquery(_, tested, plan, _) =>
      RenameAllIdentity(tested, n);
      RenamePlanIdentity(plan, n + 1);
  }

  lemma {:induction false} RenameAllIdentity(es: seq<Expr>, n: nat)
    ensures RenameAll(es, n, c => c) == es
    decreases es, 0
  {
    forall i | 0 <= i < |es| ensures Rename(es[i], n, c => c) == es[i] { RenameIdentity(es[i], n); }
  }

  lemma {:induction false} RenamePlanIdentity(plan: Plan, n: nat)
    ensures RenamePlan(plan, n, c => c) == plan
    decreases plan, 0
  {
    if !plan.op.Derived? {
      RenameAllIdentity(plan.exprs, n);
      forall i | 0 <= i < |plan.inputs| ensures RenamePlan(plan.inputs[i], n, c => c) == plan.inputs[i] {
        RenamePlanIdentity(plan.inputs[i], n);
      }
      assert RenamePlans(plan.inputs, n, c => c) == plan.inputs;
    }
  }

  /** Two environments that agree on the columns a tree reads give it one outcome. */
  lemma EvalAgrees(sem: Sem, e: Expr, p: ColumnBinding -> bool, env1: Env, env2: Env)
    requires Reads(e, 0, p) && forall c :: p(c) ==> Lookup(env1, c) == Lookup(env2, c)
    ensures Eval(sem, e, env2) == Eval(sem, e, env1)
  {
    var same: Renaming := c => c;
    RenameEval(sem, e, 0, p, same, [], env1, env2);
    RenameIdentity(e, 0);
    assert [] + env1 == env1 && [] + env2 == env2;
  }
}
