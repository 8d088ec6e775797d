/** The evaluator of bound trees: an expression over a stack of rows, one per query level, and
    a plan over the rows of the queries that enclose it. */
module Evaluator {
  import opened Bound
  import opened Evaluation
  import opened Relational

  function Eval(sem: Sem, e: Expr, env: Env): Outcome
    decreases e, 0
  {
    match e
    case Literal(v, _) => Val(v)
    case ColumnRef(c, _) => Lookup(env, c)
    case Variable(name, _) => Val(sem.variable(Lower(name)))
    case Op(op, args, ty) => Apply(sem, op, ty, Types(args), EvalAll(sem, args, env))
    case Subquery(kind, tested, plan, _) =>
      ApplySubquery(sem, kind, Types(tested), EvalAll(sem, tested, env), EvalStream(sem, plan, env))
  }

  function EvalAll(sem: Sem, es: seq<Expr>, env: Env): (outs: seq<Outcome>)
    decreases es, 0
    ensures |outs| == |es|
    ensures forall i :: 0 <= i < |es| ==> outs[i] == Eval(sem, es[i], env)
  {
    seq(|es|, i requires 0 <= i < |es| => Eval(sem, es[i], env))
  }

  /** The expressions on each of the rows, over the rows of the enclosing queries. */
  function EvalOver(sem: Sem, es: seq<Expr>, rows: seq<Row>, outer: Env): (cells: seq<seq<Outcome>>)
    decreases es, 1
    ensures |cells| == |rows|
    ensures forall i :: 0 <= i < |rows| ==> cells[i] == EvalAll(sem, es, [Plain(rows[i])] + outer)
  {
    seq(|rows|, i requires 0 <= i < |rows| => EvalAll(sem, es, [Plain(rows[i])] + outer))
  }

  /** What `plan` hands out, evaluated inside queries whose current rows are `outer`. A derived
      table reads no column of an enclosing query. */
  function EvalStream(sem: Sem, plan: Plan, outer: Env): Stream
    decreases plan, 0
  {
    if plan.op.Derived? then
      if |plan.inputs| == 1 then EvalStream(sem, plan.inputs[0], []) else Stream([], true)
    else
      var ins := EvalStreams(sem, plan.inputs, outer);
      CombineStream(sem, plan.op, plan.schema, Types(plan.exprs), Widths(plan.inputs), ins,
                    EvalOver(sem, plan.exprs, Candidates(plan.op, Produced(ins)), outer))
  }

  function EvalStreams(sem: Sem, plans: seq<Plan>, outer: Env): (rs: seq<Stream>)
    decreases plans, 0
    ensures |rs| == |plans|
    ensures forall i :: 0 <= i < |plans| ==> rs[i] == EvalStream(sem, plans[i], outer)
  {
    seq(|plans|, i requires 0 <= i < |plans| => EvalStream(sem, plans[i], outer))
  }

  /** The rows of `plan`, all of them. */
  function EvalPlan(sem: Sem, plan: Plan, outer: Env): Rows
    decreases plan, 1
  {
    Whole(EvalStream(sem, plan, outer))
  }

  function EvalPlans(sem: Sem, plans: seq<Plan>, outer: Env): (rs: seq<Rows>)
    ensures |rs| == |plans|
    ensures forall i :: 0 <= i < |plans| ==> rs[i] == EvalPlan(sem, plans[i], outer)
  {
    seq(|plans|, i requires 0 <= i < |plans| => EvalPlan(sem, plans[i], outer))
  }

  function RowsOf(ins: seq<Rows>): (rows: seq<seq<Row>>)
    requires forall i :: 0 <= i < |ins| ==> ins[i].Rows?
    ensures |rows| == |ins|
    ensures forall i :: 0 <= i < |ins| ==> rows[i] == ins[i].rows
  {
    seq(|ins|, i requires 0 <= i < |ins| => ins[i].rows)
  }

  function Widths(plans: seq<Plan>): (ws: seq<nat>)
    ensures |ws| == |plans|
    ensures forall i :: 0 <= i < |plans| ==> ws[i] == |plans[i].schema|
  {
    seq(|plans|, i requires 0 <= i < |plans| => |plans[i].schema|)
  }

  /** What a node of one input hands out. */
  lemma StreamUnary(sem: Sem, plan: Plan, outer: Env)
    requires |plan.inputs| == 1 && !plan.op.Derived?
    ensures var input := EvalStream(sem, plan.inputs[0], outer);
            EvalStream(sem, plan, outer)
            == CombineStream(sem, plan.op, plan.schema, Types(plan.exprs), [|plan.inputs[0].schema|], [input],
                             EvalOver(sem, plan.exprs, Candidates(plan.op, Produced([input])), outer))
  {
    var ins := EvalStreams(sem, plan.inputs, outer);
    assert ins == [EvalStream(sem, plan.inputs[0], outer)];
    assert Widths(plan.inputs) == [|plan.inputs[0].schema|];
  }

  /** The rows of a node of one input; a `Limit` may stop before its input fails. */
  lemma EvalUnary(sem: Sem, plan: Plan, outer: Env)
    requires |plan.inputs| == 1 && !plan.op.Derived?
    ensures EvalPlan(sem, plan.inputs[0], outer).Fail? && !plan.op.Limit? ==> EvalPlan(sem, plan, outer).Fail?
    ensures var input := EvalPlan(sem, plan.inputs[0], outer);
            input.Rows? ==>
              EvalPlan(sem, plan, outer)
              == Combine(sem, plan.op, plan.schema, Types(plan.exprs), [|plan.inputs[0].schema|], [input.rows],
                         EvalOver(sem, plan.exprs, Candidates(plan.op, [input.rows]), outer))
  {
    StreamUnary(sem, plan, outer);
    var ins := [EvalStream(sem, plan.inputs[0], outer)];
    assert Produced(ins) == [ins[0].rows];
    var cells := EvalOver(sem, plan.exprs, Candidates(plan.op, Produced(ins)), outer);
    if ins[0].failed {
      if !plan.op.Limit? { CombineFails(sem, plan.op, plan.schema, Types(plan.exprs), [|plan.inputs[0].schema|], ins, cells); }
    } else {
      CombineWhole(sem, plan.op, plan.schema, Types(plan.exprs), [|plan.inputs[0].schema|], ins, cells);
    }
  }

  /** The rows of a node of two inputs. */
  lemma EvalBinary(sem: Sem, plan: Plan, outer: Env)
    requires |plan.inputs| == 2 && !plan.op.Derived? && !plan.op.Limit?
    ensures var l, r := EvalPlan(sem, plan.inputs[0], outer), EvalPlan(sem, plan.inputs[1], outer);
            (l.Fail? || r.Fail? ==> EvalPlan(sem, plan, outer).Fail?)
            && (l.Rows? && r.Rows? ==>
                  EvalPlan(sem, plan, outer)
                  == Combine(sem, plan.op, plan.schema, Types(plan.exprs), [|plan.inputs[0].schema|, |plan.inputs[1].schema|],
                             [l.rows, r.rows], EvalOver(sem, plan.exprs, Candidates(plan.op, [l.rows, r.rows]), outer)))
  {
    var ins := EvalStreams(sem, plan.inputs, outer);
    var widths := [|plan.inputs[0].schema|, |plan.inputs[1].schema|];
    assert Widths(plan.inputs) == widths;
    assert Produced(ins) == [ins[0].rows, ins[1].rows];
    var cells := EvalOver(sem, plan.exprs, Candidates(plan.op, Produced(ins)), outer);
    if ins[0].failed || ins[1].failed {
      CombineFails(sem, plan.op, plan.schema, Types(plan.exprs), widths, ins, cells);
    } else {
      CombineWhole(sem, plan.op, plan.schema, Types(plan.exprs), widths, ins, cells);
    }
  }

  // ----- names compared without regard to ASCII case -----

  function LowerChar(c: char): char {
    if 'A' <= c <= 'Z' then c - 'A' + 'a' else c
  }

  function Lower(s: string): string {
    seq(|s|, i requires 0 <= i < |s| => LowerChar(s[i]))
  }

  predicate EqIgnoreCase(a: string, b: string) {
    Lower(a) == Lower(b)
  }
}
