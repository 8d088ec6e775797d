/** The traversals that keep a stack of pending nodes instead of recursing, against the recursive
    definitions they refine. The total size of the pending nodes shrinks at every step. */
module Worklists {
  import opened Options
  import opened SqlTypes
  import opened Bound
  import opened Evaluation
  import opened Evaluator
  import opened Syntax
  import opened Slots

  // ----- the size of what is pending -----

  function Pending<T>(size: T -> nat, es: seq<T>): nat {
    if es == [] then 0 else size(es[|es| - 1]) + Pending(size, es[..|es| - 1])
  }

  lemma {:induction false} PendingConcat<T>(size: T -> nat, a: seq<T>, b: seq<T>)
    ensures Pending(size, a + b) == Pending(size, a) + Pending(size, b)
    decreases |b|
  {
    if b == [] {
      assert a + b == a;
    } else {
      assert (a + b)[..|a + b| - 1] == a + b[..|b| - 1];
      PendingConcat(size, a, b[..|b| - 1]);
    }
  }

  function Reverse<T>(s: seq<T>): (r: seq<T>)
    ensures |r| == |s|
    ensures forall i :: 0 <= i < |s| ==> r[i] == s[|s| - 1 - i]
  {
    seq(|s|, i requires 0 <= i < |s| => s[|s| - 1 - i])
  }

  lemma {:induction false} PendingReverse<T>(size: T -> nat, s: seq<T>)
    ensures Pending(size, Reverse(s)) == Pending(size, s)
    decreases |s|
  {
    if s != [] {
      var front, last := s[..|s| - 1], s[|s| - 1];
      assert Reverse(s) == [last] + Reverse(front);
      PendingConcat(size, [last], Reverse(front));
      assert [last][..0] == [];
      PendingReverse(size, front);
    }
  }

  /** Replacing the top of a stack by its operands makes the stack smaller. */
  lemma Shrinks<T>(size: T -> nat, rest: seq<T>, top: T, kids: seq<T>)
    requires size(top) == 1 + Pending(size, kids)
    ensures Pending(size, rest + Reverse(kids)) < Pending(size, rest + [top])
    ensures Pending(size, rest + kids) < Pending(size, rest + [top])
  {
    PendingConcat(size, rest, Reverse(kids));
    PendingConcat(size, rest, kids);
    PendingReverse(size, kids);
    assert (rest + [top])[..|rest|] == rest;
  }

  /** The operands of the top answer, some of them, if and only if the top does. */
  lemma SomePushed<T(!new)>(p: T -> bool, rest: seq<T>, top: T, kids: seq<T>)
    requires p(top) <==> exists k :: 0 <= k < |kids| && p(kids[k])
    ensures (exists i :: 0 <= i < |rest + [top]| && p((rest + [top])[i]))
            <==> exists i :: 0 <= i < |rest + kids| && p((rest + kids)[i])
  {
    var before, after := rest + [top], rest + kids;
    if i :| 0 <= i < |before| && p(before[i]) {
      if i == |rest| {
        var k :| 0 <= k < |kids| && p(kids[k]);
        assert p(after[|rest| + k]);
      } else {
        assert p(after[i]);
      }
    }
    if i :| 0 <= i < |after| && p(after[i]) {
      if i < |rest| {
        assert p(before[i]);
      } else {
        assert p(kids[i - |rest|]);
        assert p(before[|rest|]);
      }
    }
  }

  function Size(e: Syn): nat
    decreases e, 0
  {
    1 + Sizes(e, Kids(e))
  }

  function Sizes(above: Syn, es: seq<Syn>): nat
    requires forall i :: 0 <= i < |es| ==> es[i] < above
    decreases above, 0, |es|
  {
    if es == [] then 0 else Size(es[|es| - 1]) + Sizes(above, es[..|es| - 1])
  }

  lemma {:induction false} SizesArePending(above: Syn, es: seq<Syn>)
    requires forall i :: 0 <= i < |es| ==> es[i] < above
    ensures Sizes(above, es) == Pending(Size, es)
    decreases |es|
  {
    if es != [] { SizesArePending(above, es[..|es| - 1]); }
  }

  // ----- the outermost nodes that answer -----

  /** The nodes of `e` that answer `wanted`, none under another of them, left to right. */
  function Outermost(e: Syn, wanted: Syn -> bool): seq<Syn>
    decreases e, 0
  {
    if wanted(e) then [e] else OutermostOf(e, Kids(e), wanted)
  }

  function OutermostOf(above: Syn, es: seq<Syn>, wanted: Syn -> bool): seq<Syn>
    requires forall i :: 0 <= i < |es| ==> es[i] < above
    decreases above, 0, |es|
  {
    if es == [] then [] else Outermost(es[0], wanted) + OutermostOf(above, es[1..], wanted)
  }

  /** What a stack, popped from its end, answers. */
  function Answers(pending: seq<Syn>, wanted: Syn -> bool): seq<Syn> {
    if pending == [] then []
    else Outermost(pending[|pending| - 1], wanted) + Answers(pending[..|pending| - 1], wanted)
  }

  lemma ConcatAssociates<T>(a: seq<T>, b: seq<T>, c: seq<T>)
    ensures a + (b + c) == (a + b) + c
  {
  }

  lemma AnswersTop(rest: seq<Syn>, top: Syn, wanted: Syn -> bool)
    ensures Answers(rest + [top], wanted) == Outermost(top, wanted) + Answers(rest, wanted)
  {
    assert (rest + [top])[..|rest|] == rest;
  }

  lemma {:induction false} AnswersPushed(above: Syn, rest: seq<Syn>, kids: seq<Syn>, wanted: Syn -> bool)
    requires forall i :: 0 <= i < |kids| ==> kids[i] < above
    ensures Answers(rest + Reverse(kids), wanted) == OutermostOf(above, kids, wanted) + Answers(rest, wanted)
    decreases |kids|
  {
    if kids == [] {
      assert rest + Reverse(kids) == rest;
    } else {
      assert rest + Reverse(kids) == (rest + Reverse(kids[1..])) + [kids[0]];
      AnswersTop(rest + Reverse(kids[1..]), kids[0], wanted);
      AnswersPushed(above, rest, kids[1..], wanted);
      ConcatAssociates(Outermost(kids[0], wanted), OutermostOf(above, kids[1..], wanted), Answers(rest, wanted));
    }
  }

  /** What is found and what the stack still answers, between them, is what there is to find. */
  predicate Gathers(all: seq<Syn>, found: seq<Syn>, pending: seq<Syn>, wanted: Syn -> bool) {
    all == found + Answers(pending, wanted)
  }

  lemma GatherStep(all: seq<Syn>, found: seq<Syn>, rest: seq<Syn>, top: Syn, wanted: Syn -> bool)
    requires Gathers(all, found, rest + [top], wanted)
    ensures wanted(top) ==> Gathers(all, found + [top], rest, wanted)
    ensures !wanted(top) ==> Gathers(all, found, rest + Reverse(Kids(top)), wanted)
  {
    AnswersTop(rest, top, wanted);
    if wanted(top) {
      ConcatAssociates(found, [top], Answers(rest, wanted));
    } else {
      AnswersPushed(top, rest, Kids(top), wanted);
    }
  }

  lemma StackShrinks(rest: seq<Syn>, top: Syn)
    ensures Pending(Size, rest) < Pending(Size, rest + [top])
    ensures Pending(Size, rest + Reverse(Kids(top))) < Pending(Size, rest + [top])
    ensures Pending(Size, rest + Kids(top)) < Pending(Size, rest + [top])
  {
    SizesArePending(top, Kids(top));
    Shrinks(Size, rest, top, Kids(top));
    PendingConcat(Size, rest, Kids(top));
  }

  /** The whole list, or its first entry alone. */
  function Asked(all: seq<Syn>, firstOnly: bool): seq<Syn> {
    if firstOnly && all != [] then [all[0]] else all
  }

  /** `nodes_where`: exactly the outermost nodes that answer, in written order, or the first of
      them alone. */
  method NodesWhere(e: Syn, wanted: Syn -> bool, firstOnly: bool) returns (found: seq<Syn>)
    ensures found == Asked(Outermost(e, wanted), firstOnly)
  {
    ghost var all := Outermost(e, wanted);
    found := [];
    var pending := [e];
    assert pending[..0] == [];
    while pending != []
      invariant Gathers(all, found, pending, wanted)
      invariant firstOnly ==> found == []
      decreases Pending(Size, pending)
    {
      var top, rest := pending[|pending| - 1], pending[..|pending| - 1];
      assert pending == rest + [top];
      GatherStep(all, found, rest, top, wanted);
      StackShrinks(rest, top);
      if wanted(top) {
        found := found + [top];
        if firstOnly { return; }
        pending := rest;
      } else {
        pending := rest + Reverse(Kids(top));
      }
    }
  }

  predicate IsCall(e: Syn) {
    e.Call?
  }

  lemma {:induction false} OutermostCalls(e: Syn)
    ensures Outermost(e, IsCall) != [] <==> HoldsCall(e)
    decreases e, 0
  {
    if !e.Call? {
      OutermostCallsOf(e, Kids(e));
      if HoldsCall(e) { assert exists i :: 0 <= i < |Kids(e)| && HoldsCall(Kids(e)[i]) by { HoldsCallKid(e); } }
    }
  }

  lemma HoldsCallKid(e: Syn)
    requires HoldsCall(e) && !e.Call?
    ensures exists i :: 0 <= i < |Kids(e)| && HoldsCall(Kids(e)[i])
  {
    if e.Nested? || e.Plus? {
      assert HoldsCall(Kids(e)[0]);
    } else {
      var kids := if e.Node? then e.kids else e.tested;
      var i :| 0 <= i < |kids| && HoldsCall(kids[i]);
      assert HoldsCall(Kids(e)[i]);
    }
  }

  lemma {:induction false} OutermostCallsOf(above: Syn, es: seq<Syn>)
    requires forall i :: 0 <= i < |es| ==> es[i] < above
    ensures OutermostOf(above, es, IsCall) != [] <==> exists i :: 0 <= i < |es| && HoldsCall(es[i])
    decreases above, 0, |es|
  {
    if es != [] {
      OutermostCalls(es[0]);
      OutermostCallsOf(above, es[1..]);
      if i :| 1 <= i < |es| && HoldsCall(es[i]) { assert HoldsCall(es[1..][i - 1]); }
      if i :| 0 <= i < |es[1..]| && HoldsCall(es[1..][i]) { assert HoldsCall(es[i + 1]); }
    }
  }

  /** `find_aggregate`: an aggregate call when the expression holds one, the first written. */
  method FindAggregate(e: Syn) returns (call: Option<Syn>)
    ensures call.Some? <==> HoldsCall(e)
    ensures call.Some? ==> call.value.Call? && [call.value] <= Outermost(e, IsCall)
  {
    var found := NodesWhere(e, IsCall, true);
    OutermostCalls(e);
    OutermostAnswers(e, IsCall);
    if found == [] { return None; }
    return Some(found[0]);
  }

  predicate Each(found: seq<Syn>, wanted: Syn -> bool) {
    forall i :: 0 <= i < |found| ==> wanted(found[i])
  }

  /** Every node listed answers. */
  lemma {:induction false} OutermostAnswers(e: Syn, wanted: Syn -> bool)
    ensures Each(Outermost(e, wanted), wanted)
    decreases e, 0
  {
    if !wanted(e) { OutermostOfAnswers(e, Kids(e), wanted); }
  }

  lemma {:induction false} OutermostOfAnswers(above: Syn, es: seq<Syn>, wanted: Syn -> bool)
    requires forall i :: 0 <= i < |es| ==> es[i] < above
    ensures Each(OutermostOf(above, es, wanted), wanted)
    decreases above, 0, |es|
  {
    if es != [] {
      OutermostAnswers(es[0], wanted);
      OutermostOfAnswers(above, es[1..], wanted);
      var first, others := Outermost(es[0], wanted), OutermostOf(above, es[1..], wanted);
      assert OutermostOf(above, es, wanted) == first + others;
    }
  }

  // ----- a constant expression -----

  /** A form a constant may be built with, over operands that are constants. */
  predicate ConstantForm(form: Form, operands: nat) {
    match form
    case BinaryForm(_) | UnaryForm(_) | CaseForm(_, _) | CastForm(_) | ConvertForm(_) | IsNullForm(_) | CollateForm(_) => true
    case FunctionForm(_) => operands > 0
    case _ => false
  }

  /** Whether the walk goes on under `e`, rather than answer that the key is no constant. */
  predicate Walks(e: Syn) {
    e.Lit? || e.Nested? || e.Plus? || (e.Node? && ConstantForm(e.form, |e.kids|)) || (e.Call? && e.args != [])
  }

  predicate Constant(e: Syn)
    decreases e, 0
  {
    Walks(e) && ConstantKids(e, Kids(e))
  }

  predicate ConstantKids(above: Syn, es: seq<Syn>)
    requires forall i :: 0 <= i < |es| ==> es[i] < above
    decreases above, 0, |es|
  {
    es == [] || (Constant(es[|es| - 1]) && ConstantKids(above, es[..|es| - 1]))
  }

  predicate Constants(es: seq<Syn>) {
    es == [] || (Constant(es[|es| - 1]) && Constants(es[..|es| - 1]))
  }

  lemma {:induction false} ConstantsPushed(above: Syn, rest: seq<Syn>, kids: seq<Syn>)
    requires forall i :: 0 <= i < |kids| ==> kids[i] < above
    ensures Constants(rest + kids) <==> Constants(rest) && ConstantKids(above, kids)
    decreases |kids|
  {
    if kids == [] {
      assert rest + kids == rest;
    } else {
      assert (rest + kids)[..|rest + kids| - 1] == rest + kids[..|kids| - 1];
      ConstantsPushed(above, rest, kids[..|kids| - 1]);
    }
  }

  /** The recursion in one line: every operand of a constant is one. */
  lemma {:induction false} ConstantEach(above: Syn, es: seq<Syn>)
    requires forall i :: 0 <= i < |es| ==> es[i] < above
    ensures ConstantKids(above, es) <==> forall i :: 0 <= i < |es| ==> Constant(es[i])
    decreases |es|
  {
    if es != [] { ConstantEach(above, es[..|es| - 1]); }
  }

  /** `is_constant`. */
  method IsConstant(e: Syn) returns (constant: bool)
    ensures constant == Constant(e)
  {
    var pending := [e];
    assert pending[..0] == [];
    while pending != []
      invariant Constant(e) <==> Constants(pending)
      decreases Pending(Size, pending)
    {
      var top, rest := pending[|pending| - 1], pending[..|pending| - 1];
      if !Walks(top) { return false; }
      assert pending == rest + [top];
      StackShrinks(rest, top);
      ConstantsPushed(top, rest, Kids(top));
      pending := rest + Kids(top);
    }
    return true;
  }

  // ----- a niladic call spelled wrong -----

  predicate HoldsInvalid(e: Syn)
    decreases e
  {
    e.Invalid? || exists i :: 0 <= i < |Kids(e)| && HoldsInvalid(Kids(e)[i])
  }

  /** `contains_invalid_niladic`. */
  method ContainsInvalidNiladic(e: Syn) returns (held: bool)
    ensures held == HoldsInvalid(e)
  {
    var pending := [e];
    while pending != []
      invariant HoldsInvalid(e) <==> exists i :: 0 <= i < |pending| && HoldsInvalid(pending[i])
      decreases Pending(Size, pending)
    {
      var top, rest := pending[|pending| - 1], pending[..|pending| - 1];
      assert pending == rest + [top];
      if top.Invalid? {
        assert HoldsInvalid(pending[|pending| - 1]);
        return true;
      }
      StackShrinks(rest, top);
      SomePushed(HoldsInvalid, rest, top, Kids(top));
      pending := rest + Kids(top);
    }
    return false;
  }

  // ----- a variable read -----

  /** The operands of a bound expression, the plan of a subquery not walked into. */
  function Operands(e: Expr): (es: seq<Expr>)
    ensures forall i :: 0 <= i < |es| ==> es[i] < e
  {
    match e
    case Op(_, args, _) => args
    case Subquery(kind, tested, _, _) => if kind.InRows? then tested else []
    case _ => []
  }

  predicate ReadsVariable(e: Expr)
    decreases e
  {
    e.Variable? || exists i :: 0 <= i < |Operands(e)| && ReadsVariable(Operands(e)[i])
  }

  function Weight(e: Expr): nat
    decreases e, 0
  {
    1 + Weights(e, Operands(e))
  }

  function Weights(above: Expr, es: seq<Expr>): nat
    requires forall i :: 0 <= i < |es| ==> es[i] < above
    decreases above, 0, |es|
  {
    if es == [] then 0 else Weight(es[|es| - 1]) + Weights(above, es[..|es| - 1])
  }

  lemma {:induction false} WeightsArePending(above: Expr, es: seq<Expr>)
    requires forall i :: 0 <= i < |es| ==> es[i] < above
    ensures Weights(above, es) == Pending(Weight, es)
    decreases |es|
  {
    if es != [] { WeightsArePending(above, es[..|es| - 1]); }
  }

  /** `reads_a_variable`. */
  method ReadsAVariable(e: Expr) returns (reads_: bool)
    ensures reads_ == ReadsVariable(e)
  {
    var pending := [e];
    while pending != []
      invariant ReadsVariable(e) <==> exists i :: 0 <= i < |pending| && ReadsVariable(pending[i])
      decreases Pending(Weight, pending)
    {
      var top, rest := pending[|pending| - 1], pending[..|pending| - 1];
      assert pending == rest + [top];
      if top.Variable? {
        assert ReadsVariable(pending[|pending| - 1]);
        return true;
      }
      WeightsArePending(top, Operands(top));
      Shrinks(Weight, rest, top, Operands(top));
      SomePushed(ReadsVariable, rest, top, Operands(top));
      pending := rest + Operands(top);
    }
    return false;
  }

  /** An expression that reads no variable and holds no subquery computes the same whatever the
      variables hold. */
  lemma {:induction false} VariablesUnread(sem: Sem, other: Sem, e: Expr, env: Env)
    requires !ReadsVariable(e) && QueryFree(e) && other == sem.(variable := other.variable)
    ensures Eval(other, e, env) == Eval(sem, e, env)
    decreases e
  {
    if e.Op? {
      forall i | 0 <= i < |e.args| ensures Eval(other, e.args[i], env) == Eval(sem, e.args[i], env) {
        assert !ReadsVariable(Operands(e)[i]);
        VariablesUnread(sem, other, e.args[i], env);
      }
      assert EvalAll(other, e.args, env) == EvalAll(sem, e.args, env);
      ApplyIgnoresVariables(sem, other, e.op, e.ty, Types(e.args), EvalAll(sem, e.args, env));
    }
  }

  lemma {:induction false} ApplyIgnoresVariables(sem: Sem, other: Sem, op: Operator, ty: TypeInfo, tys: seq<TypeInfo>, outs: seq<Outcome>)
    requires |tys| == |outs| && other == sem.(variable := other.variable)
    ensures Apply(other, op, ty, tys, outs) == Apply(sem, op, ty, tys, outs)
  {
    if op.Function? && op.def.name == "COALESCE" { CoalesceIgnoresVariables(sem, other, ty, tys, outs); }
  }

  lemma {:induction false} CoalesceIgnoresVariables(sem: Sem, other: Sem, ty: TypeInfo, tys: seq<TypeInfo>, outs: seq<Outcome>)
    requires |tys| == |outs| && other == sem.(variable := other.variable)
    ensures ApplyCoalesce(other, ty, tys, outs) == ApplyCoalesce(sem, ty, tys, outs)
    decreases |outs|
  {
    if outs != [] { CoalesceIgnoresVariables(sem, other, ty, tys[1..], outs[1..]); }
  }
}
