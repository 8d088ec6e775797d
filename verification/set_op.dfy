/** Set operators: a tree of them taken apart into runs, each run typed, its operands converted
    and the tree put back. */
module SetOps {
  import opened Options
  import opened SqlTypes
  import opened Bound
  import opened Conversions
  import opened RunTypes
  import opened SortStack
  import opened Worklists
  import opened DecimalDigits

  // ----- the tree -----

  /** A query body as parsed, each `SELECT` bound. */
  datatype Body = Select(plan: Plan) | SetBody(kind: SetOpKind, all: bool, left: Body, right: Body) | Parens(inner: Body)

  datatype Tree = Leaf(plan: Plan) | Branch(kind: SetOpKind, all: bool, left: Tree, right: Tree)

  function Width(t: Tree): nat {
    match t
    case Leaf(plan) => |plan.schema|
    case Branch(_, _, left, _) => Width(left)
  }

  /** The `SELECT`s of a body, as they are written. */
  function Selects(b: Body): (plans: seq<Plan>)
    ensures plans != []
  {
    match b
    case Select(plan) => [plan]
    case Parens(inner) => Selects(inner)
    case SetBody(_, _, left, right) => Selects(left) + Selects(right)
  }

  predicate OneWidthOf(plans: seq<Plan>, width: nat) {
    forall i :: 0 <= i < |plans| ==> |plans[i].schema| == width
  }

  /** `bind_tree`: parentheses give the shape and nothing else; `None` for two widths. */
  function BindTree(b: Body): Option<Tree> {
    match b
    case Select(plan) => Some(Leaf(plan))
    case Parens(inner) => BindTree(inner)
    case SetBody(kind, all, left, right) =>
      match (BindTree(left), BindTree(right))
      case (Some(l), Some(r)) => if Width(l) == Width(r) then Some(Branch(kind, all, l, r)) else None
      case _ => None
  }

  /** A body is bound exactly when its `SELECT`s have one width, whatever the operators and the
      parentheses among them. */
  lemma {:induction false} BindTreeExactly(b: Body)
    ensures BindTree(b).Some? <==> OneWidthOf(Selects(b), |Selects(b)[0].schema|)
    ensures BindTree(b).Some? ==> Width(BindTree(b).value) == |Selects(b)[0].schema|
  {
    match b
    case Select(_) =>
    case Parens(inner) => BindTreeExactly(inner);
    case SetBody(_, _, left, right) =>
      BindTreeExactly(left);
      BindTreeExactly(right);
      var l, r, width := Selects(left), Selects(right), |Selects(left)[0].schema|;
      WidthsOfBoth(l, r, width);
      if OneWidthOf(r, width) { assert |r[0].schema| == width; }
  }

  lemma WidthsOfBoth(l: seq<Plan>, r: seq<Plan>, width: nat)
    ensures OneWidthOf(l + r, width) <==> OneWidthOf(l, width) && OneWidthOf(r, width)
  {
    if OneWidthOf(l + r, width) {
      assert forall i :: 0 <= i < |l| ==> l[i] == (l + r)[i];
      assert forall i :: 0 <= i < |r| ==> r[i] == (l + r)[|l| + i];
    }
  }

  predicate Continues(t: Tree, kind: SetOpKind, all: bool) {
    t.Branch? && t.kind == Union && kind == Union && t.all == all
  }

  // ----- a run -----

  datatype Skeleton = Operand(position: nat) | Joined(kind: SetOpKind, all: bool, left: Skeleton, right: Skeleton)

  /** `split_run`: the operands of the run pushed left to right, its operators kept. */
  function SplitRun(t: Tree, kind: SetOpKind, all: bool, operands: seq<Tree>): (r: (Skeleton, seq<Tree>))
    ensures operands <= r.1
    ensures t.Branch? ==> forall i :: |operands| <= i < |r.1| ==> r.1[i] < t
    decreases t, 0
  {
    match t
    case Leaf(_) => (Operand(|operands|), operands + [t])
    case Branch(nodeKind, nodeAll, left, right) =>
      var (l, some) := SplitChild(left, kind, all, operands);
      var (r, more) := SplitChild(right, kind, all, some);
      (Joined(nodeKind, nodeAll, l, r), more)
  }

  function SplitChild(t: Tree, kind: SetOpKind, all: bool, operands: seq<Tree>): (r: (Skeleton, seq<Tree>))
    ensures operands <= r.1
    ensures forall i :: |operands| <= i < |r.1| ==> r.1[i] == t || r.1[i] < t
    decreases t, 1
  {
    if Continues(t, kind, all) then SplitRun(t, kind, all, operands) else (Operand(|operands|), operands + [t])
  }

  /** The operands of a run, as they are written. */
  function OperandsOf(t: Tree, kind: SetOpKind, all: bool): seq<Tree> {
    match t
    case Leaf(_) => [t]
    case Branch(_, _, left, right) =>
      (if Continues(left, kind, all) then OperandsOf(left, kind, all) else [left])
      + (if Continues(right, kind, all) then OperandsOf(right, kind, all) else [right])
  }

  /** The tree a skeleton stands for over its operands. */
  function Restore(s: Skeleton, operands: seq<Tree>): Option<Tree> {
    match s
    case Operand(p) => if p < |operands| then Some(operands[p]) else None
    case Joined(kind, all, left, right) =>
      match (Restore(left, operands), Restore(right, operands))
      case (Some(l), Some(r)) => Some(Branch(kind, all, l, r))
      case _ => None
  }

  /** The skeleton holds the positions from `lo` to `hi`, each once, left to right. */
  ghost predicate Spans(s: Skeleton, lo: nat, hi: nat) {
    match s
    case Operand(p) => p == lo && hi == lo + 1
    case Joined(_, _, left, right) => exists mid :: Spans(left, lo, mid) && Spans(right, mid, hi)
  }

  lemma {:induction false} RestoreMore(s: Skeleton, operands: seq<Tree>, more: seq<Tree>)
    requires operands <= more && Restore(s, operands).Some?
    ensures Restore(s, more) == Restore(s, operands)
  {
    if s.Joined? {
      RestoreMore(s.left, operands, more);
      RestoreMore(s.right, operands, more);
    }
  }

  /** Splitting a run loses nothing: the operands are listed as written, each at one place, and
      the skeleton over them is the tree. */
  lemma {:induction false} SplitRunKeeps(t: Tree, kind: SetOpKind, all: bool, operands: seq<Tree>)
    ensures var (s, out) := SplitRun(t, kind, all, operands);
            out == operands + OperandsOf(t, kind, all) && Restore(s, out) == Some(t) && Spans(s, |operands|, |out|)
    decreases t, 0
  {
    if t.Branch? {
      var (l, some) := SplitChild(t.left, kind, all, operands);
      var (r, more) := SplitChild(t.right, kind, all, some);
      SplitChildKeeps(t.left, kind, all, operands);
      SplitChildKeeps(t.right, kind, all, some);
      RestoreMore(l, some, more);
      assert Spans(l, |operands|, |some|) && Spans(r, |some|, |more|);
      var first := if Continues(t.left, kind, all) then OperandsOf(t.left, kind, all) else [t.left];
      var second := if Continues(t.right, kind, all) then OperandsOf(t.right, kind, all) else [t.right];
      ConcatAssociates(operands, first, second);
    }
  }

  lemma {:induction false} SplitChildKeeps(t: Tree, kind: SetOpKind, all: bool, operands: seq<Tree>)
    ensures var (s, out) := SplitChild(t, kind, all, operands);
            out == operands + (if Continues(t, kind, all) then OperandsOf(t, kind, all) else [t])
            && Restore(s, out) == Some(t) && Spans(s, |operands|, |out|)
    decreases t, 1
  {
    if Continues(t, kind, all) { SplitRunKeeps(t, kind, all, operands); }
  }

  /** The operators of a run are one operator; an `EXCEPT` or an `INTERSECT` is alone in its run. */
  predicate OneOperator(s: Skeleton, kind: SetOpKind, all: bool) {
    s.Operand?
    || (s.kind == kind && s.all == all && OneOperator(s.left, kind, all) && OneOperator(s.right, kind, all)
        && (kind != Union ==> s.left.Operand? && s.right.Operand?))
  }

  lemma {:induction false} SplitRunIsOne(t: Tree, kind: SetOpKind, all: bool, operands: seq<Tree>)
    requires t.Branch? ==> t.kind == kind && t.all == all
    ensures OneOperator(SplitRun(t, kind, all, operands).0, kind, all)
    decreases t, 0
  {
    if t.Branch? {
      SplitChildIsOne(t.left, kind, all, operands);
      SplitChildIsOne(t.right, kind, all, SplitChild(t.left, kind, all, operands).1);
    }
  }

  lemma {:induction false} SplitChildIsOne(t: Tree, kind: SetOpKind, all: bool, operands: seq<Tree>)
    ensures var s := SplitChild(t, kind, all, operands).0; OneOperator(s, kind, all) && (kind != Union ==> s.Operand?)
    decreases t, 1
  {
    if Continues(t, kind, all) { SplitRunIsOne(t, kind, all, operands); }
  }

  /** The operands of a run, as a walk over the tree pushes them. */
  class OperandList {
    var operands: seq<Tree>

    constructor ()
      ensures operands == []
    {
      operands := [];
    }

    /** `split_run`, left operand first. */
    method Split(t: Tree, kind: SetOpKind, all: bool) returns (s: Skeleton)
      modifies this
      ensures (s, operands) == SplitRun(t, kind, all, old(operands))
      decreases t, 0
    {
      if t.Leaf? {
        operands := operands + [t];
        s := Operand(|operands| - 1);
      } else {
        var left := SplitOperand(t.left, kind, all);
        var right := SplitOperand(t.right, kind, all);
        s := Joined(t.kind, t.all, left, right);
      }
    }

    /** `split_child`. */
    method SplitOperand(t: Tree, kind: SetOpKind, all: bool) returns (s: Skeleton)
      modifies this
      ensures (s, operands) == SplitChild(t, kind, all, old(operands))
      decreases t, 1
    {
      if Continues(t, kind, all) {
        s := Split(t, kind, all);
      } else {
        operands := operands + [t];
        s := Operand(|operands| - 1);
      }
    }
  }

  // ----- the views of the columns -----

  /** The projection a `SELECT` ends with. */
  function ProjectionOf(plan: Plan): seq<Expr> {
    if plan.op.Project? then plan.exprs
    else if (plan.op.Filter? || plan.op.Limit? || plan.op.Sort? || plan.op.Distinct?) && |plan.inputs| == 1 then
      ProjectionOf(plan.inputs[0])
    else []
  }

  /** The digits of an integer literal; a negated one of five counts six. */
  function LiteralDigits(e: Expr): Option<nat> {
    if FamilyOf(e.ty.ty) != Integer then None
    else if e.Literal? then if e.value.Integral? then Some(Digits(Abs(e.value.i))) else None
    else if e.Op? && e.op == Negate && |e.args| == 1 then
      match LiteralDigits(e.args[0])
      case None => None
      case Some(d) => Some(if e.args[0].Literal? && d == 5 then 6 else d)
    else None
  }

  function LeafViews(plan: Plan): (views: seq<ColumnView>)
    ensures |views| == |plan.schema|
    ensures forall c :: 0 <= c < |plan.schema| ==> views[c].ty == plan.schema[c].ty
  {
    var exprs := ProjectionOf(plan);
    seq(|plan.schema|, c requires 0 <= c < |plan.schema| =>
      if c < |exprs| then ColumnView(plan.schema[c].ty, IsNullLiteral(exprs[c]), LiteralDigits(exprs[c]))
      else ColumnView(plan.schema[c].ty, false, None))
  }

  /** An operand in its own types, with the views its run reads it through. */
  datatype TypedPlan = TypedPlan(plan: Plan, views: seq<ColumnView>)

  /** Each operand has the columns of the first. */
  predicate Rectangular(typed: seq<TypedPlan>) {
    forall i :: 0 <= i < |typed| ==> |typed[i].views| == |typed[0].views|
  }

  function ViewsAt(typed: seq<TypedPlan>, c: nat): (views: seq<ColumnView>)
    requires typed != [] && Rectangular(typed) && c < |typed[0].views|
    ensures |views| == |typed|
  {
    seq(|typed|, i requires 0 <= i < |typed| => typed[i].views[c])
  }

  /** The types of the columns of a run; `None` when two operands share none. */
  function RunColumns(typed: seq<TypedPlan>): (columns: Option<seq<TypeInfo>>)
    requires typed != [] && Rectangular(typed)
    ensures columns.Some? ==> |columns.value| == |typed[0].views|
  {
    var width := |typed[0].views|;
    if exists c :: 0 <= c < width && RunTypeOf(ViewsAt(typed, c)).None? then None
    else Some(seq(width, c requires 0 <= c < width => RunTypeOf(ViewsAt(typed, c)).value))
  }

  /** `run_views`: what the run is to the operator above it. */
  function RunViews(kind: SetOpKind, typed: seq<TypedPlan>, columns: seq<TypeInfo>): (views: seq<ColumnView>)
    requires typed != [] && Rectangular(typed) && |columns| == |typed[0].views|
    ensures |views| == |columns|
    ensures forall c :: 0 <= c < |columns| ==> views[c].ty == columns[c]
  {
    seq(|columns|, c requires 0 <= c < |columns| =>
      ColumnView(columns[c], forall i :: 0 <= i < |typed| ==> typed[i].views[c].bareNull,
                 if kind == Union then None else typed[0].views[c].digits))
  }

  // ----- conversions -----

  /** Whether a `SELECT` removes duplicates above its projection. */
  predicate Deduplicates(plan: Plan) {
    plan.op.Distinct?
    || ((plan.op.Filter? || plan.op.Limit? || plan.op.Sort?) && |plan.inputs| == 1 && Deduplicates(plan.inputs[0]))
  }

  function Retyped(schema: Schema, columns: seq<TypeInfo>): (s: Schema)
    requires |schema| == |columns|
    ensures |s| == |columns| && ColumnTypes(s) == columns
  {
    seq(|columns|, c requires 0 <= c < |columns| => OutputColumn(schema[c].name, columns[c]))
  }

  /** A projection above an operand that converts its columns. */
  function ProjectAbove(plan: Plan, columns: seq<TypeInfo>): Plan
    requires |plan.schema| == |columns|
  {
    ProjectOver(plan, seq(|columns|, c requires 0 <= c < |columns| => ConvertTo(ColumnOf(plan.schema, c), columns[c])),
                Retyped(plan.schema, columns))
  }

  /** A bare `NULL` takes the type; another expression is converted. */
  function ConvertExpr(e: Expr, target: TypeInfo): Expr {
    if IsNullLiteral(e) then Literal(Null, target) else ConvertTo(e, target)
  }

  function ConvertExprs(es: seq<Expr>, columns: seq<TypeInfo>): (r: seq<Expr>)
    requires |es| == |columns|
    ensures |r| == |es|
    ensures forall c :: 0 <= c < |es| ==> r[c] == ConvertExpr(es[c], columns[c])
  {
    seq(|es|, c requires 0 <= c < |es| => ConvertExpr(es[c], columns[c]))
  }

  /** `convert_projection`: the expressions of the projection a `SELECT` ends with, converted. */
  function ConvertProjection(plan: Plan, columns: seq<TypeInfo>): (r: Plan)
    requires Ends(plan) && |plan.schema| == |columns|
    ensures ColumnTypes(r.schema) == columns
  {
    if plan.op.Project? then ProjectOver(plan.inputs[0], ConvertExprs(plan.exprs, columns), Retyped(plan.schema, columns))
    else if plan.op.Filter? || plan.op.Limit? || plan.op.Sort? || plan.op.Distinct? then
      var input := ConvertProjection(plan.inputs[0], columns);
      Rel(plan.op, plan.exprs, [input], input.schema)
    else ProjectAbove(plan, columns)
  }

  /** What a bound `SELECT` ends with: a projection, under operators that keep its columns. */
  predicate Ends(plan: Plan) {
    if plan.op.Project? then
      |plan.inputs| == 1 && |plan.exprs| == |plan.schema| && Types(plan.exprs) == ColumnTypes(plan.schema)
    else if plan.op.Filter? || plan.op.Limit? || plan.op.Sort? || plan.op.Distinct? then
      |plan.inputs| == 1 && plan.schema == plan.inputs[0].schema && Ends(plan.inputs[0])
    else true
  }

  /** `convert_operand`: a run nested in another, and a `SELECT` that removes duplicates, are
      converted above; another `SELECT` in its projection. */
  function ConvertOperand(operand: TypedPlan, columns: seq<TypeInfo>): (r: Plan)
    requires Ends(operand.plan) && |operand.plan.schema| == |columns|
    ensures ColumnTypes(r.schema) == columns
  {
    if ColumnTypes(operand.plan.schema) == columns then operand.plan
    else if operand.plan.op.SetOp? || Deduplicates(operand.plan) then ProjectAbove(operand.plan, columns)
    else ConvertProjection(operand.plan, columns)
  }

  function ConvertOperands(typed: seq<TypedPlan>, columns: seq<TypeInfo>): (plans: seq<Plan>)
    requires forall i :: 0 <= i < |typed| ==> Ends(typed[i].plan) && |typed[i].plan.schema| == |columns|
    ensures |plans| == |typed|
    ensures forall i :: 0 <= i < |typed| ==> plans[i] == ConvertOperand(typed[i], columns)
  {
    seq(|typed|, i requires 0 <= i < |typed| => ConvertOperand(typed[i], columns))
  }

  // ----- putting the run back -----

  predicate Positions(s: Skeleton, n: nat) {
    match s
    case Operand(p) => p < n
    case Joined(_, _, left, right) => Positions(left, n) && Positions(right, n)
  }

  predicate Uniform(plans: seq<Plan>, columns: seq<TypeInfo>) {
    forall i :: 0 <= i < |plans| ==> ColumnTypes(plans[i].schema) == columns
  }

  /** The nodes of a run over its converted operands. */
  function Assembled(s: Skeleton, plans: seq<Plan>, columns: seq<TypeInfo>): (plan: Plan)
    requires Positions(s, |plans|) && Uniform(plans, columns)
    ensures ColumnTypes(plan.schema) == columns
  {
    match s
    case Operand(p) => plans[p]
    case Joined(kind, all, left, right) =>
      var l := Assembled(left, plans, columns);
      Rel(SetOp(kind, all), [], [l, Assembled(right, plans, columns)], Retyped(l.schema, columns))
  }

  lemma {:induction false} SpansPositions(s: Skeleton, lo: nat, hi: nat)
    requires Spans(s, lo, hi)
    ensures Positions(s, hi) && lo < hi
  {
    if s.Joined? {
      var mid :| Spans(s.left, lo, mid) && Spans(s.right, mid, hi);
      SpansPositions(s.left, lo, mid);
      SpansPositions(s.right, mid, hi);
      PositionsMore(s.left, mid, hi);
    }
  }

  lemma {:induction false} PositionsMore(s: Skeleton, n: nat, m: nat)
    requires Positions(s, n) && n <= m
    ensures Positions(s, m)
  {
    if s.Joined? {
      PositionsMore(s.left, n, m);
      PositionsMore(s.right, n, m);
    }
  }

  /** `assemble`: each operand is taken out of its place, and is there to be taken. */
  method Assemble(s: Skeleton, plans: array<Option<Plan>>, columns: seq<TypeInfo>, ghost lo: nat, ghost hi: nat, ghost all: seq<Plan>)
    returns (plan: Plan)
    requires Spans(s, lo, hi) && hi <= plans.Length == |all| && Uniform(all, columns) && Positions(s, |all|)
    requires forall i :: lo <= i < hi ==> plans[i] == Some(all[i])
    modifies plans
    ensures plan == Assembled(s, all, columns)
    ensures forall i :: lo <= i < hi ==> plans[i].None?
    ensures forall i :: 0 <= i < plans.Length && !(lo <= i < hi) ==> plans[i] == old(plans[i])
    decreases s
  {
    match s
    case Operand(p) =>
      plan := plans[p].value;
      plans[p] := None;
    case Joined(kind, every, left, right) =>
      ghost var mid :| Spans(left, lo, mid) && Spans(right, mid, hi);
      SpansPositions(left, lo, mid);
      SpansPositions(right, mid, hi);
      var l := Assemble(left, plans, columns, lo, mid, all);
      var r := Assemble(right, plans, columns, mid, hi, all);
      plan := Rel(SetOp(kind, every), [], [l, r], Retyped(l.schema, columns));
  }

  // ----- a whole tree -----

  /** `type_tree`; `None` when two operands of a run share no type. */
  function TypeTree(t: Tree): (r: Option<TypedPlan>)
    requires WellShaped(t)
    ensures r.Some? ==> Fitting(r.value, Width(t))
    decreases t, 1
  {
    match t
    case Leaf(plan) => Some(TypedPlan(plan, LeafViews(plan)))
    case Branch(kind, all, _, _) =>
      var (s, operands) := SplitRun(t, kind, all, []);
      RunIsShaped(t);
      match TypeAll(t, operands, Width(t))
      case None => None
      case Some(typed) =>
        match RunColumns(typed)
        case None => None
        case Some(columns) =>
          var plans := ConvertOperands(typed, columns);
          Some(TypedPlan(Assembled(s, plans, columns), RunViews(kind, typed, columns)))
  }

  /** A typed operand: its views are those of its columns, and it ends with its projection. */
  predicate Fitting(typed: TypedPlan, width: nat) {
    Ends(typed.plan) && |typed.views| == |typed.plan.schema| == width
    && forall c :: 0 <= c < width ==> typed.views[c].ty == typed.plan.schema[c].ty
  }

  function TypeAll(above: Tree, operands: seq<Tree>, width: nat): (r: Option<seq<TypedPlan>>)
    requires forall i :: 0 <= i < |operands| ==> operands[i] < above && WellShaped(operands[i]) && Width(operands[i]) == width
    ensures r.Some? ==> |r.value| == |operands| && Rectangular(r.value)
    ensures r.Some? ==> forall i :: 0 <= i < |operands| ==> TypeTree(operands[i]) == Some(r.value[i]) && Fitting(r.value[i], width)
    decreases above, 0
  {
    if exists i :: 0 <= i < |operands| && TypeTree(operands[i]).None? then None
    else Some(seq(|operands|, i requires 0 <= i < |operands| => TypeTree(operands[i]).value))
  }

  /** A tree of `SELECT`s, every operator over two operands of one width. */
  predicate WellShaped(t: Tree) {
    match t
    case Leaf(plan) => Ends(plan) && !plan.op.SetOp?
    case Branch(_, _, left, right) => WellShaped(left) && WellShaped(right) && Width(left) == Width(right)
  }

  /** Every `SELECT` is a projection. */
  predicate AllSelects(plans: seq<Plan>) {
    forall i :: 0 <= i < |plans| ==> Ends(plans[i]) && !plans[i].op.SetOp?
  }

  lemma {:induction false} BindTreeIsShaped(b: Body)
    requires AllSelects(Selects(b))
    ensures BindTree(b).Some? ==> WellShaped(BindTree(b).value)
  {
    match b
    case Select(plan) => assert Selects(b)[0] == plan;
    case Parens(inner) => BindTreeIsShaped(inner);
    case SetBody(_, _, left, right) =>
      assert forall i :: 0 <= i < |Selects(left)| ==> Selects(left)[i] == Selects(b)[i];
      assert forall i :: 0 <= i < |Selects(right)| ==> Selects(right)[i] == Selects(b)[|Selects(left)| + i];
      BindTreeIsShaped(left);
      BindTreeIsShaped(right);
  }

  /** `bind_set_op`; `None` when two operands differ in width, or share no type. */
  function BindSetOp(b: Body): (plan: Option<Plan>)
    requires AllSelects(Selects(b))
    ensures plan.Some? ==> OneWidthOf(Selects(b), |plan.value.schema|)
  {
    BindTreeIsShaped(b);
    BindTreeExactly(b);
    match BindTree(b)
    case None => None
    case Some(t) => match TypeTree(t) case None => None case Some(typed) => Some(typed.plan)
  }

  predicate AllShaped(operands: seq<Tree>, width: nat) {
    forall i :: 0 <= i < |operands| ==> WellShaped(operands[i]) && Width(operands[i]) == width
  }

  lemma RunIsShaped(t: Tree)
    requires WellShaped(t) && t.Branch?
    ensures var (s, operands) := SplitRun(t, t.kind, t.all, []);
            operands != [] && Positions(s, |operands|) && AllShaped(operands, Width(t))
  {
    var (s, operands) := SplitRun(t, t.kind, t.all, []);
    SplitRunKeeps(t, t.kind, t.all, []);
    SpansPositions(s, 0, |operands|);
    OperandsAreShaped(t, t.kind, t.all);
    assert operands == OperandsOf(t, t.kind, t.all);
  }

  lemma {:induction false} OperandsAreShaped(t: Tree, kind: SetOpKind, all: bool)
    requires WellShaped(t)
    ensures AllShaped(OperandsOf(t, kind, all), Width(t))
  {
    if t.Branch? {
      if Continues(t.left, kind, all) { OperandsAreShaped(t.left, kind, all); }
      if Continues(t.right, kind, all) { OperandsAreShaped(t.right, kind, all); }
      var first := if Continues(t.left, kind, all) then OperandsOf(t.left, kind, all) else [t.left];
      var second := if Continues(t.right, kind, all) then OperandsOf(t.right, kind, all) else [t.right];
      assert AllShaped(first, Width(t)) && AllShaped(second, Width(t));
      assert OperandsOf(t, kind, all) == first + second;
    }
  }
}
