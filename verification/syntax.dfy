/** A written expression, how it binds, and what it means in a grouped query.

    Binding an operator reads, of each bound operand, its type, its collation label and, when it
    reads no column, the whole of it; then it builds a tree around them: the conversions it
    inserts, the comparisons `BETWEEN` and a simple `CASE` become. That tree is a `Template`, and
    the rules that choose it are a parameter (`Rules`): the theorems hold for every such rule. */
module Syntax {
  import opened Options
  import opened SqlTypes
  import opened Bound
  import opened Evaluation
  import opened Relational
  import opened Evaluator

  /** The operator written; its operands are the children of the node. */
  datatype Form =
    | BinaryForm(symbol: string)
    | UnaryForm(symbol: string)
    | FunctionForm(name: string)
    | CaseForm(simple: bool, hasElse: bool)
    | CastForm(target: SqlType)
    | ConvertForm(target: SqlType)
    | IsNullForm(negated: bool)
    | InForm(negated: bool)
    | LikeForm(negated: bool)
    | BetweenForm(negated: bool)
    | CollateForm(collation: nat)
    | AssignForm(name: string)

  /** An expression as parsed. `Plus` is the unary `+`, which binding drops as it drops
      parentheses. A nested query is kept with its bound plan, whose expressions are one query
      deeper; `at` is the position an aggregate takes among those its query is handed. */
  datatype Syn =
    | Lit(value: Value, ty: TypeInfo)
    | Ref(name: Name)
    | Var(variable: string, ty: TypeInfo)
    | Nested(inner: Syn)
    | Plus(inner: Syn)
    | Node(form: Form, kids: seq<Syn>)
    | Call(head: CallHead, args: seq<Syn>, at: nat)
    | Query(kind: SubqueryKind, tested: seq<Syn>, plan: Plan, ty: TypeInfo)
    | Invalid

  /** What the rule of an operator reads of an operand. */
  datatype View = View(ty: TypeInfo, constant: Option<Expr>, mark: int)

  datatype Template = Hole(i: nat) | Build(op: Operator, args: seq<Template>, ty: TypeInfo)

  datatype Rules = Rules(
    template: (Form, seq<View>) -> Option<Template>,
    callType: (CallHead, seq<TypeInfo>) -> Option<TypeInfo>,
    columnLabel: TypeInfo -> int,
    leafLabel: TypeInfo -> int,
    opLabel: (Operator, TypeInfo, seq<int>) -> int,
    queryLabel: (Plan, TypeInfo) -> int)

  /** What a bare name reaches: the columns of the sources of the query and, at a depth, of
      the enclosing ones; while an extracted expression is bound, the slots too. */
  datatype Scope = Scope(names: map<string, ColumnBinding>, slots: seq<TypeInfo>)

  function Resolve(scope: Scope, name: Name): Option<ColumnBinding> {
    match name
    case Written(s) => if s in scope.names then Some(scope.names[s]) else None
    case SlotName(i) =>
      if i < |scope.slots| then Some(ColumnBinding(Slot, i, SlotName(i), scope.slots[i], 0)) else None
  }

  /** Whether `e` reads no column and holds no query. */
  predicate ColumnFree(e: Expr) {
    match e
    case ColumnRef(_, _) => false
    case Subquery(_, _, _, _) => false
    case Op(_, args, _) => forall i :: 0 <= i < |args| ==> ColumnFree(args[i])
    case _ => true
  }

  /** `collation_label`: that of a column by its type, that of an operator by those of its
      operands. */
  function LabelOf(rules: Rules, e: Expr): int
    decreases e, 0
  {
    match e
    case Literal(_, ty) => rules.leafLabel(ty)
    case Variable(_, ty) => rules.leafLabel(ty)
    case ColumnRef(_, ty) => rules.columnLabel(ty)
    case Op(op, args, ty) => rules.opLabel(op, ty, LabelsOf(rules, args))
    case Subquery(_, _, plan, ty) => rules.queryLabel(plan, ty)
  }

  function LabelsOf(rules: Rules, es: seq<Expr>): (ls: seq<int>)
    decreases es, 0
    ensures |ls| == |es|
    ensures forall i :: 0 <= i < |es| ==> ls[i] == LabelOf(rules, es[i])
  {
    seq(|es|, i requires 0 <= i < |es| => LabelOf(rules, es[i]))
  }

  function ViewOf(rules: Rules, e: Expr): View {
    View(e.ty, if ColumnFree(e) then Some(e) else None, LabelOf(rules, e))
  }

  /** The view of a column, whichever it is. */
  function ViewOfColumn(rules: Rules, ty: TypeInfo): View {
    View(ty, None, rules.columnLabel(ty))
  }

  // ----- templates -----

  predicate TemplateOk(t: Template, n: nat) {
    match t
    case Hole(i) => i < n
    case Build(_, args, _) => forall i :: 0 <= i < |args| ==> TemplateOk(args[i], n)
  }

  /** Whether hole `i` is filled somewhere in the template. */
  predicate Mentions(t: Template, i: nat) {
    match t
    case Hole(j) => i == j
    case Build(_, args, _) => exists k :: 0 <= k < |args| && Mentions(args[k], i)
  }

  function Fill(t: Template, kids: seq<Expr>): (e: Expr)
    requires TemplateOk(t, |kids|)
    decreases t, 0
  {
    match t
    case Hole(i) => kids[i]
    case Build(op, args, ty) => Op(op, FillAll(args, kids), ty)
  }

  function FillAll(ts: seq<Template>, kids: seq<Expr>): (es: seq<Expr>)
    requires forall i :: 0 <= i < |ts| ==> TemplateOk(ts[i], |kids|)
    decreases ts, 0
    ensures |es| == |ts|
    ensures forall i :: 0 <= i < |ts| ==> es[i] == Fill(ts[i], kids)
  {
    seq(|ts|, i requires 0 <= i < |ts| => Fill(ts[i], kids))
  }

  function TypeOfTemplate(t: Template, tys: seq<TypeInfo>): TypeInfo
    requires TemplateOk(t, |tys|)
  {
    match t
    case Hole(i) => tys[i]
    case Build(_, _, ty) => ty
  }

  /** The outcome of a template over the outcomes of what fills it. */
  function EvalTemplate(sem: Sem, t: Template, tys: seq<TypeInfo>, outs: seq<Outcome>): Outcome
    requires |tys| == |outs| && TemplateOk(t, |tys|)
    decreases t, 0
  {
    match t
    case Hole(i) => outs[i]
    case Build(op, args, ty) =>
      Apply(sem, op, ty, seq(|args|, i requires 0 <= i < |args| => TypeOfTemplate(args[i], tys)),
            EvalTemplates(sem, args, tys, outs))
  }

  function EvalTemplates(sem: Sem, ts: seq<Template>, tys: seq<TypeInfo>, outs: seq<Outcome>): (rs: seq<Outcome>)
    requires |tys| == |outs| && forall i :: 0 <= i < |ts| ==> TemplateOk(ts[i], |tys|)
    decreases ts, 0
    ensures |rs| == |ts|
    ensures forall i :: 0 <= i < |ts| ==> rs[i] == EvalTemplate(sem, ts[i], tys, outs)
  {
    seq(|ts|, i requires 0 <= i < |ts| => EvalTemplate(sem, ts[i], tys, outs))
  }

  lemma {:induction false} FillEval(sem: Sem, t: Template, kids: seq<Expr>, env: Env)
    requires TemplateOk(t, |kids|)
    ensures Fill(t, kids).ty == TypeOfTemplate(t, Types(kids))
    ensures Eval(sem, Fill(t, kids), env) == EvalTemplate(sem, t, Types(kids), EvalAll(sem, kids, env))
  {
    match t
    case Hole(_) =>
    case Build(op, args, ty) =>
      forall i | 0 <= i < |args|
        ensures Fill(args[i], kids).ty == TypeOfTemplate(args[i], Types(kids))
        ensures Eval(sem, Fill(args[i], kids), env) == EvalTemplate(sem, args[i], Types(kids), EvalAll(sem, kids, env))
      {
        FillEval(sem, args[i], kids, env);
      }
      var filled := FillAll(args, kids);
      assert Types(filled) == seq(|args|, i requires 0 <= i < |args| => TypeOfTemplate(args[i], Types(kids)));
      assert EvalAll(sem, filled, env) == EvalTemplates(sem, args, Types(kids), EvalAll(sem, kids, env));
  }

  /** The label of what a template builds. */
  function LabelOfTemplate(rules: Rules, t: Template, labels: seq<int>): int
    requires TemplateOk(t, |labels|)
    decreases t, 0
  {
    match t
    case Hole(i) => labels[i]
    case Build(op, args, ty) => rules.opLabel(op, ty, LabelsOfTemplates(rules, args, labels))
  }

  function LabelsOfTemplates(rules: Rules, ts: seq<Template>, labels: seq<int>): (ls: seq<int>)
    requires forall i :: 0 <= i < |ts| ==> TemplateOk(ts[i], |labels|)
    decreases ts, 0
    ensures |ls| == |ts|
    ensures forall i :: 0 <= i < |ts| ==> ls[i] == LabelOfTemplate(rules, ts[i], labels)
  {
    seq(|ts|, i requires 0 <= i < |ts| => LabelOfTemplate(rules, ts[i], labels))
  }

  lemma {:induction false} FillLabel(rules: Rules, t: Template, kids: seq<Expr>)
    requires TemplateOk(t, |kids|)
    ensures LabelOf(rules, Fill(t, kids)) == LabelOfTemplate(rules, t, LabelsOf(rules, kids))
  {
    if t.Build? {
      forall i | 0 <= i < |t.args|
        ensures LabelOf(rules, Fill(t.args[i], kids)) == LabelOfTemplate(rules, t.args[i], LabelsOf(rules, kids))
      {
        FillLabel(rules, t.args[i], kids);
      }
      assert LabelsOf(rules, FillAll(t.args, kids)) == LabelsOfTemplates(rules, t.args, LabelsOf(rules, kids));
    }
  }

  lemma {:induction false} FillColumnFree(t: Template, kids: seq<Expr>)
    requires TemplateOk(t, |kids|)
    ensures ColumnFree(Fill(t, kids)) <==> forall i :: 0 <= i < |kids| && Mentions(t, i) ==> ColumnFree(kids[i])
  {
    if t.Build? {
      forall k | 0 <= k < |t.args|
        ensures ColumnFree(Fill(t.args[k], kids)) <==> forall i :: 0 <= i < |kids| && Mentions(t.args[k], i) ==> ColumnFree(kids[i])
      {
        FillColumnFree(t.args[k], kids);
      }
    }
  }

  // ----- what an expression holds -----

  /** The operands of an expression in written order, a nested query not walked into. */
  function Kids(e: Syn): (kids: seq<Syn>)
    ensures forall i :: 0 <= i < |kids| ==> kids[i] < e
  {
    match e
    case Nested(inner) => [inner]
    case Plus(inner) => [inner]
    case Node(_, kids) => kids
    case Call(_, args, _) => args
    case Query(_, tested, _, _) => tested
    case _ => []
  }

  /** Whether an aggregate call is written in `e`, a nested query not walked into. */
  predicate HoldsCall(e: Syn) {
    match e
    case Call(_, _, _) => true
    case Nested(inner) => HoldsCall(inner)
    case Plus(inner) => HoldsCall(inner)
    case Node(_, kids) => exists i :: 0 <= i < |kids| && HoldsCall(kids[i])
    case Query(_, tested, _, _) => exists i :: 0 <= i < |tested| && HoldsCall(tested[i])
    case _ => false
  }

  predicate HoldsQuery(e: Syn) {
    match e
    case Query(_, _, _, _) => true
    case Nested(inner) => HoldsQuery(inner)
    case Plus(inner) => HoldsQuery(inner)
    case Node(_, kids) => exists i :: 0 <= i < |kids| && HoldsQuery(kids[i])
    case Call(_, args, _) => exists i :: 0 <= i < |args| && HoldsQuery(args[i])
    case _ => false
  }

  /** The depth of each column reference of a bound expression, a plan not walked into. */
  function Depths(e: Expr): seq<nat>
    decreases e, 0
  {
    match e
    case ColumnRef(c, _) => [c.depth]
    case Op(_, args, _) => DepthsAll(args)
    case Subquery(_, tested, _, _) => DepthsAll(tested)
    case _ => []
  }

  function DepthsAll(es: seq<Expr>): seq<nat>
    decreases es, 0
  {
    if es == [] then [] else Depths(es[0]) + DepthsAll(es[1..])
  }

  // ----- binding -----

  /** The query an aggregate belongs to, in queries up from the one that writes it. */
  datatype Level = Own | OuterBy(n: nat) | Mixed

  function LevelOf(depths: seq<nat>): Level {
    if forall i :: 0 <= i < |depths| ==> depths[i] == 0 then Own
    else if forall i :: 0 <= i < |depths| ==> depths[i] == depths[0] then OuterBy(depths[0])
    else Mixed
  }

  /** `outer_level` of a call. */
  function CallLevel(rules: Rules, scope: Scope, e: Syn): Level
    requires e.Call?
    decreases e, 0
  {
    if e.head.star || (exists i :: 0 <= i < |e.args| && (HoldsCall(e.args[i]) || HoldsQuery(e.args[i]))) then Own
    else
      match BindAll(rules, scope, e.args)
      case None => Own
      case Some(args) => LevelOf(DepthsAll(args))
  }

  function Bind(rules: Rules, scope: Scope, e: Syn): Option<Expr>
    decreases e, 2
  {
    match e
    case Lit(v, ty) => Some(Literal(v, ty))
    case Ref(name) =>
      (match Resolve(scope, name)
       case None => None
       case Some(c) => Some(ColumnRef(c, c.ty)))
    case Var(name, ty) => Some(Variable(name, ty))
    case Nested(inner) => Bind(rules, scope, inner)
    case Plus(inner) => Bind(rules, scope, inner)
    case Node(form, kids) =>
      (match BindAll(rules, scope, kids)
       case None => None
       case Some(bound) => BuildNode(rules, form, bound))
    case Call(_, _, _) =>
      if CallLevel(rules, scope, e).OuterBy? then
        match BindCall(rules, scope, e)
        case None => None
        case Some((_, ty)) => Some(ColumnRef(HandedColumn(e.at, ty, CallLevel(rules, scope, e).n), ty))
      else None
    case Query(kind, tested, plan, ty) =>
      (match BindAll(rules, scope, tested)
       case None => None
       case Some(bound) => Some(Subquery(kind, bound, plan, ty)))
    case Invalid => None
  }

  function BindAll(rules: Rules, scope: Scope, es: seq<Syn>): (r: Option<seq<Expr>>)
    decreases es, 0
    ensures r.Some? <==> forall i :: 0 <= i < |es| ==> Bind(rules, scope, es[i]).Some?
    ensures r.Some? ==> |r.value| == |es|
    ensures r.Some? ==> forall i :: 0 <= i < |es| ==> Bind(rules, scope, es[i]) == Some(r.value[i])
  {
    if forall i :: 0 <= i < |es| ==> Bind(rules, scope, es[i]).Some? then
      Some(seq(|es|, i requires 0 <= i < |es| => Bind(rules, scope, es[i]).value))
    else None
  }

  /** The column a nested query binds an aggregate of an enclosing query to. */
  function HandedColumn(at: nat, ty: TypeInfo, level: nat): ColumnBinding {
    ColumnBinding(Handed, at, Written(""), ty, level)
  }

  function ViewsOf(rules: Rules, es: seq<Expr>): (vs: seq<View>)
    ensures |vs| == |es|
    ensures forall i :: 0 <= i < |es| ==> vs[i] == ViewOf(rules, es[i])
  {
    seq(|es|, i requires 0 <= i < |es| => ViewOf(rules, es[i]))
  }

  /** The template of a node: a node builds something of its own around all its operands. */
  function NodeTemplate(rules: Rules, form: Form, views: seq<View>): (t: Option<Template>)
    ensures t.Some? ==> t.value.Build? && TemplateOk(t.value, |views|)
    ensures t.Some? ==> forall i :: 0 <= i < |views| ==> Mentions(t.value, i)
  {
    match rules.template(form, views)
    case None => None
    case Some(t) =>
      if t.Build? && TemplateOk(t, |views|) && (forall i :: 0 <= i < |views| ==> Mentions(t, i)) then Some(t)
      else None
  }

  function ViewLabels(views: seq<View>): (ls: seq<int>)
    ensures |ls| == |views|
    ensures forall i :: 0 <= i < |views| ==> ls[i] == views[i].mark
  {
    seq(|views|, i requires 0 <= i < |views| => views[i].mark)
  }

  predicate AllConstant(views: seq<View>) {
    forall i :: 0 <= i < |views| ==> views[i].constant.Some?
  }

  function Constants(views: seq<View>): (es: seq<Expr>)
    requires AllConstant(views)
    ensures |es| == |views|
    ensures forall i :: 0 <= i < |views| ==> es[i] == views[i].constant.value
  {
    seq(|views|, i requires 0 <= i < |views| => views[i].constant.value)
  }

  /** The view of a node, of the views of its operands. */
  function NodeView(rules: Rules, t: Template, views: seq<View>): View
    requires t.Build? && TemplateOk(t, |views|)
  {
    View(t.ty, if AllConstant(views) then Some(Fill(t, Constants(views))) else None, LabelOfTemplate(rules, t, ViewLabels(views)))
  }

  lemma NodeViewIs(rules: Rules, t: Template, kids: seq<Expr>)
    requires t.Build? && TemplateOk(t, |kids|) && forall i :: 0 <= i < |kids| ==> Mentions(t, i)
    ensures NodeView(rules, t, ViewsOf(rules, kids)) == ViewOf(rules, Fill(t, kids))
  {
    var views := ViewsOf(rules, kids);
    FillLabel(rules, t, kids);
    assert ViewLabels(views) == LabelsOf(rules, kids);
    FillColumnFree(t, kids);
    if AllConstant(views) {
      assert Constants(views) == kids;
    } else {
      var i :| 0 <= i < |views| && views[i].constant.None?;
      assert Mentions(t, i) && !ColumnFree(kids[i]);
    }
  }

  function BuildNode(rules: Rules, form: Form, kids: seq<Expr>): Option<Expr> {
    match NodeTemplate(rules, form, ViewsOf(rules, kids))
    case None => None
    case Some(t) => Some(Fill(t, kids))
  }

  /** An aggregate call; one written with a star carries the literal `NULL` in the place of an
      argument. */
  datatype AggCall = AggCall(head: CallHead, arg: Expr)

  const STAR_ARGUMENT := Literal(Null, TypeInfo(Int, true, None))

  /** `bind_aggregate_call`: the call and the type of its result. */
  function BindCall(rules: Rules, scope: Scope, e: Syn): Option<(AggCall, TypeInfo)>
    requires e.Call?
    decreases e, 1
  {
    if e.head.star then
      match rules.callType(e.head, [])
      case None => None
      case Some(ty) => Some((AggCall(e.head, STAR_ARGUMENT), ty))
    else if |e.args| != 1 then None
    else
      match BindAll(rules, scope, e.args)
      case None => None
      case Some(args) =>
        match rules.callType(e.head, [args[0].ty])
        case None => None
        case Some(ty) => Some((AggCall(e.head, args[0]), ty))
  }

  // ----- what an expression of a grouped query means -----

  /** The view a written expression enters its parent with, an aggregate of the query itself
      included; `None` when it does not bind. */
  function ViewSyn(rules: Rules, scope: Scope, e: Syn): Option<View>
    decreases e, 0
  {
    match e
    case Lit(v, ty) => Some(ViewOf(rules, Literal(v, ty)))
    case Ref(name) =>
      (match Resolve(scope, name)
       case None => None
       case Some(c) => Some(ViewOfColumn(rules, c.ty)))
    case Var(name, ty) => Some(ViewOf(rules, Variable(name, ty)))
    case Nested(inner) => ViewSyn(rules, scope, inner)
    case Plus(inner) => ViewSyn(rules, scope, inner)
    case Node(form, kids) =>
      (match ViewSyns(rules, scope, kids)
       case None => None
       case Some(views) =>
         match NodeTemplate(rules, form, views)
         case None => None
         case Some(t) => Some(NodeView(rules, t, views)))
    case Call(_, _, _) =>
      if CallLevel(rules, scope, e).Mixed? then None
      else
        (match BindCall(rules, scope, e)
         case None => None
         case Some((_, ty)) => Some(ViewOfColumn(rules, ty)))
    case Query(_, tested, plan, ty) =>
      if ViewSyns(rules, scope, tested).Some? then Some(View(ty, None, rules.queryLabel(plan, ty))) else None
    case Invalid => None
  }

  function ViewSyns(rules: Rules, scope: Scope, es: seq<Syn>): (r: Option<seq<View>>)
    decreases es, 0
    ensures r.Some? <==> forall i :: 0 <= i < |es| ==> ViewSyn(rules, scope, es[i]).Some?
    ensures r.Some? ==> |r.value| == |es|
    ensures r.Some? ==> forall i :: 0 <= i < |es| ==> ViewSyn(rules, scope, es[i]) == Some(r.value[i])
  {
    if forall i :: 0 <= i < |es| ==> ViewSyn(rules, scope, es[i]).Some? then
      Some(seq(|es|, i requires 0 <= i < |es| => ViewSyn(rules, scope, es[i]).value))
    else None
  }

  function ViewTypes(views: seq<View>): (ts: seq<TypeInfo>)
    ensures |ts| == |views|
    ensures forall i :: 0 <= i < |views| ==> ts[i] == views[i].ty
  {
    seq(|views|, i requires 0 <= i < |views| => views[i].ty)
  }

  /** The value of a call over the rows of a group. */
  function CallValue(sem: Sem, call: AggCall, group: seq<Row>, outer: Env): Outcome {
    ApplyCall(sem, call.head, ArgumentOver(sem, call.arg, group, outer))
  }

  function ArgumentOver(sem: Sem, arg: Expr, group: seq<Row>, outer: Env): (outs: seq<Outcome>)
    ensures |outs| == |group|
    ensures forall i :: 0 <= i < |group| ==> outs[i] == Eval(sem, arg, [Plain(group[i])] + outer)
  {
    seq(|group|, i requires 0 <= i < |group| => Eval(sem, arg, [Plain(group[i])] + outer))
  }

  /** The meaning of a written expression over a group: its own aggregates over the rows of the
      group, its columns in `env`, whose first frame is the row of the query. */
  function Meaning(sem: Sem, rules: Rules, scope: Scope, e: Syn, group: seq<Row>, env: Env): Outcome
    requires |env| > 0
    decreases e, 0
  {
    match e
    case Lit(v, _) => Val(v)
    case Ref(name) =>
      (match Resolve(scope, name)
       case None => Error
       case Some(c) => Lookup(env, c))
    case Var(name, _) => Val(sem.variable(Lower(name)))
    case Nested(inner) => Meaning(sem, rules, scope, inner, group, env)
    case Plus(inner) => Meaning(sem, rules, scope, inner, group, env)
    case Node(form, kids) =>
      (match ViewSyns(rules, scope, kids)
       case None => Error
       case Some(views) =>
         match NodeTemplate(rules, form, views)
         case None => Error
         case Some(t) => EvalTemplate(sem, t, ViewTypes(views), Meanings(sem, rules, scope, kids, group, env)))
    case Call(_, _, _) =>
      (match BindCall(rules, scope, e)
       case None => Error
       case Some((call, ty)) =>
         match CallLevel(rules, scope, e)
         case Mixed => Error
         case Own => CallValue(sem, call, group, env[1..])
         case OuterBy(n) => Lookup(env, HandedColumn(e.at, ty, n)))
    case Query(kind, tested, plan, _) =>
      (match ViewSyns(rules, scope, tested)
       case None => Error
       case Some(views) =>
         ApplySubquery(sem, kind, ViewTypes(views), Meanings(sem, rules, scope, tested, group, env),
                       EvalStream(sem, plan, env)))
    case Invalid => Error
  }

  function Meanings(sem: Sem, rules: Rules, scope: Scope, es: seq<Syn>, group: seq<Row>, env: Env): (outs: seq<Outcome>)
    requires |env| > 0
    decreases es, 0
    ensures |outs| == |es|
    ensures forall i :: 0 <= i < |es| ==> outs[i] == Meaning(sem, rules, scope, es[i], group, env)
  {
    seq(|es|, i requires 0 <= i < |es| => Meaning(sem, rules, scope, es[i], group, env))
  }
}
