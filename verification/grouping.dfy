/** `GROUP BY`: the keys and the aggregates of a query, the extraction of an expression above
    them, and the resolution of what its nested queries read of the query. */
module Grouping {
  import opened Options
  import opened SqlTypes
  import opened Bound
  import opened Evaluator
  import opened Syntax

  // ----- when two bound expressions are the same -----

  /** Node for node: same type, same operator, literal, variable or column by position. The
      depth of a column is not compared, and a subquery is the same as nothing. */
  predicate SameExpression(a: Expr, b: Expr)
    decreases a, 0
  {
    a.ty == b.ty
    && match (a, b)
       case (Literal(x, _), Literal(y, _)) => x == y
       case (ColumnRef(x, _), ColumnRef(y, _)) => x.index == y.index && x.column == y.column
       case (Variable(x, _), Variable(y, _)) => EqIgnoreCase(x, y)
       case (Op(x, xs, _), Op(y, ys, _)) => x == y && SameList(xs, ys)
       case _ => false
  }

  predicate SameList(xs: seq<Expr>, ys: seq<Expr>)
    decreases xs, 0
  {
    |xs| == |ys| && forall i :: 0 <= i < |xs| ==> SameExpression(xs[i], ys[i])
  }

  predicate SameCall(a: AggCall, b: AggCall) {
    a.head == b.head && (a.head.star || SameExpression(a.arg, b.arg))
  }

  // ----- the keys and the aggregates extracted so far -----

  datatype Grouping = Grouping(keys: seq<Expr>, calls: seq<AggCall>, callTypes: seq<TypeInfo>)

  /** The types of the columns the `Aggregate` publishes: the keys, then the aggregates. */
  function SlotTypes(g: Grouping): seq<TypeInfo> {
    Types(g.keys) + g.callTypes
  }

  /** The position of the first key `e` is the same as. */
  function KeyIndex(keys: seq<Expr>, e: Expr): (r: Option<nat>)
    ensures r.Some? ==> r.value < |keys| && SameExpression(keys[r.value], e)
    ensures r.None? ==> forall i :: 0 <= i < |keys| ==> !SameExpression(keys[i], e)
  {
    if keys == [] then None
    else if SameExpression(keys[0], e) then Some(0)
    else
      match KeyIndex(keys[1..], e)
      case None => None
      case Some(i) => Some(i + 1)
  }

  function CallIndex(calls: seq<AggCall>, call: AggCall): (i: nat)
    ensures i <= |calls|
    ensures i < |calls| ==> SameCall(calls[i], call)
    ensures forall j :: 0 <= j < i ==> !SameCall(calls[j], call)
  {
    if calls == [] || SameCall(calls[0], call) then 0 else 1 + CallIndex(calls[1..], call)
  }

  /** `aggregate_index`: the grouping that computes `call`, appended when it is new. */
  function WithCall(g: Grouping, call: AggCall, ty: TypeInfo): Grouping {
    if CallIndex(g.calls, call) < |g.calls| then g
    else g.(calls := g.calls + [call], callTypes := g.callTypes + [ty])
  }

  // ----- extraction -----

  /** Why an expression is refused: the column that is neither a key nor aggregated, an
      aggregate under an aggregate, an aggregate that mixes query levels, or one that does not
      bind. */
  datatype Refusal = Outside(col: ColumnBinding) | NestedAggregate | MixedLevels | Unbound

  datatype Extracted<T> = Refused(why: Refusal) | Done(value: T, grouping: Grouping)

  function SlotRef(i: nat): Syn {
    Ref(SlotName(i))
  }

  /** Each aggregate call and each key of `e` replaced by a reference to its column of the
      `Aggregate`, top down, and a column that is neither refused. */
  function Rewrite(rules: Rules, scope: Scope, e: Syn, g: Grouping): Extracted<Syn>
    decreases e, 1
  {
    match e
    case Nested(inner) =>
      (match Rewrite(rules, scope, inner, g)
       case Refused(why) => Refused(why)
       case Done(r, g') => Done(Nested(r), g'))
    case Call(_, args, _) =>
      if exists i :: 0 <= i < |args| && HoldsCall(args[i]) then Refused(NestedAggregate)
      else
        (match CallLevel(rules, scope, e)
         case Mixed => Refused(MixedLevels)
         case OuterBy(_) => Done(e, g)
         case Own =>
           match BindCall(rules, scope, e)
           case None => Refused(Unbound)
           case Some((call, ty)) => Done(SlotRef(|g.keys| + CallIndex(g.calls, call)), WithCall(g, call, ty)))
    case Lit(_, _) => Done(e, g)
    case Var(_, _) => Done(e, g)
    case _ =>
      if HoldsCall(e) || HoldsQuery(e) then RewriteChildren(rules, scope, e, g)
      else
        match Bind(rules, scope, e)
        case None => Refused(Unbound)
        case Some(bound) =>
          match KeyIndex(g.keys, bound)
          case Some(i) => Done(SlotRef(i), g)
          case None =>
            if bound.ColumnRef? then
              if bound.col.depth > 0 then Done(e, g) else Refused(Outside(bound.col))
            else RewriteChildren(rules, scope, e, g)
  }

  function RewriteChildren(rules: Rules, scope: Scope, e: Syn, g: Grouping): Extracted<Syn>
    decreases e, 0
  {
    match e
    case Plus(inner) =>
      (match Rewrite(rules, scope, inner, g)
       case Refused(why) => Refused(why)
       case Done(r, g') => Done(Plus(r), g'))
    case Node(form, kids) =>
      (match RewriteAll(rules, scope, kids, g)
       case Refused(why) => Refused(why)
       case Done(rs, g') => Done(Node(form, rs), g'))
    case Query(kind, tested, plan, ty) =>
      (match RewriteAll(rules, scope, tested, g)
       case Refused(why) => Refused(why)
       case Done(rs, g') => Done(Query(kind, rs, plan, ty), g'))
    case _ => Done(e, g)
  }

  function RewriteAll(rules: Rules, scope: Scope, es: seq<Syn>, g: Grouping): (r: Extracted<seq<Syn>>)
    decreases es, 0
    ensures r.Done? ==> |r.value| == |es|
  {
    if es == [] then Done([], g)
    else
      match Rewrite(rules, scope, es[0], g)
      case Refused(why) => Refused(why)
      case Done(head, g1) =>
        match RewriteAll(rules, scope, es[1..], g1)
        case Refused(why) => Refused(why)
        case Done(tail, g2) => Done([head] + tail, g2)
  }

  /** The scope an extracted expression binds against: the slots beside the `FROM`. */
  function SlotScope(scope: Scope, g: Grouping): Scope {
    scope.(slots := SlotTypes(g))
  }

  // ----- what nested queries read of the query -----

  /** The aggregates nested queries handed over, bound in the scope of this query, and the slot
      each became once one of its references was resolved. */
  datatype Resolution = Resolution(handed: seq<Option<(AggCall, TypeInfo)>>, slots: seq<Option<nat>>)

  datatype Resolved<T> = Failed(why: Refusal) | Ok(value: T, grouping: Grouping, resolution: Resolution)

  /** The column of the `Aggregate` a reference on this query stands for. */
  function ResolveColumn(c: ColumnBinding, g: Grouping, r: Resolution): Resolved<nat> {
    match c.column
    case Handed =>
      if c.index < |r.slots| && r.slots[c.index].Some? then Ok(r.slots[c.index].value, g, r)
      else if c.index >= |r.handed| || r.handed[c.index].None? then Failed(Unbound)
      else
        var (call, ty) := r.handed[c.index].value;
        var slot := |g.keys| + CallIndex(g.calls, call);
        Ok(slot, WithCall(g, call, ty),
           if c.index < |r.slots| then r.(slots := r.slots[c.index := Some(slot)]) else r)
    case Slot => Ok(c.index, g, r)
    case Table(_) =>
      match KeyIndex(g.keys, ColumnRef(c.(depth := 0), c.ty))
      case Some(i) => Ok(i, g, r)
      case None => Failed(Outside(c.(depth := 0)))
  }

  /** The reference written in the place of one on this query. */
  function SlotBinding(slot: nat, ty: TypeInfo, nesting: nat): ColumnBinding {
    ColumnBinding(Slot, slot, SlotName(slot), ty, nesting)
  }

  /** The type a resolved reference carries: that of the slot of a handed aggregate, the one it
      had otherwise. */
  function ResolvedType(c: ColumnBinding, slot: nat, g: Grouping): TypeInfo {
    if c.column.Handed? && slot < |SlotTypes(g)| then SlotTypes(g)[slot] else c.ty
  }

  /** Each column of `e` and of the plans under it that reads this query, `nesting` queries up,
      made a column of the `Aggregate`, or refused. */
  function ResolveExpr(e: Expr, nesting: nat, g: Grouping, r: Resolution): Resolved<Expr>
    decreases e, 0
  {
    match e
    case Literal(_, _) => Ok(e, g, r)
    case Variable(_, _) => Ok(e, g, r)
    case ColumnRef(c, ty) =>
      if c.depth != nesting then Ok(e, g, r)
      else
        (match ResolveColumn(c, g, r)
         case Failed(why) => Failed(why)
         case Ok(slot, g', r') => Ok(ColumnRef(SlotBinding(slot, ResolvedType(c, slot, g'), nesting), ty), g', r'))
    case Op(op, args, ty) =>
      (match ResolveAll(args, nesting, g, r)
       case Failed(why) => Failed(why)
       case Ok(as', g', r') => Ok(Op(op, as', ty), g', r'))
    case Subquery(kind, tested, plan, ty) =>
      (match ResolvePlan(plan, nesting + 1, g, r)
       case Failed(why) => Failed(why)
       case Ok(p', g1, r1) =>
         match ResolveAll(tested, nesting, g1, r1)
         case Failed(why) => Failed(why)
         case Ok(ts', g2, r2) => Ok(Subquery(kind, ts', p', ty), g2, r2))
  }

  function ResolveAll(es: seq<Expr>, nesting: nat, g: Grouping, r: Resolution): (o: Resolved<seq<Expr>>)
    decreases es, 0
    ensures o.Ok? ==> |o.value| == |es|
  {
    if es == [] then Ok([], g, r)
    else
      match ResolveExpr(es[0], nesting, g, r)
      case Failed(why) => Failed(why)
      case Ok(head, g1, r1) =>
        match ResolveAll(es[1..], nesting, g1, r1)
        case Failed(why) => Failed(why)
        case Ok(tail, g2, r2) => Ok([head] + tail, g2, r2)
  }

  /** The expressions of a plan, then its inputs; a derived table is left alone. */
  function ResolvePlan(p: Plan, nesting: nat, g: Grouping, r: Resolution): Resolved<Plan>
    decreases p, 0
  {
    if p.op.Derived? then Ok(p, g, r)
    else
      match ResolveAll(p.exprs, nesting, g, r)
      case Failed(why) => Failed(why)
      case Ok(es', g1, r1) =>
        match ResolvePlans(p.inputs, nesting, g1, r1)
        case Failed(why) => Failed(why)
        case Ok(ps', g2, r2) => Ok(Rel(p.op, es', ps', p.schema), g2, r2)
  }

  function ResolvePlans(ps: seq<Plan>, nesting: nat, g: Grouping, r: Resolution): (o: Resolved<seq<Plan>>)
    decreases ps, 0
    ensures o.Ok? ==> |o.value| == |ps|
  {
    if ps == [] then Ok([], g, r)
    else
      match ResolvePlan(ps[0], nesting, g, r)
      case Failed(why) => Failed(why)
      case Ok(head, g1, r1) =>
        match ResolvePlans(ps[1..], nesting, g1, r1)
        case Failed(why) => Failed(why)
        case Ok(tail, g2, r2) => Ok([head] + tail, g2, r2)
  }

  /** `bind_above`: an extracted expression bound against the slots, then resolved. */
  function BindAbove(rules: Rules, scope: Scope, e: Syn, g: Grouping, handed: seq<Option<(AggCall, TypeInfo)>>): Resolved<Expr>
  {
    match Bind(rules, SlotScope(scope, g), e)
    case None => Failed(Unbound)
    case Some(bound) => ResolveExpr(bound, 0, g, Resolution(handed, seq(|handed|, _ => None)))
  }
}
