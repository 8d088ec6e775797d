/** Slots are stable: across any run of extractions and resolutions the aggregates are only
    appended, no two are one call, and a slot once issued keeps what it denotes. */
module Slots {
  import opened Options
  import opened SqlTypes
  import opened Bound
  import opened Renaming
  import opened Syntax
  import opened Grouping

  /** `g` one or more extractions later: the keys are the same, the aggregates only grew. */
  predicate Later(g: Grouping, g': Grouping) {
    g'.keys == g.keys && g.calls <= g'.calls && g.callTypes <= g'.callTypes
  }

  /** No subquery in a bound expression. */
  predicate QueryFree(e: Expr) {
    match e
    case Op(_, args, _) => forall i :: 0 <= i < |args| ==> QueryFree(args[i])
    case Subquery(_, _, _, _) => false
    case _ => true
  }

  predicate IsOwn(c: ColumnBinding) {
    c.depth == 0
  }

  /** A reference has the type of its column. */
  predicate WellTyped(e: Expr) {
    match e
    case ColumnRef(c, ty) => ty == c.ty
    case Op(_, args, _) => forall i :: 0 <= i < |args| ==> WellTyped(args[i])
    case _ => true
  }

  lemma {:induction false} FillIsTyped(t: Template, kids: seq<Expr>)
    requires TemplateOk(t, |kids|) && forall i :: 0 <= i < |kids| ==> WellTyped(kids[i])
    ensures WellTyped(Fill(t, kids))
  {
    match t
    case Hole(_) =>
    case Build(_, args, _) =>
      forall i | 0 <= i < |args| ensures WellTyped(Fill(args[i], kids)) { FillIsTyped(args[i], kids); }
  }

  lemma {:induction false} BoundIsTyped(rules: Rules, scope: Scope, e: Syn)
    requires Bind(rules, scope, e).Some?
    ensures WellTyped(Bind(rules, scope, e).value)
  {
    match e
    case Nested(inner) => BoundIsTyped(rules, scope, inner);
    case Plus(inner) => BoundIsTyped(rules, scope, inner);
    case Node(form, kids) =>
      var bound := BindAll(rules, scope, kids).value;
      forall i | 0 <= i < |kids| ensures WellTyped(bound[i]) { BoundIsTyped(rules, scope, kids[i]); }
      FillIsTyped(NodeTemplate(rules, form, ViewsOf(rules, bound)).value, bound);
    case _ =>
  }

  /** An aggregate of this query: unless a subquery is under it, it reads this query alone; its
      argument is bound and `ty` is the type of its result. */
  predicate OwnCall(rules: Rules, call: AggCall, ty: TypeInfo) {
    rules.callType(call.head, if call.head.star then [] else [call.arg.ty]) == Some(ty)
    && (call.head.star ==> call.arg == STAR_ARGUMENT)
    && (QueryFree(call.arg) ==> Reads(call.arg, 0, IsOwn)) && WellTyped(call.arg)
  }

  /** One type per aggregate, each an aggregate of this query. */
  predicate Listed(rules: Rules, g: Grouping) {
    |g.calls| == |g.callTypes|
    && forall i :: 0 <= i < |g.calls| ==> OwnCall(rules, g.calls[i], g.callTypes[i])
  }

  /** And none is computed twice. */
  predicate Sound(rules: Rules, g: Grouping) {
    Listed(rules, g)
    && forall i, j :: 0 <= i < j < |g.calls| ==> !SameCall(g.calls[i], g.calls[j])
  }

  lemma LaterTrans(a: Grouping, b: Grouping, c: Grouping)
    requires Later(a, b) && Later(b, c)
    ensures Later(a, c)
  {
  }

  /** The columns published so far keep their position and their type. */
  lemma SlotsKeep(g: Grouping, g': Grouping, slot: nat)
    requires Later(g, g') && slot < |SlotTypes(g)|
    ensures slot < |SlotTypes(g')| && SlotTypes(g')[slot] == SlotTypes(g)[slot]
  {
    if slot >= |g.keys| {
      assert g.callTypes[slot - |g.keys|] == g'.callTypes[slot - |g.keys|];
    }
  }

  lemma WithCallSound(rules: Rules, g: Grouping, call: AggCall, ty: TypeInfo)
    requires Sound(rules, g) && OwnCall(rules, call, ty)
    ensures var g' := WithCall(g, call, ty);
            Sound(rules, g') && Later(g, g') && CallIndex(g.calls, call) < |g'.calls|
            && (g'.calls[CallIndex(g.calls, call)] == call || SameCall(g'.calls[CallIndex(g.calls, call)], call))
  {
  }

  /** Entry `k` is the call, or the same. */
  ghost predicate IsEntry(rules: Rules, g: Grouping, k: nat, call: AggCall, ty: TypeInfo) {
    k < |g.calls| == |g.callTypes| && g.callTypes[k] == ty && OwnCall(rules, call, ty) && OwnCall(rules, g.calls[k], ty)
    && (g.calls[k] == call || SameCall(g.calls[k], call))
  }

  /** The entry of a call, in a grouping however much later: it is the call, or the same. */
  lemma EntryOf(rules: Rules, g: Grouping, call: AggCall, ty: TypeInfo, gs: Grouping)
    requires Listed(rules, gs) && OwnCall(rules, call, ty) && Later(WithCall(g, call, ty), gs)
    ensures gs.keys == g.keys && IsEntry(rules, gs, CallIndex(g.calls, call), call, ty)
  {
    var k := CallIndex(g.calls, call);
    assert gs.calls[k] == WithCall(g, call, ty).calls[k];
    assert OwnCall(rules, gs.calls[k], gs.callTypes[k]);
  }

  // ----- an aggregate bound as the query's own reads that query alone -----

  lemma {:induction false} FillNotQueryFree(t: Template, kids: seq<Expr>, i: nat)
    requires TemplateOk(t, |kids|) && i < |kids| && Mentions(t, i) && !QueryFree(kids[i])
    ensures !QueryFree(Fill(t, kids))
  {
    match t
    case Hole(_) =>
    case Build(_, args, _) =>
      var k :| 0 <= k < |args| && Mentions(args[k], i);
      FillNotQueryFree(args[k], kids, i);
      assert !QueryFree(FillAll(args, kids)[k]);
  }

  lemma {:induction false} BindKeepsQueries(rules: Rules, scope: Scope, e: Syn)
    requires HoldsQuery(e) && !HoldsCall(e) && Bind(rules, scope, e).Some?
    ensures !QueryFree(Bind(rules, scope, e).value)
  {
    match e
    case Nested(inner) => BindKeepsQueries(rules, scope, inner);
    case Plus(inner) => BindKeepsQueries(rules, scope, inner);
    case Node(form, kids) =>
      var i :| 0 <= i < |kids| && HoldsQuery(kids[i]);
      BindKeepsQueries(rules, scope, kids[i]);
      var bound := BindAll(rules, scope, kids).value;
      FillNotQueryFree(NodeTemplate(rules, form, ViewsOf(rules, bound)).value, bound, i);
    case Query(_, _, _, _) =>
  }

  lemma {:induction false} OwnDepths(e: Expr)
    requires QueryFree(e) && forall i :: 0 <= i < |Depths(e)| ==> Depths(e)[i] == 0
    ensures Reads(e, 0, IsOwn)
    decreases e, 0
  {
    match e
    case Op(_, args, _) =>
      assert Depths(e) == DepthsAll(args);
      OwnDepthsAll(args);
    case ColumnRef(c, _) => assert Depths(e)[0] == c.depth;
    case _ =>
  }

  lemma {:induction false} OwnDepthsAll(es: seq<Expr>)
    requires forall i :: 0 <= i < |es| ==> QueryFree(es[i])
    requires forall i :: 0 <= i < |DepthsAll(es)| ==> DepthsAll(es)[i] == 0
    ensures ReadsAll(es, 0, IsOwn)
    decreases es, 0
  {
    if es != [] {
      var d, ds := Depths(es[0]), DepthsAll(es[1..]);
      assert forall i :: 0 <= i < |d| ==> d[i] == DepthsAll(es)[i];
      assert forall i :: 0 <= i < |ds| ==> ds[i] == DepthsAll(es)[|d| + i];
      OwnDepths(es[0]);
      OwnDepthsAll(es[1..]);
    }
  }

  lemma BoundCallIsOwn(rules: Rules, scope: Scope, e: Syn)
    requires e.Call? && CallLevel(rules, scope, e) == Own && BindCall(rules, scope, e).Some?
    requires forall i :: 0 <= i < |e.args| ==> !HoldsCall(e.args[i])
    ensures OwnCall(rules, BindCall(rules, scope, e).value.0, BindCall(rules, scope, e).value.1)
  {
    if !e.head.star {
      var args := BindAll(rules, scope, e.args).value;
      BoundIsTyped(rules, scope, e.args[0]);
      if HoldsQuery(e.args[0]) {
        BindKeepsQueries(rules, scope, e.args[0]);
      } else if QueryFree(args[0]) {
        assert args == [args[0]] && DepthsAll(args) == Depths(args[0]) + DepthsAll(args[1..]) == Depths(args[0]);
        OwnDepths(args[0]);
      }
    }
  }

  // ----- extraction -----

  lemma {:induction false} RewriteGrows(rules: Rules, scope: Scope, e: Syn, g: Grouping)
    requires Sound(rules, g)
    ensures var r := Rewrite(rules, scope, e, g); r.Done? ==> Sound(rules, r.grouping) && Later(g, r.grouping)
    decreases e, 1
  {
    match e
    case Nested(inner) => RewriteGrows(rules, scope, inner, g);
    case Call(_, _, _) =>
      if BindCall(rules, scope, e).Some? {
        var (call, ty) := BindCall(rules, scope, e).value;
        if CallLevel(rules, scope, e) == Own && !exists i :: 0 <= i < |e.args| && HoldsCall(e.args[i]) {
          BoundCallIsOwn(rules, scope, e);
          WithCallSound(rules, g, call, ty);
        }
      }
    case Lit(_, _) =>
    case Var(_, _) =>
    case _ => RewriteChildrenGrows(rules, scope, e, g);
  }

  lemma {:induction false} RewriteChildrenGrows(rules: Rules, scope: Scope, e: Syn, g: Grouping)
    requires Sound(rules, g)
    ensures var r := RewriteChildren(rules, scope, e, g); r.Done? ==> Sound(rules, r.grouping) && Later(g, r.grouping)
    decreases e, 0
  {
    match e
    case Plus(inner) => RewriteGrows(rules, scope, inner, g);
    case Node(_, kids) => RewriteAllGrows(rules, scope, kids, g);
    case Query(_, tested, _, _) => RewriteAllGrows(rules, scope, tested, g);
    case _ =>
  }

  lemma {:induction false} RewriteAllGrows(rules: Rules, scope: Scope, es: seq<Syn>, g: Grouping)
    requires Sound(rules, g)
    ensures var r := RewriteAll(rules, scope, es, g); r.Done? ==> Sound(rules, r.grouping) && Later(g, r.grouping)
    decreases es, 0
  {
    if es != [] {
      RewriteGrows(rules, scope, es[0], g);
      var head := Rewrite(rules, scope, es[0], g);
      if head.Done? {
        RewriteAllGrows(rules, scope, es[1..], head.grouping);
        var tail := RewriteAll(rules, scope, es[1..], head.grouping);
        if tail.Done? { LaterTrans(g, head.grouping, tail.grouping); }
      }
    }
  }

  // ----- resolution -----

  /** The resolution remembers one slot per aggregate handed over, and that slot computes it. */
  predicate Remembers(g: Grouping, r: Resolution) {
    |r.slots| == |r.handed|
    && forall i :: 0 <= i < |r.slots| && r.slots[i].Some? ==> SlotComputes(g, r, i, r.slots[i].value)
  }

  predicate SlotComputes(g: Grouping, r: Resolution, i: nat, slot: nat) {
    i < |r.handed| && r.handed[i].Some?
    && |g.keys| <= slot < |g.keys| + |g.calls|
    && (g.calls[slot - |g.keys|] == r.handed[i].value.0 || SameCall(g.calls[slot - |g.keys|], r.handed[i].value.0))
  }

  predicate LaterResolution(r: Resolution, r': Resolution) {
    r'.handed == r.handed && |r'.slots| == |r.slots|
    && forall i :: 0 <= i < |r.slots| && r.slots[i].Some? ==> r'.slots[i] == r.slots[i]
  }

  predicate Ready(rules: Rules, g: Grouping, r: Resolution) {
    Sound(rules, g) && Remembers(g, r)
    && forall i :: 0 <= i < |r.handed| && r.handed[i].Some? ==> OwnCall(rules, r.handed[i].value.0, r.handed[i].value.1)
  }

  predicate LaterBoth(g: Grouping, r: Resolution, g': Grouping, r': Resolution) {
    Later(g, g') && LaterResolution(r, r')
  }

  lemma LaterBothTrans(g1: Grouping, r1: Resolution, g2: Grouping, r2: Resolution, g3: Grouping, r3: Resolution)
    requires LaterBoth(g1, r1, g2, r2) && LaterBoth(g2, r2, g3, r3)
    ensures LaterBoth(g1, r1, g3, r3)
  {
  }

  /** The slot a reference on this query stands for, once everything is resolved. */
  function SlotOf(c: ColumnBinding, g: Grouping, r: Resolution): nat {
    match c.column
    case Handed => if c.index < |r.slots| && r.slots[c.index].Some? then r.slots[c.index].value else 0
    case Slot => c.index
    case Table(_) => var k := KeyIndex(g.keys, ColumnRef(c, c.ty)); if k.Some? then k.value else 0
  }

  /** Whether a reference on this query is a key, a handed aggregate that was resolved, or a
      slot; a reference on another query is left alone. */
  predicate Resolvable(c: ColumnBinding, g: Grouping, r: Resolution) {
    c.depth == 0 ==>
      match c.column
      case Handed => c.index < |r.slots| && r.slots[c.index].Some?
      case Slot => true
      case Table(_) => KeyIndex(g.keys, ColumnRef(c, c.ty)).Some?
  }

  /** The renaming a whole resolution amounts to. */
  function SlotMap(g: Grouping, r: Resolution): Renaming {
    (c: ColumnBinding) =>
      if c.depth != 0 then c
      else SlotBinding(SlotOf(c, g, r), ResolvedType(c, SlotOf(c, g, r), g), 0)
  }

  function ResolvableIn(g: Grouping, r: Resolution): ColumnBinding -> bool {
    (c: ColumnBinding) => Resolvable(c, g, r)
  }

  lemma RenameAllCons(es: seq<Expr>, n: nat, g: Grouping, r: Resolution)
    requires es != []
    ensures RenameAll(es, n, SlotMap(g, r)) == [Rename(es[0], n, SlotMap(g, r))] + RenameAll(es[1..], n, SlotMap(g, r))
    ensures Reads(es[0], n, ResolvableIn(g, r)) && ReadsAll(es[1..], n, ResolvableIn(g, r)) ==> ReadsAll(es, n, ResolvableIn(g, r))
  {
    assert es == [es[0]] + es[1..];
  }

  lemma RenamePlansCons(ps: seq<Plan>, n: nat, g: Grouping, r: Resolution)
    requires ps != []
    ensures RenamePlans(ps, n, SlotMap(g, r)) == [RenamePlan(ps[0], n, SlotMap(g, r))] + RenamePlans(ps[1..], n, SlotMap(g, r))
    ensures PlanReads(ps[0], n, ResolvableIn(g, r)) && PlansRead(ps[1..], n, ResolvableIn(g, r)) ==> PlansRead(ps, n, ResolvableIn(g, r))
  {
    assert ps == [ps[0]] + ps[1..];
  }

  /** The first reference to a handed aggregate issues its slot, and is remembered. */
  lemma FirstReference(rules: Rules, c: ColumnBinding, g: Grouping, r: Resolution)
    requires Ready(rules, g, r) && c.column.Handed? && c.index < |r.handed|
    requires r.slots[c.index].None? && r.handed[c.index].Some?
    ensures var o := ResolveColumn(c, g, r);
            o.Ok? && Ready(rules, o.grouping, o.resolution) && LaterBoth(g, r, o.grouping, o.resolution)
            && o.resolution.slots[c.index] == Some(o.value) && o.value < |SlotTypes(o.grouping)|
  {
    var o := ResolveColumn(c, g, r);
    var (call, ty) := r.handed[c.index].value;
    WithCallSound(rules, g, call, ty);
    forall i | 0 <= i < |o.resolution.slots| && o.resolution.slots[i].Some?
      ensures SlotComputes(o.grouping, o.resolution, i, o.resolution.slots[i].value)
    {
      if i != c.index { assert SlotComputes(g, r, i, r.slots[i].value); }
    }
  }

  lemma ResolveColumnIsRename(rules: Rules, c: ColumnBinding, g: Grouping, r: Resolution, gf: Grouping, rf: Resolution)
    requires Ready(rules, g, r)
    ensures var o := ResolveColumn(c, g, r);
            o.Ok? ==> Ready(rules, o.grouping, o.resolution) && LaterBoth(g, r, o.grouping, o.resolution)
    ensures var o := ResolveColumn(c, g, r);
            o.Ok? && LaterBoth(o.grouping, o.resolution, gf, rf) ==>
              Resolvable(c.(depth := 0), gf, rf)
              && o.value == SlotOf(c.(depth := 0), gf, rf)
              && ResolvedType(c, o.value, o.grouping) == ResolvedType(c.(depth := 0), o.value, gf)
  {
    var o := ResolveColumn(c, g, r);
    if o.Ok? && c.column.Handed? {
      if r.slots[c.index].Some? {
        assert SlotComputes(g, r, c.index, r.slots[c.index].value);
      } else {
        FirstReference(rules, c, g, r);
      }
      if LaterBoth(o.grouping, o.resolution, gf, rf) { SlotsKeep(o.grouping, gf, o.value); }
    }
  }

  /** Resolving an expression is renaming it, by whatever the resolution ends with: a slot
      issued early is the slot read at the end, references to the other queries are unchanged,
      and every reference on this query was resolvable. */
  lemma {:induction false} ResolveIsRename(rules: Rules, e: Expr, n: nat, g: Grouping, r: Resolution, gf: Grouping, rf: Resolution)
    requires Ready(rules, g, r)
    ensures var o := ResolveExpr(e, n, g, r);
            o.Ok? ==> Ready(rules, o.grouping, o.resolution) && LaterBoth(g, r, o.grouping, o.resolution)
    ensures var o := ResolveExpr(e, n, g, r);
            o.Ok? && LaterBoth(o.grouping, o.resolution, gf, rf) ==>
              o.value == Rename(e, n, SlotMap(gf, rf)) && Reads(e, n, ResolvableIn(gf, rf))
    decreases e, 0
  {
    match e
    case Literal(_, _) =>
    case Variable(_, _) =>
    case ColumnRef(c, _) =>
      if c.depth == n { ResolveColumnIsRename(rules, c, g, r, gf, rf); }
    case Op(_, args, _) => ResolveAllIsRename(rules, args, n, g, r, gf, rf);
    case Subquery(_, tested, plan, _) =>
      var o1 := ResolvePlan(plan, n + 1, g, r);
      ResolvePlanIsRename(rules, plan, n + 1, g, r, gf, rf);
      if o1.Ok? {
        ResolveAllIsRename(rules, tested, n, o1.grouping, o1.resolution, gf, rf);
      }
  }

  lemma {:induction false} ResolveAllIsRename(rules: Rules, es: seq<Expr>, n: nat, g: Grouping, r: Resolution, gf: Grouping, rf: Resolution)
    requires Ready(rules, g, r)
    ensures var o := ResolveAll(es, n, g, r);
            o.Ok? ==> Ready(rules, o.grouping, o.resolution) && LaterBoth(g, r, o.grouping, o.resolution)
    ensures var o := ResolveAll(es, n, g, r);
            o.Ok? && LaterBoth(o.grouping, o.resolution, gf, rf) ==>
              o.value == RenameAll(es, n, SlotMap(gf, rf)) && ReadsAll(es, n, ResolvableIn(gf, rf))
    decreases es, 0
  {
    if es != [] {
      var o1 := ResolveExpr(es[0], n, g, r);
      ResolveIsRename(rules, es[0], n, g, r, gf, rf);
      if o1.Ok? {
        ResolveAllIsRename(rules, es[1..], n, o1.grouping, o1.resolution, gf, rf);
        var o2 := ResolveAll(es[1..], n, o1.grouping, o1.resolution);
        if o2.Ok? {
          LaterBothTrans(g, r, o1.grouping, o1.resolution, o2.grouping, o2.resolution);
          if LaterBoth(o2.grouping, o2.resolution, gf, rf) {
            LaterBothTrans(o1.grouping, o1.resolution, o2.grouping, o2.resolution, gf, rf);
            RenameAllCons(es, n, gf, rf);
          }
        }
      }
    }
  }

  lemma {:induction false} ResolvePlanIsRename(rules: Rules, p: Plan, n: nat, g: Grouping, r: Resolution, gf: Grouping, rf: Resolution)
    requires Ready(rules, g, r)
    ensures var o := ResolvePlan(p, n, g, r);
            o.Ok? ==> Ready(rules, o.grouping, o.resolution) && LaterBoth(g, r, o.grouping, o.resolution)
    ensures var o := ResolvePlan(p, n, g, r);
            o.Ok? && LaterBoth(o.grouping, o.resolution, gf, rf) ==>
              o.value == RenamePlan(p, n, SlotMap(gf, rf)) && PlanReads(p, n, ResolvableIn(gf, rf))
    decreases p, 0
  {
    if !p.op.Derived? {
      var o1 := ResolveAll(p.exprs, n, g, r);
      ResolveAllIsRename(rules, p.exprs, n, g, r, gf, rf);
      if o1.Ok? {
        ResolvePlansIsRename(rules, p.inputs, n, o1.grouping, o1.resolution, gf, rf);
      }
    }
  }

  lemma {:induction false} ResolvePlansIsRename(rules: Rules, ps: seq<Plan>, n: nat, g: Grouping, r: Resolution, gf: Grouping, rf: Resolution)
    requires Ready(rules, g, r)
    ensures var o := ResolvePlans(ps, n, g, r);
            o.Ok? ==> Ready(rules, o.grouping, o.resolution) && LaterBoth(g, r, o.grouping, o.resolution)
    ensures var o := ResolvePlans(ps, n, g, r);
            o.Ok? && LaterBoth(o.grouping, o.resolution, gf, rf) ==>
              o.value == RenamePlans(ps, n, SlotMap(gf, rf)) && PlansRead(ps, n, ResolvableIn(gf, rf))
    decreases ps, 0
  {
    if ps != [] {
      var o1 := ResolvePlan(ps[0], n, g, r);
      ResolvePlanIsRename(rules, ps[0], n, g, r, gf, rf);
      if o1.Ok? {
        ResolvePlansIsRename(rules, ps[1..], n, o1.grouping, o1.resolution, gf, rf);
        var o2 := ResolvePlans(ps[1..], n, o1.grouping, o1.resolution);
        if o2.Ok? {
          LaterBothTrans(g, r, o1.grouping, o1.resolution, o2.grouping, o2.resolution);
          if LaterBoth(o2.grouping, o2.resolution, gf, rf) {
            LaterBothTrans(o1.grouping, o1.resolution, o2.grouping, o2.resolution, gf, rf);
            RenamePlansCons(ps, n, gf, rf);
          }
        }
      }
    }
  }
}
