/** Extraction preserves meaning: an expression rewritten over the columns of the `Aggregate`,
    bound and resolved, computes on the row of a group what the written expression means over
    that group. */
module Extraction {
  import opened Options
  import opened SqlTypes
  import opened Bound
  import opened Evaluation
  import opened Evaluator
  import opened Renaming
  import opened Syntax
  import opened Grouping
  import opened Slots

  // ----- expressions that are the same compute the same -----

  /** Columns of `p` and of `q` of one identifier and one type, at one position, are at one depth. */
  ghost predicate Untwinned(p: ColumnBinding -> bool, q: ColumnBinding -> bool) {
    forall c, d :: p(c) && q(d) && c.index == d.index && c.column == d.column && c.ty == d.ty ==> c.depth == d.depth
  }

  lemma {:induction false} SameEval(sem: Sem, a: Expr, b: Expr, p: ColumnBinding -> bool, q: ColumnBinding -> bool, env: Env)
    requires SameExpression(a, b) && Reads(a, 0, p) && Reads(b, 0, q) && Untwinned(p, q) && WellTyped(a) && WellTyped(b)
    ensures Eval(sem, a, env) == Eval(sem, b, env)
    decreases a, 0
  {
    match a
    case Literal(_, _) =>
    case Variable(_, _) =>
    case ColumnRef(c, _) =>
      assert AtLevel(c, 0) == c && AtLevel(b.col, 0) == b.col;
      assert p(c) && q(b.col);
    case Op(_, xs, _) =>
      forall i | 0 <= i < |xs|
        ensures Eval(sem, xs[i], env) == Eval(sem, b.args[i], env) && xs[i].ty == b.args[i].ty
      {
        assert SameExpression(xs[i], b.args[i]);
        SameEval(sem, xs[i], b.args[i], p, q, env);
      }
      assert Types(xs) == Types(b.args);
      assert EvalAll(sem, xs, env) == EvalAll(sem, b.args, env);
  }

  lemma {:induction false} SameIsQueryFree(a: Expr, b: Expr)
    requires SameExpression(a, b)
    ensures QueryFree(a) && QueryFree(b)
    decreases a
  {
    match a
    case Op(_, xs, _) =>
      forall i | 0 <= i < |xs| ensures QueryFree(xs[i]) && QueryFree(b.args[i]) {
        SameIsQueryFree(xs[i], b.args[i]);
      }
    case _ =>
  }

  /** One entry serves two calls that are the same: they have one value over every group. */
  lemma SameCallValue(sem: Sem, rules: Rules, a: AggCall, b: AggCall, ta: TypeInfo, tb: TypeInfo, group: seq<Row>, outer: Env)
    requires SameCall(a, b) && OwnCall(rules, a, ta) && OwnCall(rules, b, tb)
    ensures CallValue(sem, a, group, outer) == CallValue(sem, b, group, outer) && ta == tb
  {
    if a.head.star {
      assert a == b;
    } else {
      SameIsQueryFree(a.arg, b.arg);
      forall i | 0 <= i < |group|
        ensures Eval(sem, a.arg, [Plain(group[i])] + outer) == Eval(sem, b.arg, [Plain(group[i])] + outer)
      {
        SameEval(sem, a.arg, b.arg, IsOwn, IsOwn, [Plain(group[i])] + outer);
      }
      assert ArgumentOver(sem, a.arg, group, outer) == ArgumentOver(sem, b.arg, group, outer);
    }
  }

  // ----- binding keeps the meaning -----

  /** What binds is seen, from above, as it is bound. */
  lemma {:induction false} BindIsSeen(rules: Rules, scope: Scope, e: Syn)
    requires Bind(rules, scope, e).Some?
    ensures ViewSyn(rules, scope, e) == Some(ViewOf(rules, Bind(rules, scope, e).value))
    decreases e, 0
  {
    match e
    case Nested(inner) => BindIsSeen(rules, scope, inner);
    case Plus(inner) => BindIsSeen(rules, scope, inner);
    case Node(form, kids) =>
      AllBoundSeen(rules, scope, kids);
      var bound := BindAll(rules, scope, kids).value;
      NodeViewIs(rules, NodeTemplate(rules, form, ViewsOf(rules, bound)).value, bound);
    case Query(_, tested, _, _) => AllBoundSeen(rules, scope, tested);
    case _ =>
  }

  lemma {:induction false} AllBoundSeen(rules: Rules, scope: Scope, es: seq<Syn>)
    requires BindAll(rules, scope, es).Some?
    ensures ViewSyns(rules, scope, es) == Some(ViewsOf(rules, BindAll(rules, scope, es).value))
    ensures ViewTypes(ViewSyns(rules, scope, es).value) == Types(BindAll(rules, scope, es).value)
    decreases es, 0
  {
    var bound := BindAll(rules, scope, es).value;
    forall i | 0 <= i < |es| ensures ViewSyn(rules, scope, es[i]) == Some(ViewOf(rules, bound[i])) { BindIsSeen(rules, scope, es[i]); }
    assert ViewSyns(rules, scope, es).value == ViewsOf(rules, bound);
  }

  /** What binds without an aggregate of the query computes what it means. */
  lemma {:induction false} BindMeans(sem: Sem, rules: Rules, scope: Scope, e: Syn, group: seq<Row>, env: Env)
    requires |env| > 0 && Bind(rules, scope, e).Some?
    ensures Eval(sem, Bind(rules, scope, e).value, env) == Meaning(sem, rules, scope, e, group, env)
    decreases e, 0
  {
    match e
    case Nested(inner) => BindMeans(sem, rules, scope, inner, group, env);
    case Plus(inner) => BindMeans(sem, rules, scope, inner, group, env);
    case Node(form, kids) =>
      BindAllMeans(sem, rules, scope, kids, group, env);
      AllBoundSeen(rules, scope, kids);
      var bound := BindAll(rules, scope, kids).value;
      FillEval(sem, NodeTemplate(rules, form, ViewsOf(rules, bound)).value, bound, env);
    case Query(_, tested, _, _) =>
      BindAllMeans(sem, rules, scope, tested, group, env);
      AllBoundSeen(rules, scope, tested);
    case _ =>
  }

  lemma {:induction false} BindAllMeans(sem: Sem, rules: Rules, scope: Scope, es: seq<Syn>, group: seq<Row>, env: Env)
    requires |env| > 0 && BindAll(rules, scope, es).Some?
    ensures EvalAll(sem, BindAll(rules, scope, es).value, env) == Meanings(sem, rules, scope, es, group, env)
    decreases es, 0
  {
    var bound := BindAll(rules, scope, es).value;
    forall i | 0 <= i < |es| ensures Eval(sem, bound[i], env) == Meaning(sem, rules, scope, es[i], group, env) {
      BindMeans(sem, rules, scope, es[i], group, env);
    }
  }

  /** What binds in the scope of the `FROM` binds alike once the slots are beside it. */
  lemma {:induction false} BindBesideSlots(rules: Rules, scope: Scope, slots: seq<TypeInfo>, e: Syn)
    requires scope.slots == [] && Bind(rules, scope, e).Some?
    ensures Bind(rules, scope.(slots := slots), e) == Bind(rules, scope, e)
    ensures e.Call? ==> CallLevel(rules, scope.(slots := slots), e) == CallLevel(rules, scope, e)
    decreases e, 0
  {
    match e
    case Nested(inner) => BindBesideSlots(rules, scope, slots, inner);
    case Plus(inner) => BindBesideSlots(rules, scope, slots, inner);
    case Node(_, kids) => BindAllBesideSlots(rules, scope, slots, kids);
    case Query(_, tested, _, _) => BindAllBesideSlots(rules, scope, slots, tested);
    case Call(_, args, _) => BindAllBesideSlots(rules, scope, slots, args);
    case _ =>
  }

  lemma {:induction false} BindAllBesideSlots(rules: Rules, scope: Scope, slots: seq<TypeInfo>, es: seq<Syn>)
    requires scope.slots == [] && BindAll(rules, scope, es).Some?
    ensures BindAll(rules, scope.(slots := slots), es) == BindAll(rules, scope, es)
    decreases es, 0
  {
    forall i | 0 <= i < |es| ensures Bind(rules, scope.(slots := slots), es[i]) == Bind(rules, scope, es[i]) {
      BindBesideSlots(rules, scope, slots, es[i]);
    }
    assert BindAll(rules, scope.(slots := slots), es).value == BindAll(rules, scope, es).value;
  }

  // ----- the columns an expression names -----

  /** Every column `e` names outside its aggregates and its nested queries satisfies `q`. */
  predicate Names(scope: Scope, e: Syn, q: ColumnBinding -> bool) {
    match e
    case Ref(name) => (match Resolve(scope, name) case None => true case Some(c) => q(c))
    case Nested(inner) => Names(scope, inner, q)
    case Plus(inner) => Names(scope, inner, q)
    case Node(_, kids) => forall i :: 0 <= i < |kids| ==> Names(scope, kids[i], q)
    case Query(_, tested, _, _) => forall i :: 0 <= i < |tested| ==> Names(scope, tested[i], q)
    case _ => true
  }

  lemma {:induction false} FillReads(t: Template, kids: seq<Expr>, q: ColumnBinding -> bool)
    requires TemplateOk(t, |kids|) && ReadsAll(kids, 0, q)
    ensures Reads(Fill(t, kids), 0, q)
  {
    match t
    case Hole(_) =>
    case Build(_, args, _) =>
      forall i | 0 <= i < |args| ensures Reads(Fill(args[i], kids), 0, q) { FillReads(args[i], kids, q); }
  }

  lemma {:induction false} BoundReads(rules: Rules, scope: Scope, e: Syn, q: ColumnBinding -> bool)
    requires Names(scope, e, q) && !HoldsCall(e) && !HoldsQuery(e) && Bind(rules, scope, e).Some?
    ensures Reads(Bind(rules, scope, e).value, 0, q)
  {
    match e
    case Nested(inner) => BoundReads(rules, scope, inner, q);
    case Plus(inner) => BoundReads(rules, scope, inner, q);
    case Ref(name) =>
      var c := Resolve(scope, name).value;
      assert AtLevel(c, 0) == c;
    case Node(form, kids) =>
      var bound := BindAll(rules, scope, kids).value;
      forall i | 0 <= i < |kids| ensures Reads(bound[i], 0, q) { BoundReads(rules, scope, kids[i], q); }
      FillReads(NodeTemplate(rules, form, ViewsOf(rules, bound)).value, bound, q);
    case _ =>
  }

  // ----- the row of a group -----

  /** `slots` is the row of the `Aggregate` for `group`: each key on `row`, a row of the group,
      then each aggregate over the group. Without a key, `row` is any row at all. */
  predicate GroupRow(sem: Sem, g: Grouping, group: seq<Row>, row: Row, outer: Env, slots: Row) {
    |slots| == |g.keys| + |g.calls|
    && (forall i :: 0 <= i < |g.keys| ==> Eval(sem, g.keys[i], [Plain(row)] + outer) == Val(slots[i]))
    && forall j :: 0 <= j < |g.calls| ==> CallValue(sem, g.calls[j], group, outer) == Val(slots[|g.keys| + j])
  }

  /** The keys are bound and read columns of `p`, none of them a slot or a handed aggregate of this
      query. */
  ghost predicate KeysRead(keys: seq<Expr>, p: ColumnBinding -> bool) {
    (forall i :: 0 <= i < |keys| ==> Reads(keys[i], 0, p) && WellTyped(keys[i]))
    && forall c :: p(c) && c.depth == 0 ==> c.column.Table?
  }

  /** A group of a query, once everything is extracted: `grouping` computes `slots` over
      `group`, whose keys are those of `row`. The columns the keys read are in `keyed`, those
      the expressions name in `named`. */
  datatype Setting = Setting(
    sem: Sem, rules: Rules, scope: Scope, grouping: Grouping,
    keyed: ColumnBinding -> bool, named: ColumnBinding -> bool,
    group: seq<Row>, row: Row, slots: Row, handed: seq<Outcome>, outer: Env)
  {
    function Env(): (env: Env)
      ensures |env| > 0
    {
      [Grouped(row, slots, handed)] + outer
    }

    ghost predicate Fits() {
      scope.slots == [] && Untwinned(keyed, named) && KeysRead(grouping.keys, keyed)
      && Computes()
    }

    predicate Computes() {
      GroupRow(sem, grouping, group, row, outer, slots)
    }
  }

  // ----- what the rule above an expression sees of it -----

  /** Extraction looks the expression up among the keys and finds it. */
  predicate IsKey(rules: Rules, scope: Scope, keys: seq<Expr>, e: Syn) {
    (e.Ref? || e.Plus? || e.Node? || e.Invalid?) && !HoldsCall(e) && !HoldsQuery(e)
    && Bind(rules, scope, e).Some? && KeyIndex(keys, Bind(rules, scope, e).value).Some?
  }

  /** An expression whose column of the `Aggregate` looks, to the rule of the operator above, as the
      expression does: it reads a column, and has the collation label of one. */
  predicate SeenAsColumn(rules: Rules, e: Expr) {
    !ColumnFree(e) && LabelOf(rules, e) == rules.columnLabel(e.ty)
  }

  /** Extraction leaves what the rule above sees of `e` as it is: a key of it is seen as a column. */
  predicate Clear(rules: Rules, scope: Scope, keys: seq<Expr>, e: Syn)
    decreases e
  {
    if IsKey(rules, scope, keys, e) then SeenAsColumn(rules, Bind(rules, scope, e).value)
    else
      match e
      case Nested(inner) => Clear(rules, scope, keys, inner)
      case Plus(inner) => Clear(rules, scope, keys, inner)
      case Node(_, kids) => forall i :: 0 <= i < |kids| ==> Clear(rules, scope, keys, kids[i])
      case Query(_, tested, _, _) => forall i :: 0 <= i < |tested| ==> Apt(rules, scope, keys, tested[i])
      case _ => true
  }

  /** The same of the operands of `e`: where a key of `e` stands under an operator it is seen as a
      column. A key that is the whole of `e` is any. */
  predicate Apt(rules: Rules, scope: Scope, keys: seq<Expr>, e: Syn)
    decreases e
  {
    IsKey(rules, scope, keys, e)
    || match e
       case Nested(inner) => Apt(rules, scope, keys, inner)
       case Plus(inner) => Apt(rules, scope, keys, inner)
       case Node(_, kids) => forall i :: 0 <= i < |kids| ==> Clear(rules, scope, keys, kids[i])
       case Query(_, tested, _, _) => forall i :: 0 <= i < |tested| ==> Apt(rules, scope, keys, tested[i])
       case _ => true
  }

  lemma {:induction false} ClearIsApt(rules: Rules, scope: Scope, keys: seq<Expr>, e: Syn)
    requires Clear(rules, scope, keys, e)
    ensures Apt(rules, scope, keys, e)
  {
    if e.Nested? || e.Plus? { if !IsKey(rules, scope, keys, e) { ClearIsApt(rules, scope, keys, e.inner); } }
  }

  /** The extraction of `e` into `r` is right: bound beside the slots of `gs`, it has the type of the
      written expression and computes its meaning, and is seen from above as the written one is
      where `Clear` says so. */
  ghost predicate Preserved(s: Setting, gs: Grouping, e: Syn, r: Syn) {
    ViewSyn(s.rules, s.scope, e).Some? ==>
      var b := Bind(s.rules, SlotScope(s.scope, gs), r);
      b.Some? && b.value.ty == ViewSyn(s.rules, s.scope, e).value.ty
      && Eval(s.sem, b.value, s.Env()) == Meaning(s.sem, s.rules, s.scope, e, s.group, s.Env())
      && (Clear(s.rules, s.scope, s.grouping.keys, e) ==> ViewSyn(s.rules, s.scope, e) == Some(ViewOf(s.rules, b.value)))
  }

  /** A slot binds to its column of the row of the group. */
  lemma SlotPreserved(s: Setting, gs: Grouping, e: Syn, i: nat)
    requires i < |SlotTypes(gs)| && i < |s.slots|
    requires ViewSyn(s.rules, s.scope, e).Some? && ViewSyn(s.rules, s.scope, e).value.ty == SlotTypes(gs)[i]
    requires Clear(s.rules, s.scope, s.grouping.keys, e) ==> ViewSyn(s.rules, s.scope, e) == Some(ViewOfColumn(s.rules, SlotTypes(gs)[i]))
    requires Meaning(s.sem, s.rules, s.scope, e, s.group, s.Env()) == Val(s.slots[i])
    ensures Preserved(s, gs, e, SlotRef(i))
  {
  }

  /** What binds without an aggregate is preserved as it is. */
  lemma UnchangedPreserved(s: Setting, gs: Grouping, e: Syn)
    requires s.scope.slots == [] && Bind(s.rules, s.scope, e).Some?
    ensures Preserved(s, gs, e, e)
  {
    BindBesideSlots(s.rules, s.scope, SlotTypes(gs), e);
    BindIsSeen(s.rules, s.scope, e);
    BindMeans(s.sem, s.rules, s.scope, e, s.group, s.Env());
  }

  /** The value of an expression that is a key is that of the key on the row of the group. */
  lemma KeyValue(s: Setting, e: Syn, key: Expr, bound: Expr)
    requires s.Fits() && Names(s.scope, e, s.named) && !HoldsCall(e) && !HoldsQuery(e) && Bind(s.rules, s.scope, e) == Some(bound)
    requires SameExpression(key, bound) && Reads(key, 0, s.keyed) && WellTyped(key)
    ensures Meaning(s.sem, s.rules, s.scope, e, s.group, s.Env()) == Eval(s.sem, key, [Plain(s.row)] + s.outer)
  {
    BindMeans(s.sem, s.rules, s.scope, e, s.group, s.Env());
    BoundReads(s.rules, s.scope, e, s.named);
    BoundIsTyped(s.rules, s.scope, e);
    SameEval(s.sem, key, bound, s.keyed, s.named, s.Env());
    EvalAgrees(s.sem, key, s.keyed, [Plain(s.row)] + s.outer, s.Env());
  }

  /** A key found is the column of the `Aggregate` that holds it. */
  lemma KeyPreserved(s: Setting, e: Syn, i: nat, gs: Grouping)
    requires s.Fits() && Names(s.scope, e, s.named) && Later(gs, s.grouping) && IsKey(s.rules, s.scope, s.grouping.keys, e)
    requires i < |gs.keys| && SameExpression(gs.keys[i], Bind(s.rules, s.scope, e).value)
    ensures Preserved(s, gs, e, SlotRef(i))
  {
    var key, bound := s.grouping.keys[i], Bind(s.rules, s.scope, e).value;
    KeyValue(s, e, key, bound);
    BindIsSeen(s.rules, s.scope, e);
    assert SlotTypes(gs)[i] == key.ty == bound.ty;
    SlotPreserved(s, gs, e, i);
  }

  /** And it is seen from above as the key was if and only if the key was seen as a column. */
  lemma KeyIsSeen(rules: Rules, scope: Scope, g: Grouping, e: Syn, i: nat)
    requires scope.slots == [] && IsKey(rules, scope, g.keys, e) && KeyIndex(g.keys, Bind(rules, scope, e).value) == Some(i)
    ensures Rewrite(rules, scope, e, g) == Done(SlotRef(i), g)
    ensures var b := Bind(rules, SlotScope(scope, g), SlotRef(i));
            b.Some? && (ViewSyn(rules, scope, e) == Some(ViewOf(rules, b.value)) <==> Clear(rules, scope, g.keys, e))
  {
    var bound := Bind(rules, scope, e).value;
    BindIsSeen(rules, scope, e);
    assert SlotTypes(g)[i] == g.keys[i].ty == bound.ty;
  }

  /** The slot of an aggregate holds its value over the group. */
  lemma SlotValue(s: Setting, k: nat)
    requires s.Computes() && k < |s.grouping.calls|
    ensures |s.grouping.keys| + k < |s.slots|
    ensures CallValue(s.sem, s.grouping.calls[k], s.group, s.outer) == Val(s.slots[|s.grouping.keys| + k])
  {
  }

  /** An entry that is the call, or the same, computes it in every later grouping. */
  lemma CallSlot(s: Setting, k: nat, call: AggCall, ty: TypeInfo, gs: Grouping)
    requires s.Computes() && Later(gs, s.grouping) && IsEntry(s.rules, gs, k, call, ty)
    ensures var slot := |gs.keys| + k;
            slot < |SlotTypes(gs)| && slot < |s.slots| && SlotTypes(gs)[slot] == ty
            && CallValue(s.sem, call, s.group, s.outer) == Val(s.slots[slot])
  {
    assert s.grouping.calls[k] == gs.calls[k];
    SlotValue(s, k);
    if gs.calls[k] != call {
      SameCallValue(s.sem, s.rules, gs.calls[k], call, ty, ty, s.group, s.outer);
    }
  }

  lemma CallMeans(s: Setting, e: Syn)
    requires e.Call? && CallLevel(s.rules, s.scope, e) == Own && BindCall(s.rules, s.scope, e).Some?
    ensures var (call, ty) := BindCall(s.rules, s.scope, e).value;
            ViewSyn(s.rules, s.scope, e) == Some(ViewOfColumn(s.rules, ty))
            && Meaning(s.sem, s.rules, s.scope, e, s.group, s.Env()) == CallValue(s.sem, call, s.group, s.outer)
  {
    assert s.Env()[1..] == s.outer;
  }

  /** An aggregate call is the column of the `Aggregate` that computes it. */
  lemma EntryPreserved(s: Setting, e: Syn, k: nat, slot: nat, call: AggCall, ty: TypeInfo, gs: Grouping)
    requires s.Computes() && Later(gs, s.grouping) && IsEntry(s.rules, gs, k, call, ty) && slot == |gs.keys| + k
    requires e.Call? && CallLevel(s.rules, s.scope, e) == Own && BindCall(s.rules, s.scope, e) == Some((call, ty))
    ensures Preserved(s, gs, e, SlotRef(slot))
  {
    CallSlot(s, k, call, ty, gs);
    CallMeans(s, e);
    SlotPreserved(s, gs, e, slot);
  }

  /** A call: an aggregate of this query, or one of an enclosing query, left in place. */
  lemma RewriteCallMeans(s: Setting, e: Syn, g: Grouping, gs: Grouping)
    requires s.scope.slots == [] && s.Computes() && Listed(s.rules, gs) && e.Call?
    requires var r := Rewrite(s.rules, s.scope, e, g); r.Done? && Later(r.grouping, gs) && Later(gs, s.grouping)
    ensures Preserved(s, gs, e, Rewrite(s.rules, s.scope, e, g).value)
  {
    if CallLevel(s.rules, s.scope, e) == Own {
      var call, ty := RewriteOwnCall(s.rules, s.scope, e, g);
      OwnCallPreserved(s, e, call, ty, g, gs, WithCall(g, call, ty), |g.keys| + CallIndex(g.calls, call));
    } else {
      OuterCallPreserved(s, gs, e);
    }
  }

  lemma OwnCallPreserved(s: Setting, e: Syn, call: AggCall, ty: TypeInfo, g: Grouping, gs: Grouping, after: Grouping, slot: nat)
    requires s.Computes() && Listed(s.rules, gs) && e.Call? && CallLevel(s.rules, s.scope, e) == Own && OwnCall(s.rules, call, ty)
    requires BindCall(s.rules, s.scope, e) == Some((call, ty)) && after == WithCall(g, call, ty) && slot == |g.keys| + CallIndex(g.calls, call)
    requires Later(after, gs) && Later(gs, s.grouping)
    ensures Preserved(s, gs, e, SlotRef(slot))
  {
    EntryOf(s.rules, g, call, ty, gs);
    EntryPreserved(s, e, CallIndex(g.calls, call), slot, call, ty, gs);
  }

  /** An aggregate of the query becomes the slot of its entry. */
  lemma RewriteOwnCall(rules: Rules, scope: Scope, e: Syn, g: Grouping) returns (call: AggCall, ty: TypeInfo)
    requires e.Call? && CallLevel(rules, scope, e) == Own && Rewrite(rules, scope, e, g).Done?
    ensures BindCall(rules, scope, e) == Some((call, ty)) && OwnCall(rules, call, ty)
    ensures Rewrite(rules, scope, e, g) == Done(SlotRef(|g.keys| + CallIndex(g.calls, call)), WithCall(g, call, ty))
  {
    var bound := BindCall(rules, scope, e).value;
    call, ty := bound.0, bound.1;
    BoundCallIsOwn(rules, scope, e);
  }

  lemma OuterCallPreserved(s: Setting, gs: Grouping, e: Syn)
    requires s.scope.slots == [] && e.Call? && CallLevel(s.rules, s.scope, e).OuterBy?
    ensures Preserved(s, gs, e, e)
  {
    if ViewSyn(s.rules, s.scope, e).Some? { UnchangedPreserved(s, gs, e); }
  }

  /** Extraction preserves meaning. Whatever is extracted later (`gs`, then the grouping of the
      setting), the rewritten expression bound beside the slots computes, on the frame of a
      group, what the written one means over that group. */
  lemma {:induction false} RewriteMeans(s: Setting, e: Syn, g: Grouping, gs: Grouping)
    requires s.Fits() && Names(s.scope, e, s.named) && Sound(s.rules, g) && Sound(s.rules, gs)
    requires Apt(s.rules, s.scope, s.grouping.keys, e)
    requires var r := Rewrite(s.rules, s.scope, e, g); r.Done? && Later(r.grouping, gs) && Later(gs, s.grouping)
    ensures Preserved(s, gs, e, Rewrite(s.rules, s.scope, e, g).value)
    decreases e, 1, 1
  {
    if e.Nested? {
      RewriteMeans(s, e.inner, g, gs);
    } else if e.Call? {
      RewriteCallMeans(s, e, g, gs);
    } else if !e.Lit? && !e.Var? {
      if HoldsCall(e) || HoldsQuery(e) {
        RewriteChildrenMeans(s, e, g, gs);
      } else {
        RewritePlainMeans(s, e, g, gs);
      }
    }
  }

  /** A node that holds neither an aggregate nor a nested query: a key, a column of an
      enclosing query, or an operator over its children. */
  lemma {:induction false} RewritePlainMeans(s: Setting, e: Syn, g: Grouping, gs: Grouping)
    requires s.Fits() && Names(s.scope, e, s.named) && Sound(s.rules, g) && Sound(s.rules, gs)
    requires (e.Ref? || e.Plus? || e.Node? || e.Invalid?) && !HoldsCall(e) && !HoldsQuery(e)
    requires Apt(s.rules, s.scope, s.grouping.keys, e)
    requires var r := Rewrite(s.rules, s.scope, e, g); r.Done? && Later(r.grouping, gs) && Later(gs, s.grouping)
    ensures Preserved(s, gs, e, Rewrite(s.rules, s.scope, e, g).value)
    decreases e, 1, 0
  {
    RewriteGrows(s.rules, s.scope, e, g);
    var bound := Bind(s.rules, s.scope, e).value;
    var k := KeyIndex(g.keys, bound);
    if k.Some? {
      KeyPreserved(s, e, k.value, gs);
    } else if bound.ColumnRef? {
      UnchangedPreserved(s, gs, e);
    } else {
      RewriteChildrenMeans(s, e, g, gs);
    }
  }

  lemma {:induction false} RewriteChildrenMeans(s: Setting, e: Syn, g: Grouping, gs: Grouping)
    requires s.Fits() && Names(s.scope, e, s.named) && Sound(s.rules, g) && Sound(s.rules, gs)
    requires (e.Plus? || e.Node? || e.Query?) && Apt(s.rules, s.scope, s.grouping.keys, e) && !IsKey(s.rules, s.scope, s.grouping.keys, e)
    requires var r := RewriteChildren(s.rules, s.scope, e, g); r.Done? && Later(r.grouping, gs) && Later(gs, s.grouping)
    ensures Preserved(s, gs, e, RewriteChildren(s.rules, s.scope, e, g).value)
    decreases e, 0, 1
  {
    if e.Plus? {
      RewriteMeans(s, e.inner, g, gs);
    } else if ViewSyn(s.rules, s.scope, e).Some? {
      if e.Node? { RewriteNodeMeans(s, e, g, gs); } else { RewriteQueryMeans(s, e, g, gs); }
    }
  }

  lemma {:induction false} RewriteQueryMeans(s: Setting, e: Syn, g: Grouping, gs: Grouping)
    requires s.Fits() && Names(s.scope, e, s.named) && Sound(s.rules, g) && Sound(s.rules, gs)
    requires e.Query? && ViewSyn(s.rules, s.scope, e).Some?
    requires forall i :: 0 <= i < |e.tested| ==> Apt(s.rules, s.scope, s.grouping.keys, e.tested[i])
    requires var r := RewriteAll(s.rules, s.scope, e.tested, g); r.Done? && Later(r.grouping, gs) && Later(gs, s.grouping)
    ensures Preserved(s, gs, e, Query(e.kind, RewriteAll(s.rules, s.scope, e.tested, g).value, e.plan, e.ty))
    decreases e, 0, 0
  {
    RewriteAllMeans(s, e.tested, g, gs);
    QueryPreserved(s, gs, e, RewriteAll(s.rules, s.scope, e.tested, g).value);
  }

  /** A query over operands of the types of the written ones, which compute what they mean. */
  lemma QueryPreserved(s: Setting, gs: Grouping, e: Syn, rs: seq<Syn>)
    requires e.Query? && ViewSyn(s.rules, s.scope, e).Some? && BindAll(s.rules, SlotScope(s.scope, gs), rs).Some?
    requires var bound := BindAll(s.rules, SlotScope(s.scope, gs), rs).value;
             ViewTypes(ViewSyns(s.rules, s.scope, e.tested).value) == Types(bound)
             && EvalAll(s.sem, bound, s.Env()) == Meanings(s.sem, s.rules, s.scope, e.tested, s.group, s.Env())
    ensures Preserved(s, gs, e, Query(e.kind, rs, e.plan, e.ty))
  {
  }

  lemma {:induction false} RewriteNodeMeans(s: Setting, e: Syn, g: Grouping, gs: Grouping)
    requires s.Fits() && Names(s.scope, e, s.named) && Sound(s.rules, g) && Sound(s.rules, gs)
    requires e.Node? && AllClear(s.rules, s.scope, s.grouping.keys, e.kids) && ViewSyn(s.rules, s.scope, e).Some?
    requires var r := RewriteAll(s.rules, s.scope, e.kids, g); r.Done? && Later(r.grouping, gs) && Later(gs, s.grouping)
    ensures Preserved(s, gs, e, Node(e.form, RewriteAll(s.rules, s.scope, e.kids, g).value))
    decreases e, 0, 0
  {
    AllClearApt(s.rules, s.scope, s.grouping.keys, e.kids);
    RewriteAllMeans(s, e.kids, g, gs);
    NodePreserved(s, e.form, e.kids, BindAll(s.rules, SlotScope(s.scope, gs), RewriteAll(s.rules, s.scope, e.kids, g).value).value);
  }

  /** A node over operands that are seen as the written ones are, and compute what they mean. */
  lemma NodePreserved(s: Setting, form: Form, kids: seq<Syn>, bound: seq<Expr>)
    requires ViewSyn(s.rules, s.scope, Node(form, kids)).Some? && ViewSyns(s.rules, s.scope, kids) == Some(ViewsOf(s.rules, bound))
    requires EvalAll(s.sem, bound, s.Env()) == Meanings(s.sem, s.rules, s.scope, kids, s.group, s.Env())
    ensures var b := BuildNode(s.rules, form, bound);
            b.Some? && ViewSyn(s.rules, s.scope, Node(form, kids)) == Some(ViewOf(s.rules, b.value))
            && Eval(s.sem, b.value, s.Env()) == Meaning(s.sem, s.rules, s.scope, Node(form, kids), s.group, s.Env())
  {
    var t := NodeTemplate(s.rules, form, ViewsOf(s.rules, bound)).value;
    NodeViewIs(s.rules, t, bound);
    FillEval(s.sem, t, bound, s.Env());
    assert ViewTypes(ViewsOf(s.rules, bound)) == Types(bound);
  }

  /** The rewritten children bind to operands of the same types and the same outcomes, seen as the
      written ones are where each is clear. */
  lemma {:induction false} RewriteAllMeans(s: Setting, es: seq<Syn>, g: Grouping, gs: Grouping)
    requires s.Fits() && (forall i :: 0 <= i < |es| ==> Names(s.scope, es[i], s.named)) && Sound(s.rules, g) && Sound(s.rules, gs)
    requires forall i :: 0 <= i < |es| ==> Apt(s.rules, s.scope, s.grouping.keys, es[i])
    requires var r := RewriteAll(s.rules, s.scope, es, g); r.Done? && Later(r.grouping, gs) && Later(gs, s.grouping)
    requires ViewSyns(s.rules, s.scope, es).Some?
    ensures var b := BindAll(s.rules, SlotScope(s.scope, gs), RewriteAll(s.rules, s.scope, es, g).value);
            b.Some? && ViewTypes(ViewSyns(s.rules, s.scope, es).value) == Types(b.value)
            && EvalAll(s.sem, b.value, s.Env()) == Meanings(s.sem, s.rules, s.scope, es, s.group, s.Env())
            && (AllClear(s.rules, s.scope, s.grouping.keys, es) ==> ViewSyns(s.rules, s.scope, es) == Some(ViewsOf(s.rules, b.value)))
    decreases es, 1
  {
    RewriteEach(s, es, g, gs);
    var rs := RewriteAll(s.rules, s.scope, es, g).value;
    forall i | 0 <= i < |es|
      ensures var b := Bind(s.rules, SlotScope(s.scope, gs), rs[i]);
              b.Some? && b.value.ty == ViewSyn(s.rules, s.scope, es[i]).value.ty
              && Eval(s.sem, b.value, s.Env()) == Meaning(s.sem, s.rules, s.scope, es[i], s.group, s.Env())
              && (Clear(s.rules, s.scope, s.grouping.keys, es[i]) ==> ViewSyn(s.rules, s.scope, es[i]) == Some(ViewOf(s.rules, b.value)))
    {
      assert Preserved(s, gs, es[i], rs[i]);
    }
    var bound := BindAll(s.rules, SlotScope(s.scope, gs), rs).value;
    assert ViewTypes(ViewSyns(s.rules, s.scope, es).value) == Types(bound);
    if AllClear(s.rules, s.scope, s.grouping.keys, es) {
      assert ViewSyns(s.rules, s.scope, es).value == ViewsOf(s.rules, bound);
    }
  }

  lemma AllClearApt(rules: Rules, scope: Scope, keys: seq<Expr>, es: seq<Syn>)
    requires AllClear(rules, scope, keys, es)
    ensures forall i :: 0 <= i < |es| ==> Apt(rules, scope, keys, es[i])
  {
    forall i | 0 <= i < |es| ensures Apt(rules, scope, keys, es[i]) { ClearIsApt(rules, scope, keys, es[i]); }
  }

  predicate AllClear(rules: Rules, scope: Scope, keys: seq<Expr>, es: seq<Syn>) {
    forall i :: 0 <= i < |es| ==> Clear(rules, scope, keys, es[i])
  }

  lemma RewriteSplits(rules: Rules, scope: Scope, es: seq<Syn>, g: Grouping, gs: Grouping)
    requires es != [] && Sound(rules, g)
    requires var r := RewriteAll(rules, scope, es, g); r.Done? && Later(r.grouping, gs)
    ensures var head := Rewrite(rules, scope, es[0], g);
            head.Done? && Sound(rules, head.grouping) && Later(head.grouping, gs)
            && var tail := RewriteAll(rules, scope, es[1..], head.grouping);
               tail.Done? && Later(tail.grouping, gs) && RewriteAll(rules, scope, es, g).value == [head.value] + tail.value
  {
    var head := Rewrite(rules, scope, es[0], g);
    RewriteGrows(rules, scope, es[0], g);
    RewriteAllGrows(rules, scope, es[1..], head.grouping);
    LaterTrans(head.grouping, RewriteAll(rules, scope, es[1..], head.grouping).grouping, gs);
  }

  lemma {:induction false} RewriteEach(s: Setting, es: seq<Syn>, g: Grouping, gs: Grouping)
    requires s.Fits() && (forall i :: 0 <= i < |es| ==> Names(s.scope, es[i], s.named)) && Sound(s.rules, g) && Sound(s.rules, gs)
    requires forall i :: 0 <= i < |es| ==> Apt(s.rules, s.scope, s.grouping.keys, es[i])
    requires var r := RewriteAll(s.rules, s.scope, es, g); r.Done? && Later(r.grouping, gs) && Later(gs, s.grouping)
    ensures var rs := RewriteAll(s.rules, s.scope, es, g).value;
            forall i :: 0 <= i < |es| ==> Preserved(s, gs, es[i], rs[i])
    decreases es, 0
  {
    if es != [] {
      var head := Rewrite(s.rules, s.scope, es[0], g);
      RewriteSplits(s.rules, s.scope, es, g, gs);
      RewriteMeans(s, es[0], g, gs);
      RewriteEach(s, es[1..], head.grouping, gs);
    }
  }

  // ----- resolution -----

  /** What the resolution of nested queries relies on: a key that is a bare column reads this
      query, and the frame holds the value of each aggregate handed over. */
  ghost predicate Resolves(s: Setting, r: Resolution) {
    (forall i :: 0 <= i < |s.grouping.keys| && s.grouping.keys[i].ColumnRef? ==> s.grouping.keys[i].col.depth == 0)
    && |s.handed| == |r.handed|
    && forall i :: 0 <= i < |r.handed| && r.handed[i].Some? ==>
         s.handed[i] == CallValue(s.sem, r.handed[i].value.0, s.group, s.outer)
  }

  /** A resolved reference reads, in the row of the `Aggregate`, what it read before. */
  lemma ResolvedReads(s: Setting, r: Resolution, c: ColumnBinding)
    requires s.Fits() && Resolves(s, r) && Ready(s.rules, s.grouping, r) && Resolvable(c, s.grouping, r)
    ensures Lookup(s.Env(), c) == Lookup([Plain(s.slots)] + s.outer, SlotMap(s.grouping, r)(c))
  {
    if c.depth == 0 {
      if c.column.Table? {
        var i := KeyIndex(s.grouping.keys, ColumnRef(c, c.ty)).value;
        var key := s.grouping.keys[i];
        assert Eval(s.sem, key, [Plain(s.row)] + s.outer) == Val(s.slots[i]);
        assert Lookup([Plain(s.row)] + s.outer, key.col) == Cell(s.row, c.index);
      } else if c.column.Handed? {
        var slot := r.slots[c.index].value;
        assert SlotComputes(s.grouping, r, c.index, slot);
        var call := s.grouping.calls[slot - |s.grouping.keys|];
        var (handed, ty) := r.handed[c.index].value;
        if call != handed {
          SameCallValue(s.sem, s.rules, call, handed, s.grouping.callTypes[slot - |s.grouping.keys|], ty, s.group, s.outer);
        }
        assert CallValue(s.sem, call, s.group, s.outer) == Val(s.slots[slot]);
      }
    }
  }

  /** Resolution preserves meaning: whatever the queries the expression is nested in (`inner`)
      and whatever plans are under it, on the row of the `Aggregate` it computes what it computed
      on the row of the group and on the aggregates handed over. */
  lemma ResolveMeans(s: Setting, e: Expr, inner: Env, g: Grouping, r: Resolution)
    requires s.Fits() && Ready(s.rules, g, r) && Ready(s.rules, s.grouping, r)
    requires var o := ResolveExpr(e, |inner|, g, r);
             o.Ok? && Later(o.grouping, s.grouping) && Resolves(s, o.resolution) && Ready(s.rules, s.grouping, o.resolution)
    ensures Eval(s.sem, ResolveExpr(e, |inner|, g, r).value, inner + ([Plain(s.slots)] + s.outer))
            == Eval(s.sem, e, inner + s.Env())
  {
    var o := ResolveExpr(e, |inner|, g, r);
    ResolveIsRename(s.rules, e, |inner|, g, r, s.grouping, o.resolution);
    var p, f := ResolvableIn(s.grouping, o.resolution), SlotMap(s.grouping, o.resolution);
    forall c | p(c) ensures Lookup(s.Env(), c) == Lookup([Plain(s.slots)] + s.outer, f(c)) {
      ResolvedReads(s, o.resolution, c);
    }
    RenameEval(s.sem, e, |inner|, p, f, inner, s.Env(), [Plain(s.slots)] + s.outer);
  }

  /** A column of another query, or one of the `Aggregate` of this one. */
  predicate IsResolved(c: ColumnBinding) {
    c.depth == 0 ==> c.column.Slot?
  }

  /** Nothing of the `FROM` of this query, and no aggregate handed over, is left to read after
      resolution, in the expression nor in any plan under it. */
  lemma ResolvedReadsSlots(rules: Rules, e: Expr, n: nat, g: Grouping, r: Resolution)
    requires Ready(rules, g, r) && ResolveExpr(e, n, g, r).Ok?
    ensures Reads(ResolveExpr(e, n, g, r).value, n, IsResolved)
  {
    var o := ResolveExpr(e, n, g, r);
    ResolveIsRename(rules, e, n, g, r, o.grouping, o.resolution);
    RenameReads(e, n, ResolvableIn(o.grouping, o.resolution), SlotMap(o.grouping, o.resolution), IsResolved);
  }
}
