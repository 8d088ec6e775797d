/** Where extraction does not preserve meaning, and exactly when it does.

    Two bound expressions are compared without the depth of their columns, so a column of an
    enclosing query is taken for a key of the same type, at the same position, that has the same
    identifier within its table: the same column of the same table, or of two tables alike. And a
    key that reads no column is a constant to the operator above it, which its column of the
    `Aggregate` is not. */
module Twins {
  import opened Options
  import opened SqlTypes
  import opened Bound
  import opened Evaluation
  import opened Evaluator
  import opened Conversions
  import opened Nullability
  import opened Syntax
  import opened Grouping
  import opened Extraction

  /** The grouping of a query that has extracted nothing yet. */
  function ByKeys(keys: seq<Expr>): Grouping {
    Grouping(keys, [], [])
  }

  /** Extraction is right of `e` in every setting of a query that groups by `keys`, over the
      scope `scope`. */
  ghost predicate AlwaysPreserved(rules: Rules, scope: Scope, keys: seq<Expr>, e: Syn) {
    forall s: Setting :: s.rules == rules && s.scope == scope && s.grouping == ByKeys(keys) && s.Computes() ==>
      var r := Rewrite(rules, scope, e, ByKeys(keys));
      r.Done? && Preserved(s, ByKeys(keys), e, r.value)
  }

  // ----- a column of an enclosing query -----

  function ColumnKeys(columns: seq<ColumnBinding>): (keys: seq<Expr>)
    ensures |keys| == |columns|
    ensures forall i :: 0 <= i < |columns| ==> keys[i] == ColumnRef(columns[i], columns[i].ty)
  {
    seq(|columns|, i requires 0 <= i < |columns| => ColumnRef(columns[i], columns[i].ty))
  }

  /** The same column to the comparison: identifier within its table, position and type. */
  predicate Twin(c: ColumnBinding, d: ColumnBinding) {
    c.column == d.column && c.index == d.index && c.ty == d.ty
  }

  function Widest(columns: seq<ColumnBinding>): (w: nat)
    ensures forall i :: 0 <= i < |columns| ==> columns[i].index < w
  {
    if columns == [] then 0
    else
      var rest := Widest(columns[1..]);
      assert forall i :: 1 <= i < |columns| ==> columns[i] == columns[1..][i - 1];
      if columns[0].index < rest then rest else columns[0].index + 1
  }

  /** Some implementation of the operators. */
  function AnySem(): Sem {
    Sem((_, _, _, _) => Error, (_, _) => Error, (_, _) => Error, (_, _, _) => 0, _ => Error, (_, _, _, _) => Error,
        (_, _, _, _) => Error, (_, _) => Error, (_, _, _) => false, _ => [], _ => Null)
  }

  /** One row per query, `Null` in this one and true in the enclosing ones. */
  function TwinSetting(rules: Rules, scope: Scope, keys: seq<ColumnBinding>, c: ColumnBinding): Setting {
    var width := Widest(keys + [c]);
    Setting(AnySem(), rules, scope, ByKeys(ColumnKeys(keys)), _ => false, _ => false, [],
            seq(width, _ => Null), seq(|keys|, _ => Null), [],
            seq(c.depth, _ => Plain(seq(width, _ => Truth(true)))))
  }

  lemma TwinComputes(rules: Rules, scope: Scope, keys: seq<ColumnBinding>, c: ColumnBinding)
    requires c.depth > 0 && forall i :: 0 <= i < |keys| ==> keys[i].depth == 0
    ensures var s := TwinSetting(rules, scope, keys, c); s.Computes() && Lookup(s.Env(), c) == Val(Truth(true))
  {
    var s := TwinSetting(rules, scope, keys, c);
    var all := keys + [c];
    assert all[|keys|] == c;
    forall i | 0 <= i < |keys| ensures Eval(s.sem, s.grouping.keys[i], [Plain(s.row)] + s.outer) == Val(s.slots[i]) {
      assert all[i] == keys[i];
    }
  }

  /** What a reference, in parentheses or after a `+` or not, is extracted to. */
  lemma {:induction false} ReferenceExtracted(rules: Rules, scope: Scope, keys: seq<Expr>, e: Syn, c: ColumnBinding)
    requires scope.slots == [] && !HoldsCall(e) && !HoldsQuery(e) && Bind(rules, scope, e) == Some(ColumnRef(c, c.ty)) && c.depth > 0
    ensures var r, k := Rewrite(rules, scope, e, ByKeys(keys)), KeyIndex(keys, ColumnRef(c, c.ty));
            r.Done? && r.grouping == ByKeys(keys)
            && Bind(rules, SlotScope(scope, ByKeys(keys)), r.value)
               == if k.Some? then Bind(rules, SlotScope(scope, ByKeys(keys)), SlotRef(k.value)) else Some(ColumnRef(c, c.ty))
  {
    if e.Nested? {
      ReferenceExtracted(rules, scope, keys, e.inner, c);
    } else if KeyIndex(keys, ColumnRef(c, c.ty)).None? {
      BindBesideSlots(rules, scope, SlotTypes(ByKeys(keys)), e);
    }
  }

  /** In any scope and whatever columns the query groups by, a column of an enclosing query is
      extracted right if and only if it is the twin of none of them. */
  lemma OuterColumnExtraction(rules: Rules, scope: Scope, keys: seq<ColumnBinding>, e: Syn, c: ColumnBinding)
    requires scope.slots == [] && !HoldsCall(e) && !HoldsQuery(e) && Bind(rules, scope, e) == Some(ColumnRef(c, c.ty)) && c.depth > 0
    requires forall i :: 0 <= i < |keys| ==> keys[i].depth == 0
    ensures AlwaysPreserved(rules, scope, ColumnKeys(keys), e) <==> forall i :: 0 <= i < |keys| ==> !Twin(c, keys[i])
  {
    var ks := ColumnKeys(keys);
    var r, k := Rewrite(rules, scope, e, ByKeys(ks)), KeyIndex(ks, ColumnRef(c, c.ty));
    ReferenceExtracted(rules, scope, ks, e, c);
    assert forall i :: 0 <= i < |keys| ==> (SameExpression(ks[i], ColumnRef(c, c.ty)) <==> Twin(c, keys[i]));
    if k.Some? {
      var s := TwinSetting(rules, scope, keys, c);
      TwinComputes(rules, scope, keys, c);
      TwinIsWrong(s, ks, e, r.value, k.value, c);
    } else {
      forall s: Setting | s.rules == rules && s.scope == scope && s.grouping == ByKeys(ks) && s.Computes()
        ensures Preserved(s, ByKeys(ks), e, r.value)
      {
        BindIsSeen(rules, scope, e);
        BindMeans(s.sem, rules, scope, e, s.group, s.Env());
      }
    }
  }

  lemma TwinIsWrong(s: Setting, keys: seq<Expr>, e: Syn, r: Syn, k: nat, c: ColumnBinding)
    requires s.grouping == ByKeys(keys) && k < |keys| == |s.slots| && s.slots[k] == Null && s.scope.slots == []
    requires Bind(s.rules, s.scope, e) == Some(ColumnRef(c, c.ty)) && Lookup(s.Env(), c) == Val(Truth(true))
    requires Bind(s.rules, SlotScope(s.scope, ByKeys(keys)), r) == Bind(s.rules, SlotScope(s.scope, ByKeys(keys)), SlotRef(k))
    ensures !Preserved(s, ByKeys(keys), e, r)
  {
    BindIsSeen(s.rules, s.scope, e);
    BindMeans(s.sem, s.rules, s.scope, e, s.group, s.Env());
    assert Eval(s.sem, Bind(s.rules, SlotScope(s.scope, ByKeys(keys)), SlotRef(k)).value, s.Env()) == Val(s.slots[k]);
  }

  // ----- a key that is a constant -----

  lemma {:induction false} LiteralKey(keys: seq<Expr>, value: Value, ty: TypeInfo)
    ensures KeyIndex(keys, Literal(value, ty)).Some? <==> Literal(value, ty) in keys
    decreases |keys|
  {
    if keys != [] { LiteralKey(keys[1..], value, ty); }
  }

  /** A literal after a `+` keeps what it is to the operator above it, a literal, if and only if the
      query does not group by that literal. */
  lemma SignedLiteralExtraction(rules: Rules, scope: Scope, keys: seq<Expr>, value: Value, ty: TypeInfo)
    requires scope.slots == []
    ensures var e := Plus(Lit(value, ty));
            var r := Rewrite(rules, scope, e, ByKeys(keys));
            r.Done? && var b := Bind(rules, SlotScope(scope, ByKeys(keys)), r.value);
            b.Some? && (ViewSyn(rules, scope, e) == Some(ViewOf(rules, b.value)) <==> Literal(value, ty) !in keys)
  {
    var e, literal := Plus(Lit(value, ty)), Literal(value, ty);
    LiteralKey(keys, value, ty);
    assert Bind(rules, scope, e.inner) == Some(literal);
    assert !HoldsCall(e.inner) && !HoldsQuery(e.inner);
    if KeyIndex(keys, literal).Some? {
      KeyIsSeen(rules, scope, ByKeys(keys), e, KeyIndex(keys, literal).value);
      assert !Clear(rules, scope, keys, e);
    } else {
      assert Rewrite(rules, scope, e.inner, ByKeys(keys)) == Done(e.inner, ByKeys(keys));
      assert RewriteChildren(rules, scope, e, ByKeys(keys)) == Done(e, ByKeys(keys));
      BindIsSeen(rules, scope, e);
      BindBesideSlots(rules, scope, SlotTypes(ByKeys(keys)), e);
    }
  }

  const ISNULL_CALL := FunctionDef("ISNULL", true, true)

  function CastTemplate(target: SqlType): Template {
    Build(Convert(None, false), [Hole(0)], NewType(target, true))
  }

  /** `ISNULL` reads the whole of a constant replacement, the type of another. */
  function IsNullTemplate(t: Tables, tested: View, replacement: View): Template {
    var mayBeNull := if replacement.constant.Some? then ReplacementMayBeNull(t, replacement.constant.value, tested.ty.ty)
                     else replacement.ty.nullable || !Lossless(replacement.ty.ty, tested.ty.ty);
    Build(Function(ISNULL_CALL), [Hole(0), Hole(1)], tested.ty.(nullable := tested.ty.nullable && mayBeNull))
  }

  /** Two of the rules of the binder. */
  function IsNullRules(t: Tables): Rules {
    Rules((form: Form, views: seq<View>) =>
            if form.CastForm? && |views| == 1 then Some(CastTemplate(form.target))
            else if form == FunctionForm("ISNULL") && |views| == 2 then Some(IsNullTemplate(t, views[0], views[1]))
            else None,
          (_, _) => Some(NewType(Int, true)), _ => 0, _ => 0, (_, _, _) => 0, (_, _) => 0)
  }

  const ONE := Lit(Integral(1), TypeInfo(Int, false, None))
  const CAST_ONE := Node(CastForm(Int), [ONE])
  const MAX_V := Call(CallHead("MAX", false, false), [Ref(Written("v"))], 0)

  const CAST_KEY := Op(Convert(None, false), [Literal(Integral(1), TypeInfo(Int, false, None))], NewType(Int, true))

  function IsNullScope(v: ColumnBinding): Scope {
    Scope(map["v" := v], [])
  }

  lemma CastBinds(t: Tables, v: ColumnBinding)
    ensures Bind(IsNullRules(t), IsNullScope(v), CAST_ONE) == Some(CAST_KEY)
  {
    var rules, scope := IsNullRules(t), IsNullScope(v);
    var one := Literal(Integral(1), TypeInfo(Int, false, None));
    assert Mentions(CastTemplate(Int), 0) by { assert Mentions(CastTemplate(Int).args[0], 0); }
    assert BindAll(rules, scope, [ONE]).value == [one] by { assert Bind(rules, scope, ONE) == Some(one); }
    assert FillAll([Hole(0)], [one]) == [one];
  }

  // ----- extraction of a constant -----

  /** A constant no part of which is a key is left as it is. */
  lemma {:induction false} ConstantUnchanged(rules: Rules, scope: Scope, e: Syn, g: Grouping)
    requires !HoldsCall(e) && !HoldsQuery(e) && Bind(rules, scope, e).Some? && ColumnFree(Bind(rules, scope, e).value)
    requires Clear(rules, scope, g.keys, e)
    ensures Rewrite(rules, scope, e, g) == Done(e, g)
    decreases e, 1
  {
    match e
    case Nested(inner) => ConstantUnchanged(rules, scope, inner, g);
    case Plus(inner) => ConstantUnchanged(rules, scope, inner, g);
    case Node(form, kids) =>
      var bound := BindAll(rules, scope, kids).value;
      var t := NodeTemplate(rules, form, ViewsOf(rules, bound)).value;
      FillColumnFree(t, bound);
      forall i | 0 <= i < |kids| ensures ColumnFree(Bind(rules, scope, kids[i]).value) { assert Mentions(t, i); }
      ConstantsUnchanged(rules, scope, kids, g);
    case _ =>
  }

  lemma {:induction false} ConstantsUnchanged(rules: Rules, scope: Scope, es: seq<Syn>, g: Grouping)
    requires forall i :: 0 <= i < |es| ==> !HoldsCall(es[i]) && !HoldsQuery(es[i]) && Bind(rules, scope, es[i]).Some?
    requires forall i :: 0 <= i < |es| ==> ColumnFree(Bind(rules, scope, es[i]).value) && Clear(rules, scope, g.keys, es[i])
    ensures RewriteAll(rules, scope, es, g) == Done(es, g)
    decreases es, 0
  {
    if es != [] {
      ConstantUnchanged(rules, scope, es[0], g);
      ConstantsUnchanged(rules, scope, es[1..], g);
      assert [es[0]] + es[1..] == es;
    }
  }

  /** What a constant becomes: itself, or a column of its type when it is a key. */
  ghost predicate Becomes(rules: Rules, scope: Scope, e: Syn, g: Grouping, r: Syn) {
    var b, x := Bind(rules, scope, e), Bind(rules, SlotScope(scope, g), r);
    b.Some? && x.Some? && if Clear(rules, scope, g.keys, e) then x == b else x.value.ColumnRef? && x.value.ty == b.value.ty
  }

  lemma {:induction false} ConstantExtracted(rules: Rules, scope: Scope, e: Syn, g: Grouping)
    requires scope.slots == [] && !HoldsCall(e) && !HoldsQuery(e)
    requires Bind(rules, scope, e).Some? && ColumnFree(Bind(rules, scope, e).value) && Apt(rules, scope, g.keys, e)
    ensures var r := Rewrite(rules, scope, e, g); r.Done? && r.grouping == g && Becomes(rules, scope, e, g, r.value)
    decreases e
  {
    if IsKey(rules, scope, g.keys, e) {
      var bound := Bind(rules, scope, e).value;
      var i := KeyIndex(g.keys, bound).value;
      assert SlotTypes(g)[i] == g.keys[i].ty == bound.ty;
    } else if e.Nested? || e.Plus? {
      ConstantExtracted(rules, scope, e.inner, g);
    } else {
      ConstantUnchanged(rules, scope, e, g);
      BindBesideSlots(rules, scope, SlotTypes(g), e);
    }
  }

  // ----- `ISNULL` over an aggregate -----

  /** The rule of `ISNULL` is that of the binder. */
  ghost predicate HasIsNull(rules: Rules, t: Tables) {
    forall views: seq<View> :: |views| == 2 ==>
      NodeTemplate(rules, FunctionForm("ISNULL"), views) == Some(IsNullTemplate(t, views[0], views[1]))
  }

  function IsNullOf(tested: Syn, replacement: Syn): Syn {
    Node(FunctionForm("ISNULL"), [tested, replacement])
  }

  /** An aggregate of the query, that may be null. */
  predicate NullableAggregate(rules: Rules, scope: Scope, e: Syn) {
    e.Call? && CallLevel(rules, scope, e) == Own && (forall i :: 0 <= i < |e.args| ==> !HoldsCall(e.args[i]))
    && BindCall(rules, scope, e).Some? && BindCall(rules, scope, e).value.1.nullable
  }

  /** A constant, none of the keys a proper part of it. */
  predicate ConstantReplacement(rules: Rules, scope: Scope, keys: seq<Expr>, e: Syn) {
    !HoldsCall(e) && !HoldsQuery(e) && Bind(rules, scope, e).Some? && ColumnFree(Bind(rules, scope, e).value)
    && Apt(rules, scope, keys, e)
  }

  /** What the binder says of the `NULL`s of a column of the `Aggregate` in the place of a
      replacement. */
  predicate ColumnMayBeNull(b: Expr, target: SqlType) {
    b.ty.nullable || !Lossless(b.ty.ty, target)
  }

  /** Whether `ISNULL` over an aggregate and a constant is announced nullable, as it is written and
      after the extraction, whatever the query groups by. The two agree if and only if the constant
      is no key, or its column tells of `NULL` what folding the constant does. */
  lemma IsNullNullability(t: Tables, rules: Rules, scope: Scope, keys: seq<Expr>, tested: Syn, replacement: Syn)
    requires HasIsNull(rules, t) && scope.slots == [] && NullableAggregate(rules, scope, tested)
    requires ConstantReplacement(rules, scope, keys, replacement)
    ensures var b, target := Bind(rules, scope, replacement).value, BindCall(rules, scope, tested).value.1.ty;
            var written := ViewSyn(rules, scope, IsNullOf(tested, replacement));
            var r := Rewrite(rules, scope, IsNullOf(tested, replacement), ByKeys(keys));
            written.Some? && r.Done? && Bind(rules, SlotScope(scope, r.grouping), r.value).Some?
            && var extracted := Bind(rules, SlotScope(scope, r.grouping), r.value).value;
               written.value.ty.nullable == ReplacementMayBeNull(t, b, target)
               && (written.value.ty.nullable == extracted.ty.nullable
                   <==> Clear(rules, scope, keys, replacement) || ReplacementMayBeNull(t, b, target) == ColumnMayBeNull(b, target))
  {
    var (call, ty) := BindCall(rules, scope, tested).value;
    var g := WithCall(ByKeys(keys), call, ty);
    IsNullWritten(t, rules, scope, tested, replacement);
    ConstantExtracted(rules, scope, replacement, g);
    var r := Rewrite(rules, scope, replacement, g).value;
    IsNullExtracted(rules, scope, keys, tested, replacement, g, r);
    IsNullBound(t, rules, scope, g, ty, r, Bind(rules, SlotScope(scope, g), r).value);
  }

  lemma IsNullWritten(t: Tables, rules: Rules, scope: Scope, tested: Syn, replacement: Syn)
    requires HasIsNull(rules, t) && NullableAggregate(rules, scope, tested)
    requires Bind(rules, scope, replacement).Some? && ColumnFree(Bind(rules, scope, replacement).value)
    ensures var b, target := Bind(rules, scope, replacement).value, BindCall(rules, scope, tested).value.1.ty;
            var written := ViewSyn(rules, scope, IsNullOf(tested, replacement));
            written.Some? && written.value.ty.nullable == ReplacementMayBeNull(t, b, target)
  {
    var b, ty := Bind(rules, scope, replacement).value, BindCall(rules, scope, tested).value.1;
    BindIsSeen(rules, scope, replacement);
    ViewTwo(rules, scope, tested, replacement, ViewOfColumn(rules, ty), ViewOf(rules, b));
    NodeSeen(t, rules, scope, tested, replacement, [ViewOfColumn(rules, ty), ViewOf(rules, b)]);
  }

  lemma NodeSeen(t: Tables, rules: Rules, scope: Scope, tested: Syn, replacement: Syn, views: seq<View>)
    requires HasIsNull(rules, t) && |views| == 2 && ViewSyns(rules, scope, [tested, replacement]) == Some(views)
    ensures var written := ViewSyn(rules, scope, IsNullOf(tested, replacement));
            written.Some? && written.value.ty == IsNullTemplate(t, views[0], views[1]).ty
  {
  }

  lemma ViewTwo(rules: Rules, scope: Scope, a: Syn, b: Syn, va: View, vb: View)
    requires ViewSyn(rules, scope, a) == Some(va) && ViewSyn(rules, scope, b) == Some(vb)
    ensures ViewSyns(rules, scope, [a, b]) == Some([va, vb])
  {
    assert ViewSyns(rules, scope, [a, b]).value == [va, vb];
  }

  lemma RewriteTwo(rules: Rules, scope: Scope, a: Syn, b: Syn, g: Grouping, ra: Syn, ga: Grouping, rb: Syn, gb: Grouping)
    requires Rewrite(rules, scope, a, g) == Done(ra, ga) && Rewrite(rules, scope, b, ga) == Done(rb, gb)
    ensures RewriteAll(rules, scope, [a, b], g) == Done([ra, rb], gb)
  {
    assert [a, b][1..] == [b] && [b][1..] == [];
    assert RewriteAll(rules, scope, [], gb) == Done([], gb);
    var tail := RewriteAll(rules, scope, [b], ga);
    assert tail == Done([rb] + [], gb);
    assert [rb] + [] == [rb] && [ra] + [rb] == [ra, rb];
  }

  lemma IsNullExtracted(rules: Rules, scope: Scope, keys: seq<Expr>, tested: Syn, replacement: Syn, g: Grouping, r: Syn)
    requires NullableAggregate(rules, scope, tested)
    requires g == WithCall(ByKeys(keys), BindCall(rules, scope, tested).value.0, BindCall(rules, scope, tested).value.1)
    requires Rewrite(rules, scope, replacement, g) == Done(r, g)
    ensures Rewrite(rules, scope, IsNullOf(tested, replacement), ByKeys(keys)) == Done(IsNullOf(SlotRef(|keys|), r), g)
  {
    assert CallIndex([], BindCall(rules, scope, tested).value.0) == 0;
    RewriteTwo(rules, scope, tested, replacement, ByKeys(keys), SlotRef(|keys|), g, r, g);
    var e := IsNullOf(tested, replacement);
    assert HoldsCall(e) by { assert HoldsCall(e.kids[0]); }
  }

  lemma IsNullBound(t: Tables, rules: Rules, scope: Scope, g: Grouping, ty: TypeInfo, r: Syn, x: Expr)
    requires HasIsNull(rules, t) && |g.callTypes| == 1 && g.callTypes[0] == ty && ty.nullable && Bind(rules, SlotScope(scope, g), r) == Some(x)
    requires ColumnFree(x) || x.ColumnRef?
    ensures var b := Bind(rules, SlotScope(scope, g), IsNullOf(SlotRef(|g.keys|), r));
            b.Some? && b.value.ty.nullable == if x.ColumnRef? then ColumnMayBeNull(x, ty.ty) else ReplacementMayBeNull(t, x, ty.ty)
  {
    var slots, kids := SlotScope(scope, g), [SlotRef(|g.keys|), r];
    var slot := Bind(rules, slots, SlotRef(|g.keys|)).value;
    assert SlotTypes(g)[|g.keys|] == ty;
    assert BindAll(rules, slots, kids).value == [slot, x];
    var views := ViewsOf(rules, [slot, x]);
    assert NodeTemplate(rules, FunctionForm("ISNULL"), views) == Some(IsNullTemplate(t, views[0], views[1]));
  }

  // ----- an instance -----

  lemma MaxIs(t: Tables, v: ColumnBinding)
    requires v.depth == 0
    ensures NullableAggregate(IsNullRules(t), IsNullScope(v), MAX_V)
    ensures BindCall(IsNullRules(t), IsNullScope(v), MAX_V).value.1 == NewType(Int, true)
  {
    var rules, scope := IsNullRules(t), IsNullScope(v);
    var arg := ColumnRef(v, v.ty);
    assert Bind(rules, scope, Ref(Written("v"))) == Some(arg);
    assert BindAll(rules, scope, MAX_V.args).value == [arg];
    assert DepthsAll([arg]) == [0] by { assert [arg][1..] == []; }
  }

  lemma IsNullBuilds(t: Tables)
    ensures HasIsNull(IsNullRules(t), t)
  {
    forall views: seq<View> | |views| == 2
      ensures NodeTemplate(IsNullRules(t), FunctionForm("ISNULL"), views) == Some(IsNullTemplate(t, views[0], views[1]))
    {
      var template := IsNullTemplate(t, views[0], views[1]);
      assert Mentions(template, 0) by { assert Mentions(template.args[0], 0); }
      assert Mentions(template, 1) by { assert Mentions(template.args[1], 1); }
      assert forall i :: 0 <= i < |template.args| ==> TemplateOk(template.args[i], 2);
    }
  }

  lemma CastIsKey(t: Tables, v: ColumnBinding)
    ensures Bind(IsNullRules(t), IsNullScope(v), CAST_ONE) == Some(CAST_KEY) && ColumnFree(CAST_KEY)
    ensures ConstantReplacement(IsNullRules(t), IsNullScope(v), [CAST_KEY], CAST_ONE)
    ensures !Clear(IsNullRules(t), IsNullScope(v), [CAST_KEY], CAST_ONE)
  {
    CastBinds(t, v);
    assert !HoldsCall(ONE) && !HoldsQuery(ONE) && CAST_ONE.kids == [ONE];
    assert SameExpression(CAST_KEY, CAST_KEY) by { assert SameExpression(CAST_KEY.args[0], CAST_KEY.args[0]); }
    assert ColumnFree(CAST_KEY) by { assert ColumnFree(CAST_KEY.args[0]); }
  }

  lemma CastFolds(t: Tables)
    ensures !ReplacementMayBeNull(t, CAST_KEY, Int) && ColumnMayBeNull(CAST_KEY, Int)
  {
    assert FoldedInteger(CAST_KEY.args[0]) == Some(1) && IsFoldable(t, CAST_KEY.args[0]);
  }

  /** `ISNULL(MAX(v), CAST(1 AS int))` is announced not nullable, and is nullable where the query
      groups by `CAST(1 AS int)`: the replacement, replaced by its column, is a constant no more. */
  lemma IsNullOverAConstantKey(t: Tables, v: ColumnBinding)
    requires v.depth == 0
    ensures var rules, scope, e := IsNullRules(t), IsNullScope(v), IsNullOf(MAX_V, CAST_ONE);
            Bind(rules, scope, CAST_ONE) == Some(CAST_KEY) && !Apt(rules, scope, [CAST_KEY], e)
            && ViewSyn(rules, scope, e).Some? && !ViewSyn(rules, scope, e).value.ty.nullable
            && var r := Rewrite(rules, scope, e, ByKeys([CAST_KEY]));
               r.Done? && var b := Bind(rules, SlotScope(scope, r.grouping), r.value); b.Some? && b.value.ty.nullable
  {
    MaxIs(t, v);
    IsNullBuilds(t);
    CastIsKey(t, v);
    CastFolds(t);
    IsNullNullability(t, IsNullRules(t), IsNullScope(v), [CAST_KEY], MAX_V, CAST_ONE);
    IsNullIsNotApt(t, v, IsNullOf(MAX_V, CAST_ONE));
  }

  lemma IsNullIsNotApt(t: Tables, v: ColumnBinding, e: Syn)
    requires e == IsNullOf(MAX_V, CAST_ONE)
    ensures !Apt(IsNullRules(t), IsNullScope(v), [CAST_KEY], e)
  {
    CastIsKey(t, v);
    assert HoldsCall(e) by { assert HoldsCall(e.kids[0]); }
    assert !Clear(IsNullRules(t), IsNullScope(v), [CAST_KEY], e.kids[1]);
  }
}
