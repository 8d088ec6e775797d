/** `ORDER BY` without `DISTINCT`: the widened projection, the `Sort` over it, the `Limit` of a
    `TOP`, and the last projection, against what they stand for: the source rows stably sorted by
    the keys, cut, and the select list computed on those left. */
module SortStack {
  import opened Options
  import opened Bound
  import opened Evaluation
  import opened Relational
  import opened Evaluator
  import opened Renaming
  import opened Ordering
  import opened Worklists

  datatype Projection = Projection(expr: Expr, name: Name)

  /** A key once resolved: `item` is the output column it was written as a position or a name
      of, `collation` the one of a `COLLATE` written on it. */
  datatype ResolvedKey = ResolvedKey(expr: Expr, desc: bool, collation: Option<nat>, item: Option<nat>)

  /** A key is its item, or an expression already under its `COLLATE`. */
  predicate KeyOk(key: ResolvedKey, items: seq<Projection>) {
    match key.item
    case Some(i) => key.collation.None? && (i < |items| ==> key.expr == items[i].expr)
    case None => key.collation.Some? ==> key.expr.ty.collation == key.collation
  }

  function Exprs(ps: seq<Projection>): (es: seq<Expr>)
    ensures |es| == |ps|
    ensures forall i :: 0 <= i < |ps| ==> es[i] == ps[i].expr
  {
    seq(|ps|, i requires 0 <= i < |ps| => ps[i].expr)
  }

  function KeyExprs(keys: seq<ResolvedKey>): (es: seq<Expr>)
    ensures |es| == |keys|
    ensures forall i :: 0 <= i < |keys| ==> es[i] == keys[i].expr
  {
    seq(|keys|, i requires 0 <= i < |keys| => keys[i].expr)
  }

  function Descending(keys: seq<ResolvedKey>): seq<bool> {
    seq(|keys|, i requires 0 <= i < |keys| => keys[i].desc)
  }

  function SchemaOf(ps: seq<Projection>): (s: Schema)
    ensures |s| == |ps|
    ensures forall i :: 0 <= i < |ps| ==> s[i] == OutputColumn(ps[i].name, ps[i].expr.ty)
  {
    seq(|ps|, i requires 0 <= i < |ps| => OutputColumn(ps[i].name, ps[i].expr.ty))
  }

  /** The reference to column `i` of a row of `schema`. */
  function ColumnOf(schema: Schema, i: nat): (e: Expr)
    requires i < |schema|
    ensures e.ColumnRef? && e.col.index == i && e.col.depth == 0 && e.ty == schema[i].ty
  {
    ColumnRef(ColumnBinding(Table(i), i, schema[i].name, schema[i].ty, 0), schema[i].ty)
  }

  /** An item computed over the ordered rows: one that reads a variable. */
  predicate Over(e: Expr) {
    !e.Literal? && ReadsVariable(e)
  }

  // ----- what an ORDER BY stands for -----

  function Cut(sem: Sem, rows: seq<Row>, top: Option<Expr>, outer: Env): Rows {
    if top.None? then Rows(rows) else LimitRows(rows, Eval(sem, top.value, [Plain([])] + outer))
  }

  /** A `TOP` of no row, under which nothing is evaluated. */
  predicate NoRow(sem: Sem, top: Option<Expr>, outer: Env) {
    top.Some? && Eval(sem, top.value, [Plain([])] + outer) == Val(Integral(0))
  }

  /** The keys, and the items not computed over the ordered rows, have a value on the row. */
  predicate Computable(sem: Sem, items: seq<Projection>, keys: seq<ResolvedKey>, row: Row, outer: Env) {
    AllValues(EvalAll(sem, KeyExprs(keys), [Plain(row)] + outer))
    && forall i :: 0 <= i < |items| && !Over(items[i].expr) ==> Eval(sem, items[i].expr, [Plain(row)] + outer).Val?
  }

  /** The source rows in the order of the keys. */
  function SortedBy(sem: Sem, keys: seq<ResolvedKey>, rows: seq<Row>, outer: Env): Rows {
    SortRows(sem, Types(KeyExprs(keys)), Descending(keys), rows, EvalOver(sem, KeyExprs(keys), rows, outer))
  }

  /** The select list on the first rows of the sorted source. */
  function OrderedSelect(sem: Sem, items: seq<Projection>, keys: seq<ResolvedKey>, top: Option<Expr>, rows: seq<Row>, outer: Env): Rows {
    if exists r :: 0 <= r < |rows| && !Computable(sem, items, keys, rows[r], outer) then Fail
    else
      var sorted := SortedBy(sem, keys, rows, outer);
      if sorted.Fail? then Fail
      else
        var cut := Cut(sem, sorted.rows, top, outer);
        if cut.Fail? then Fail else ProjectRows(EvalOver(sem, Exprs(items), cut.rows, outer))
  }

  /** Of this query, only columns of a source of `width` columns. */
  function FromSource(width: nat): ColumnBinding -> bool {
    (c: ColumnBinding) => c.depth == 0 ==> c.index < width
  }

  predicate Wide(rows: seq<Row>, width: nat) {
    forall r :: 0 <= r < |rows| ==> |rows[r]| >= width
  }

  /** `plan` is the ordered select over `source`, whatever the tables and the variables hold and
      wherever the query stands. */
  ghost predicate Orders(sem: Sem, plan: Plan, source: Plan, items: seq<Projection>, keys: seq<ResolvedKey>, top: Option<Expr>, outer: Env) {
    if NoRow(sem, top, outer) then EvalPlan(sem, plan, outer) == Rows([])
    else
      match EvalPlan(sem, source, outer)
      case Fail => EvalPlan(sem, plan, outer).Fail?
      case Rows(rows) =>
        Wide(rows, |source.schema|) && ReadsAll(Exprs(items), 0, FromSource(|source.schema|)) ==>
          EvalPlan(sem, plan, outer) == OrderedSelect(sem, items, keys, top, rows, outer)
  }

  // ----- the stack -----

  /** Where everything sits: each item computed under the `Sort` at `below`, each key at
      `positions`, the row of the source first when an item is computed over it. */
  datatype Layout = Layout(widened: seq<Projection>, below: seq<Option<nat>>, positions: seq<nat>)

  predicate SourceFirst(schema: Schema, widened: seq<Projection>) {
    |widened| >= |schema| && forall i :: 0 <= i < |schema| ==> widened[i].expr == ColumnOf(schema, i)
  }

  predicate ItemPlaced(schema: Schema, item: Projection, at: Option<nat>, widened: seq<Projection>) {
    if Over(item.expr) then at.None? && SourceFirst(schema, widened)
    else at.Some? && at.value < |widened| && widened[at.value].expr == item.expr
  }

  predicate KeyPlaced(key: ResolvedKey, at: nat, widened: seq<Projection>) {
    at < |widened| && widened[at].expr == key.expr
  }

  /** A column of the widened projection: one of the source, an item, or a key. */
  predicate Accounted(schema: Schema, items: seq<Projection>, keys: seq<ResolvedKey>, e: Expr) {
    (exists i :: 0 <= i < |schema| && e == ColumnOf(schema, i))
    || (exists i :: 0 <= i < |items| && !Over(items[i].expr) && e == items[i].expr)
    || exists k :: 0 <= k < |keys| && e == keys[k].expr
  }

  predicate Laid(schema: Schema, items: seq<Projection>, keys: seq<ResolvedKey>, l: Layout) {
    |l.below| == |items| && |l.positions| == |keys|
    && (forall i :: 0 <= i < |items| ==> ItemPlaced(schema, items[i], l.below[i], l.widened))
    && (forall k :: 0 <= k < |keys| ==> KeyPlaced(keys[k], l.positions[k], l.widened))
    && forall j :: 0 <= j < |l.widened| ==> Accounted(schema, items, keys, l.widened[j].expr)
  }

  /** The key of the `Sort`: the column of the widened row, under the collation written. */
  function KeyReference(schema: Schema, key: ResolvedKey, at: nat): (e: Expr)
    requires at < |schema|
  {
    var column := ColumnOf(schema, at);
    if key.collation.None? then column else ColumnRef(column.col, column.ty.(collation := key.collation))
  }

  /** An item of the last projection. */
  function VisibleItem(schema: Schema, item: Projection, at: Option<nat>): Expr
    requires at.Some? ==> at.value < |schema|
  {
    if at.Some? && !item.expr.Literal? then ColumnOf(schema, at.value) else item.expr
  }

  function KeyReferences(keys: seq<ResolvedKey>, positions: seq<nat>, schema: Schema): (es: seq<Expr>)
    requires |positions| == |keys| && Below(positions, |schema|)
    ensures |es| == |keys|
    ensures forall k :: 0 <= k < |keys| ==> es[k] == KeyReference(schema, keys[k], positions[k])
  {
    seq(|keys|, k requires 0 <= k < |keys| => KeyReference(schema, keys[k], positions[k]))
  }

  function VisibleItems(schema: Schema, items: seq<Projection>, below: seq<Option<nat>>): (es: seq<Expr>)
    requires |below| == |items| && forall i :: 0 <= i < |items| && below[i].Some? ==> below[i].value < |schema|
    ensures |es| == |items|
    ensures forall i :: 0 <= i < |items| ==> es[i] == VisibleItem(schema, items[i], below[i])
  {
    seq(|items|, i requires 0 <= i < |items| => VisibleItem(schema, items[i], below[i]))
  }

  function Limited(plan: Plan, top: Option<Expr>): Plan {
    if top.None? then plan else LimitOver(plan, top.value)
  }

  function Stack(source: Plan, items: seq<Projection>, schema: Schema, keys: seq<ResolvedKey>, top: Option<Expr>, l: Layout): Plan
    requires Laid(source.schema, items, keys, l)
  {
    var widenedSchema := SchemaOf(l.widened);
    var widened := ProjectOver(source, Exprs(l.widened), widenedSchema);
    var sorted := SortOver(widened, KeyReferences(keys, l.positions, widenedSchema), Descending(keys));
    ProjectOver(Limited(sorted, top), VisibleItems(widenedSchema, items, l.below), schema)
  }

  // ----- one row of the widened projection -----

  /** The row of the widened projection holds the value of each of its expressions. */
  function WidenedRow(sem: Sem, l: Layout, row: Row, outer: Env): Row
    requires AllValues(EvalAll(sem, Exprs(l.widened), [Plain(row)] + outer))
  {
    ValuesOf(EvalAll(sem, Exprs(l.widened), [Plain(row)] + outer))
  }

  /** Every expression of the widened projection has a value exactly where the keys and the
      items under the `Sort` do. */
  lemma WidenedComputable(sem: Sem, schema: Schema, items: seq<Projection>, keys: seq<ResolvedKey>, l: Layout, row: Row, outer: Env)
    requires Laid(schema, items, keys, l) && |row| >= |schema|
    ensures AllValues(EvalAll(sem, Exprs(l.widened), [Plain(row)] + outer)) <==> Computable(sem, items, keys, row, outer)
  {
    var env := [Plain(row)] + outer;
    var outs := EvalAll(sem, Exprs(l.widened), env);
    if AllValues(outs) {
      forall k | 0 <= k < |keys| ensures Eval(sem, keys[k].expr, env).Val? {
        assert KeyPlaced(keys[k], l.positions[k], l.widened);
        assert outs[l.positions[k]].Val?;
      }
      forall i | 0 <= i < |items| && !Over(items[i].expr) ensures Eval(sem, items[i].expr, env).Val? {
        assert ItemPlaced(schema, items[i], l.below[i], l.widened);
        assert outs[l.below[i].value].Val?;
      }
    }
    if Computable(sem, items, keys, row, outer) {
      forall j | 0 <= j < |l.widened| ensures outs[j].Val? {
        AccountedComputable(sem, schema, items, keys, l.widened[j].expr, row, outer);
      }
    }
  }

  lemma AccountedComputable(sem: Sem, schema: Schema, items: seq<Projection>, keys: seq<ResolvedKey>, e: Expr, row: Row, outer: Env)
    requires Accounted(schema, items, keys, e) && |row| >= |schema| && Computable(sem, items, keys, row, outer)
    ensures Eval(sem, e, [Plain(row)] + outer).Val?
  {
    if k :| 0 <= k < |keys| && e == keys[k].expr {
      assert EvalAll(sem, KeyExprs(keys), [Plain(row)] + outer)[k].Val?;
    }
  }

  /** The keys of the `Sort` are the values of the keys on the source row. */
  lemma KeyReferencesMean(sem: Sem, schema: Schema, items: seq<Projection>, keys: seq<ResolvedKey>, l: Layout, row: Row, outer: Env)
    requires Laid(schema, items, keys, l) && AllValues(EvalAll(sem, Exprs(l.widened), [Plain(row)] + outer))
    ensures EvalAll(sem, KeyReferences(keys, l.positions, SchemaOf(l.widened)), [Plain(WidenedRow(sem, l, row, outer))] + outer)
            == EvalAll(sem, KeyExprs(keys), [Plain(row)] + outer)
  {
    var refs := KeyReferences(keys, l.positions, SchemaOf(l.widened));
    var wide := [Plain(WidenedRow(sem, l, row, outer))] + outer;
    forall k | 0 <= k < |keys| ensures Eval(sem, refs[k], wide) == Eval(sem, keys[k].expr, [Plain(row)] + outer) {
      assert KeyPlaced(keys[k], l.positions[k], l.widened);
    }
  }

  /** The last projection computes the select list of the source row. */
  lemma VisibleItemsMean(sem: Sem, schema: Schema, items: seq<Projection>, keys: seq<ResolvedKey>, l: Layout, row: Row, outer: Env)
    requires Laid(schema, items, keys, l) && AllValues(EvalAll(sem, Exprs(l.widened), [Plain(row)] + outer))
    requires |row| >= |schema| && ReadsAll(Exprs(items), 0, FromSource(|schema|))
    ensures EvalAll(sem, VisibleItems(SchemaOf(l.widened), items, l.below), [Plain(WidenedRow(sem, l, row, outer))] + outer)
            == EvalAll(sem, Exprs(items), [Plain(row)] + outer)
  {
    var visible := VisibleItems(SchemaOf(l.widened), items, l.below);
    var wide := [Plain(WidenedRow(sem, l, row, outer))] + outer;
    forall i | 0 <= i < |items| ensures Eval(sem, visible[i], wide) == Eval(sem, items[i].expr, [Plain(row)] + outer) {
      assert ItemPlaced(schema, items[i], l.below[i], l.widened);
      if Over(items[i].expr) {
        assert Reads(Exprs(items)[i], 0, FromSource(|schema|));
        SourcePrefix(sem, schema, items[i].expr, l, row, outer);
      }
    }
  }

  /** An item over the ordered rows reads its columns in the prefix that repeats the source. */
  lemma SourcePrefix(sem: Sem, schema: Schema, e: Expr, l: Layout, row: Row, outer: Env)
    requires SourceFirst(schema, l.widened) && AllValues(EvalAll(sem, Exprs(l.widened), [Plain(row)] + outer))
    requires |row| >= |schema| && Reads(e, 0, FromSource(|schema|))
    ensures Eval(sem, e, [Plain(WidenedRow(sem, l, row, outer))] + outer) == Eval(sem, e, [Plain(row)] + outer)
  {
    var narrow, wide := [Plain(row)] + outer, [Plain(WidenedRow(sem, l, row, outer))] + outer;
    forall c | FromSource(|schema|)(c) ensures Lookup(narrow, c) == Lookup(wide, c) {
      if c.depth == 0 { assert l.widened[c.index].expr == ColumnOf(schema, c.index); }
    }
    EvalAgrees(sem, e, FromSource(|schema|), narrow, wide);
  }

  // ----- the rows, through the stack -----

  /** Row by row, `wide` is the widened projection of `rows`. */
  predicate Mirrors(sem: Sem, l: Layout, rows: seq<Row>, wide: seq<Row>, outer: Env) {
    |wide| == |rows|
    && forall r :: 0 <= r < |rows| ==>
         AllValues(EvalAll(sem, Exprs(l.widened), [Plain(rows[r])] + outer)) && wide[r] == WidenedRow(sem, l, rows[r], outer)
  }

  lemma ProjectIs(sem: Sem, source: Plan, exprs: seq<Expr>, schema: Schema, rows: seq<Row>, outer: Env)
    requires EvalPlan(sem, source, outer) == Rows(rows)
    ensures EvalPlan(sem, ProjectOver(source, exprs, schema), outer) == ProjectRows(EvalOver(sem, exprs, rows, outer))
  {
    EvalUnary(sem, ProjectOver(source, exprs, schema), outer);
  }

  lemma WidenedCells(sem: Sem, schema: Schema, items: seq<Projection>, keys: seq<ResolvedKey>, l: Layout, rows: seq<Row>, outer: Env)
    requires Laid(schema, items, keys, l) && Wide(rows, |schema|)
    ensures var out := ProjectRows(EvalOver(sem, Exprs(l.widened), rows, outer));
            if exists r :: 0 <= r < |rows| && !Computable(sem, items, keys, rows[r], outer) then out.Fail?
            else out.Rows? && Mirrors(sem, l, rows, out.rows, outer)
  {
    var cells := EvalOver(sem, Exprs(l.widened), rows, outer);
    forall r | 0 <= r < |rows| ensures AllValues(cells[r]) <==> Computable(sem, items, keys, rows[r], outer) {
      WidenedComputable(sem, schema, items, keys, l, rows[r], outer);
    }
    if r :| 0 <= r < |rows| && !Computable(sem, items, keys, rows[r], outer) {
      assert !AllValues(cells[r]);
    }
  }

  lemma WidenedRows(sem: Sem, source: Plan, items: seq<Projection>, keys: seq<ResolvedKey>, l: Layout, rows: seq<Row>, outer: Env)
    requires Laid(source.schema, items, keys, l) && EvalPlan(sem, source, outer) == Rows(rows) && Wide(rows, |source.schema|)
    ensures var out := EvalPlan(sem, ProjectOver(source, Exprs(l.widened), SchemaOf(l.widened)), outer);
            if exists r :: 0 <= r < |rows| && !Computable(sem, items, keys, rows[r], outer) then out.Fail?
            else out.Rows? && Mirrors(sem, l, rows, out.rows, outer)
  {
    ProjectIs(sem, source, Exprs(l.widened), SchemaOf(l.widened), rows, outer);
    WidenedCells(sem, source.schema, items, keys, l, rows, outer);
  }

  /** The keys of the `Sort` order by the types of the keys. */
  lemma KeyCollations(schema: Schema, items: seq<Projection>, keys: seq<ResolvedKey>, l: Layout)
    requires Laid(schema, items, keys, l) && forall k :: 0 <= k < |keys| ==> KeyOk(keys[k], items)
    ensures Collations(Types(KeyReferences(keys, l.positions, SchemaOf(l.widened)))) == Collations(Types(KeyExprs(keys)))
  {
    var refs := KeyReferences(keys, l.positions, SchemaOf(l.widened));
    forall k | 0 <= k < |keys| ensures refs[k].ty.collation == keys[k].expr.ty.collation {
      assert KeyPlaced(keys[k], l.positions[k], l.widened);
    }
  }

  /** The `Sort` of the widened rows orders them as the source rows are. */
  lemma SortedRows(sem: Sem, schema: Schema, items: seq<Projection>, keys: seq<ResolvedKey>, l: Layout, rows: seq<Row>, wide: seq<Row>, outer: Env)
    requires Laid(schema, items, keys, l) && Mirrors(sem, l, rows, wide, outer)
    requires forall k :: 0 <= k < |keys| ==> KeyOk(keys[k], items)
    ensures var refs := KeyReferences(keys, l.positions, SchemaOf(l.widened));
            var out := SortRows(sem, Types(refs), Descending(keys), wide, EvalOver(sem, refs, wide, outer));
            var sorted := SortedBy(sem, keys, rows, outer);
            out.Fail? == sorted.Fail? && (sorted.Rows? ==> Mirrors(sem, l, sorted.rows, out.rows, outer))
  {
    var refs := KeyReferences(keys, l.positions, SchemaOf(l.widened));
    KeyCollations(schema, items, keys, l);
    forall r | 0 <= r < |rows|
      ensures EvalAll(sem, refs, [Plain(wide[r])] + outer) == EvalAll(sem, KeyExprs(keys), [Plain(rows[r])] + outer)
    {
      KeyReferencesMean(sem, schema, items, keys, l, rows[r], outer);
    }
    assert EvalOver(sem, refs, wide, outer) == EvalOver(sem, KeyExprs(keys), rows, outer);
  }

  lemma CutRows(sem: Sem, l: Layout, rows: seq<Row>, wide: seq<Row>, top: Option<Expr>, outer: Env)
    requires Mirrors(sem, l, rows, wide, outer)
    ensures var out, cut := Cut(sem, wide, top, outer), Cut(sem, rows, top, outer);
            out.Fail? == cut.Fail? && (cut.Rows? ==> Mirrors(sem, l, cut.rows, out.rows, outer))
  {
  }

  lemma LimitedPlan(sem: Sem, plan: Plan, top: Option<Expr>, rows: seq<Row>, outer: Env)
    requires EvalPlan(sem, plan, outer) == Rows(rows)
    ensures EvalPlan(sem, Limited(plan, top), outer) == Cut(sem, rows, top, outer)
  {
    if top.Some? {
      EvalUnary(sem, LimitOver(plan, top.value), outer);
      assert EvalOver(sem, [top.value], [[]], outer)[0] == [Eval(sem, top.value, [Plain([])] + outer)];
    }
  }

  lemma FailsThrough(sem: Sem, plan: Plan, outer: Env)
    requires |plan.inputs| == 1 && !plan.op.Derived? && !plan.op.Limit? && EvalPlan(sem, plan.inputs[0], outer).Fail?
    ensures EvalPlan(sem, plan, outer).Fail?
  {
    EvalUnary(sem, plan, outer);
  }

  lemma WideKept(sem: Sem, keys: seq<ResolvedKey>, rows: seq<Row>, top: Option<Expr>, width: nat, outer: Env)
    requires Wide(rows, width)
    ensures var sorted := SortedBy(sem, keys, rows, outer);
            sorted.Rows? ==>
              Wide(sorted.rows, width)
              && (Cut(sem, sorted.rows, top, outer).Rows? ==> Wide(Cut(sem, sorted.rows, top, outer).rows, width))
  {
  }

  /** The last projection. */
  lemma VisibleRows(sem: Sem, schema: Schema, items: seq<Projection>, keys: seq<ResolvedKey>, l: Layout, rows: seq<Row>, wide: seq<Row>, outer: Env)
    requires Laid(schema, items, keys, l) && Mirrors(sem, l, rows, wide, outer)
    requires Wide(rows, |schema|) && ReadsAll(Exprs(items), 0, FromSource(|schema|))
    ensures EvalOver(sem, VisibleItems(SchemaOf(l.widened), items, l.below), wide, outer) == EvalOver(sem, Exprs(items), rows, outer)
  {
    var visible := VisibleItems(SchemaOf(l.widened), items, l.below);
    forall r | 0 <= r < |rows|
      ensures EvalAll(sem, visible, [Plain(wide[r])] + outer) == EvalAll(sem, Exprs(items), [Plain(rows[r])] + outer)
    {
      VisibleItemsMean(sem, schema, items, keys, l, rows[r], outer);
    }
  }

  lemma SortIs(sem: Sem, plan: Plan, exprs: seq<Expr>, desc: seq<bool>, rows: seq<Row>, outer: Env)
    requires EvalPlan(sem, plan, outer) == Rows(rows)
    ensures EvalPlan(sem, SortOver(plan, exprs, desc), outer) == SortRows(sem, Types(exprs), desc, rows, EvalOver(sem, exprs, rows, outer))
  {
    EvalUnary(sem, SortOver(plan, exprs, desc), outer);
  }

  /** The `Sort` over the widened projection. */
  lemma SortedWide(sem: Sem, source: Plan, items: seq<Projection>, keys: seq<ResolvedKey>, l: Layout, widened: Plan, refs: seq<Expr>,
                   rows: seq<Row>, outer: Env)
    requires Laid(source.schema, items, keys, l) && EvalPlan(sem, source, outer) == Rows(rows) && Wide(rows, |source.schema|)
    requires forall k :: 0 <= k < |keys| ==> KeyOk(keys[k], items)
    requires widened == ProjectOver(source, Exprs(l.widened), SchemaOf(l.widened))
    requires refs == KeyReferences(keys, l.positions, SchemaOf(l.widened))
    ensures var out := EvalPlan(sem, SortOver(widened, refs, Descending(keys)), outer);
            var sorted := SortedBy(sem, keys, rows, outer);
            if (exists r :: 0 <= r < |rows| && !Computable(sem, items, keys, rows[r], outer)) || sorted.Fail? then out.Fail?
            else out.Rows? && Mirrors(sem, l, sorted.rows, out.rows, outer)
  {
    WidenedRows(sem, source, items, keys, l, rows, outer);
    var wide := EvalPlan(sem, widened, outer);
    if wide.Rows? {
      SortIs(sem, widened, refs, Descending(keys), wide.rows, outer);
      SortedRows(sem, source.schema, items, keys, l, rows, wide.rows, outer);
    } else {
      FailsThrough(sem, SortOver(widened, refs, Descending(keys)), outer);
    }
  }

  /** What a `Limit` hands out. */
  lemma LimitHands(sem: Sem, plan: Plan, count: Expr, outer: Env)
    ensures EvalStream(sem, LimitOver(plan, count), outer)
         == LimitStream(EvalStream(sem, plan, outer), Eval(sem, count, [Plain([])] + outer))
  {
    StreamUnary(sem, LimitOver(plan, count), outer);
    assert EvalOver(sem, [count], [[]], outer)[0] == [Eval(sem, count, [Plain([])] + outer)];
  }

  /** A `Sort` that fails hands out no row before. */
  lemma SortHandsNone(sem: Sem, plan: Plan, outer: Env)
    requires plan.op.Sort? && |plan.inputs| == 1 && EvalPlan(sem, plan, outer).Fail?
    ensures EvalStream(sem, plan, outer).rows == []
  {
    StreamUnary(sem, plan, outer);
  }

  lemma LimitedFails(sem: Sem, plan: Plan, top: Option<Expr>, outer: Env)
    requires plan.op.Sort? && |plan.inputs| == 1 && EvalPlan(sem, plan, outer).Fail? && !NoRow(sem, top, outer)
    ensures EvalPlan(sem, Limited(plan, top), outer).Fail?
  {
    SortHandsNone(sem, plan, outer);
    if top.Some? { LimitHands(sem, plan, top.value, outer); }
  }

  /** The `Sort` over the widened projection, then the `Limit`. */
  lemma SortedPlan(sem: Sem, source: Plan, items: seq<Projection>, keys: seq<ResolvedKey>, top: Option<Expr>, l: Layout, widened: Plan, refs: seq<Expr>,
                   rows: seq<Row>, outer: Env)
    requires Laid(source.schema, items, keys, l) && EvalPlan(sem, source, outer) == Rows(rows) && Wide(rows, |source.schema|)
    requires forall k :: 0 <= k < |keys| ==> KeyOk(keys[k], items)
    requires widened == ProjectOver(source, Exprs(l.widened), SchemaOf(l.widened))
    requires refs == KeyReferences(keys, l.positions, SchemaOf(l.widened)) && !NoRow(sem, top, outer)
    ensures var out := EvalPlan(sem, Limited(SortOver(widened, refs, Descending(keys)), top), outer);
            var sorted := SortedBy(sem, keys, rows, outer);
            if (exists r :: 0 <= r < |rows| && !Computable(sem, items, keys, rows[r], outer)) || sorted.Fail?
               || Cut(sem, sorted.rows, top, outer).Fail?
            then out.Fail?
            else out.Rows? && Mirrors(sem, l, Cut(sem, sorted.rows, top, outer).rows, out.rows, outer)
  {
    SortedWide(sem, source, items, keys, l, widened, refs, rows, outer);
    var sort := SortOver(widened, refs, Descending(keys));
    var sorted := EvalPlan(sem, sort, outer);
    if sorted.Rows? {
      LimitedPlan(sem, sort, top, sorted.rows, outer);
      CutRows(sem, l, SortedBy(sem, keys, rows, outer).rows, sorted.rows, top, outer);
    } else {
      LimitedFails(sem, sort, top, outer);
    }
  }

  /** The stack computes the ordered select: the source rows stably sorted by the values of the
      keys, the first of them the `TOP` keeps, and the select list on each. */
  lemma StackOrders(sem: Sem, source: Plan, items: seq<Projection>, schema: Schema, keys: seq<ResolvedKey>, top: Option<Expr>, l: Layout, outer: Env)
    requires Laid(source.schema, items, keys, l) && forall k :: 0 <= k < |keys| ==> KeyOk(keys[k], items)
    ensures Orders(sem, Stack(source, items, schema, keys, top, l), source, items, keys, top, outer)
  {
    if NoRow(sem, top, outer) {
      StackOfNone(sem, source, items, schema, keys, top, l, outer);
    } else if EvalPlan(sem, source, outer).Fail? {
      StackFails(sem, source, items, schema, keys, top, l, outer);
    } else if Wide(EvalPlan(sem, source, outer).rows, |source.schema|) && ReadsAll(Exprs(items), 0, FromSource(|source.schema|)) {
      StackRows(sem, source, items, schema, keys, top, l, EvalPlan(sem, source, outer).rows, outer);
    }
  }

  lemma StackOfNone(sem: Sem, source: Plan, items: seq<Projection>, schema: Schema, keys: seq<ResolvedKey>, top: Option<Expr>, l: Layout, outer: Env)
    requires Laid(source.schema, items, keys, l) && NoRow(sem, top, outer)
    ensures EvalPlan(sem, Stack(source, items, schema, keys, top, l), outer) == Rows([])
  {
    var widened := ProjectOver(source, Exprs(l.widened), SchemaOf(l.widened));
    var sort := SortOver(widened, KeyReferences(keys, l.positions, SchemaOf(l.widened)), Descending(keys));
    LimitHands(sem, sort, top.value, outer);
    ProjectIs(sem, LimitOver(sort, top.value), VisibleItems(SchemaOf(l.widened), items, l.below), schema, [], outer);
  }

  lemma StackFails(sem: Sem, source: Plan, items: seq<Projection>, schema: Schema, keys: seq<ResolvedKey>, top: Option<Expr>, l: Layout, outer: Env)
    requires Laid(source.schema, items, keys, l) && EvalPlan(sem, source, outer).Fail? && !NoRow(sem, top, outer)
    ensures EvalPlan(sem, Stack(source, items, schema, keys, top, l), outer).Fail?
  {
    var plan := Stack(source, items, schema, keys, top, l);
    var widened := ProjectOver(source, Exprs(l.widened), SchemaOf(l.widened));
    var sort := SortOver(widened, KeyReferences(keys, l.positions, SchemaOf(l.widened)), Descending(keys));
    FailsThrough(sem, widened, outer);
    FailsThrough(sem, sort, outer);
    LimitedFails(sem, sort, top, outer);
    FailsThrough(sem, plan, outer);
  }

  lemma StackRows(sem: Sem, source: Plan, items: seq<Projection>, schema: Schema, keys: seq<ResolvedKey>, top: Option<Expr>, l: Layout,
                  rows: seq<Row>, outer: Env)
    requires Laid(source.schema, items, keys, l) && forall k :: 0 <= k < |keys| ==> KeyOk(keys[k], items)
    requires EvalPlan(sem, source, outer) == Rows(rows) && Wide(rows, |source.schema|)
    requires ReadsAll(Exprs(items), 0, FromSource(|source.schema|)) && !NoRow(sem, top, outer)
    ensures EvalPlan(sem, Stack(source, items, schema, keys, top, l), outer) == OrderedSelect(sem, items, keys, top, rows, outer)
  {
    var widened := ProjectOver(source, Exprs(l.widened), SchemaOf(l.widened));
    var refs := KeyReferences(keys, l.positions, SchemaOf(l.widened));
    var limited := Limited(SortOver(widened, refs, Descending(keys)), top);
    var visible := VisibleItems(SchemaOf(l.widened), items, l.below);
    SortedPlan(sem, source, items, keys, top, l, widened, refs, rows, outer);
    var out := EvalPlan(sem, limited, outer);
    if out.Rows? {
      WideKept(sem, keys, rows, top, |source.schema|, outer);
      var cut := Cut(sem, SortedBy(sem, keys, rows, outer).rows, top, outer).rows;
      VisibleRows(sem, source.schema, items, keys, l, cut, out.rows, outer);
      ProjectIs(sem, limited, visible, schema, out.rows, outer);
    } else {
      FailsThrough(sem, ProjectOver(limited, visible, schema), outer);
    }
  }

  /** The order is the stable sort on the values of the keys: there is a permutation of the rows,
      sorted, rows of equal keys as they came, and every such permutation gives these rows. */
  lemma SortedByIsStable(sem: Sem, keys: seq<ResolvedKey>, rows: seq<Row>, outer: Env)
    requires OrderLaws(sem) && SortedBy(sem, keys, rows, outer).Rows?
    ensures var ks := ProjectRows(EvalOver(sem, KeyExprs(keys), rows, outer));
            var keying := Keying(Collations(Types(KeyExprs(keys))), Descending(keys));
            ks.Rows?
            && (exists perm :: Permutation(perm, |rows|) && StablySorted(sem, keying, ks.rows, perm))
            && forall perm :: Permutation(perm, |rows|) && StablySorted(sem, keying, ks.rows, perm) ==>
                 SortedBy(sem, keys, rows, outer).rows == Permuted(rows, perm)
  {
    var ks := ProjectRows(EvalOver(sem, KeyExprs(keys), rows, outer)).rows;
    var keying := Keying(Collations(Types(KeyExprs(keys))), Descending(keys));
    OrderIsStableSort(sem, keying, ks, |keys|, |rows|);
    var order := Order(sem, keying.colls, keying.desc, ks, |rows|);
    assert SortedBy(sem, keys, rows, outer).rows == Permuted(rows, order);
    forall perm | Permutation(perm, |rows|) && StablySorted(sem, keying, ks, perm) ensures perm == order {
      StableSortIsOrder(sem, keying, ks, |keys|, perm);
    }
  }

  // ----- building it -----

  /** `project_the_keys`. */
  method ProjectTheKeys(keys: seq<ResolvedKey>, positions: seq<nat>, schema: Schema) returns (bound: seq<Expr>)
    requires |positions| == |keys| && Below(positions, |schema|)
    ensures bound == KeyReferences(keys, positions, schema)
  {
    bound := [];
    for rank := 0 to |keys|
      invariant |bound| == rank
      invariant forall k :: 0 <= k < rank ==> bound[k] == KeyReference(schema, keys[k], positions[k])
    {
      bound := bound + [KeyReference(schema, keys[rank], positions[rank])];
    }
  }

  /** The source row, when an item is computed over it, then each item computed under the
      `Sort`, and where it went. */
  method WidenItems(schema: Schema, items: seq<Projection>) returns (widened: seq<Projection>, below: seq<Option<nat>>)
    ensures |below| == |items|
    ensures forall i :: 0 <= i < |items| ==> ItemPlaced(schema, items[i], below[i], widened)
    ensures forall j :: 0 <= j < |widened| ==> Accounted(schema, items, [], widened[j].expr)
  {
    var above := seq(|items|, i requires 0 <= i < |items| => Over(items[i].expr));
    widened := [];
    if true in above {
      widened := seq(|schema|, i requires 0 <= i < |schema| => Projection(ColumnOf(schema, i), schema[i].name));
    }
    below := [];
    for i := 0 to |items|
      invariant |below| == i
      invariant true in above ==> SourceFirst(schema, widened)
      invariant forall x :: 0 <= x < i ==> ItemPlaced(schema, items[x], below[x], widened)
      invariant forall j :: 0 <= j < |widened| ==> Accounted(schema, items, [], widened[j].expr)
    {
      if above[i] {
        below := below + [None];
      } else {
        ghost var before := widened;
        widened := widened + [items[i]];
        below := below + [Some(|widened| - 1)];
        assert forall x :: 0 <= x < i && ItemPlaced(schema, items[x], below[x], before) ==> ItemPlaced(schema, items[x], below[x], widened);
      }
    }
  }

  /** `sort_over_the_projection`: the stack of an `ORDER BY` without `DISTINCT`. It orders the
      select, for every source, select list, list of keys and `TOP`. */
  method SortOverTheProjection(source: Plan, items: seq<Projection>, schema: Schema, keys: seq<ResolvedKey>, top: Option<Expr>)
    returns (plan: Option<Plan>)
    requires forall k :: 0 <= k < |keys| ==> KeyOk(keys[k], items)
    ensures plan.None? <==> exists k :: 0 <= k < |keys| && keys[k].item.Some? && keys[k].item.value >= |items|
    ensures plan.Some? ==> forall sem, outer :: Orders(sem, plan.value, source, items, keys, top, outer)
  {
    var widened, below := WidenItems(source.schema, items);
    var positions: seq<nat> := [];
    for k := 0 to |keys|
      invariant |positions| == k && Below(positions, |widened|)
      invariant forall x :: 0 <= x < k ==> keys[x].item.Some? ==> keys[x].item.value < |items|
      invariant forall i :: 0 <= i < |items| ==> ItemPlaced(source.schema, items[i], below[i], widened)
      invariant forall x :: 0 <= x < k ==> KeyPlaced(keys[x], positions[x], widened)
      invariant forall j :: 0 <= j < |widened| ==> Accounted(source.schema, items, keys, widened[j].expr)
    {
      var key := keys[k];
      if key.item.Some? && key.item.value >= |items| { return None; }
      if key.item.Some? && below[key.item.value].Some? {
        positions := positions + [below[key.item.value].value];
      } else {
        var hidden := Projection(if key.item.Some? then items[key.item.value].expr else key.expr, Written(""));
        LayMore(source.schema, items, keys, Layout(widened, below, positions), hidden, k);
        widened := widened + [hidden];
        positions := positions + [|widened| - 1];
      }
    }
    var widenedSchema := SchemaOf(widened);
    var refs := ProjectTheKeys(keys, positions, widenedSchema);
    var sorted := SortOver(ProjectOver(source, Exprs(widened), widenedSchema), refs, Descending(keys));
    var visible := VisibleItems(widenedSchema, items, below);
    plan := Some(ProjectOver(Limited(sorted, top), visible, schema));
    ghost var l := Layout(widened, below, positions);
    forall sem, outer ensures Orders(sem, plan.value, source, items, keys, top, outer) {
      StackOrders(sem, source, items, schema, keys, top, l, outer);
    }
  }

  /** A hidden column appended leaves everything where it is. */
  lemma LayMore(schema: Schema, items: seq<Projection>, keys: seq<ResolvedKey>, l: Layout, hidden: Projection, k: nat)
    requires |l.below| == |items| && |l.positions| == k < |keys| && hidden.expr == keys[k].expr
    requires forall i :: 0 <= i < |items| ==> ItemPlaced(schema, items[i], l.below[i], l.widened)
    requires forall x :: 0 <= x < k ==> KeyPlaced(keys[x], l.positions[x], l.widened)
    requires forall j :: 0 <= j < |l.widened| ==> Accounted(schema, items, keys, l.widened[j].expr)
    ensures var widened := l.widened + [hidden];
            (forall i :: 0 <= i < |items| ==> ItemPlaced(schema, items[i], l.below[i], widened))
            && (forall x :: 0 <= x < k ==> KeyPlaced(keys[x], l.positions[x], widened))
            && forall j :: 0 <= j < |widened| ==> Accounted(schema, items, keys, widened[j].expr)
  {
    var widened := l.widened + [hidden];
    forall i | 0 <= i < |items| ensures ItemPlaced(schema, items[i], l.below[i], widened) {
      assert ItemPlaced(schema, items[i], l.below[i], l.widened);
    }
    forall x | 0 <= x < k ensures KeyPlaced(keys[x], l.positions[x], widened) {
      assert KeyPlaced(keys[x], l.positions[x], l.widened);
    }
  }
}
