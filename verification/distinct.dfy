/** `SELECT DISTINCT … ORDER BY`: each key is a column of the select list, and sorting what is left
    after the duplicates are removed realises the written order. */
module DistinctOrder {
  import opened Options
  import opened SqlTypes
  import opened Bound
  import opened Evaluation
  import opened Relational
  import opened Evaluator
  import opened Ordering
  import opened SortStack
  import opened OrderBy

  // ----- the positions of the keys -----

  /** The first item of a print. */
  function FirstOf(items: seq<Projection>, mark: Print): Option<nat> {
    if items == [] then None
    else if Fingerprint(items[0].expr) == mark then Some(0)
    else
      match FirstOf(items[1..], mark)
      case None => None
      case Some(i) => Some(i + 1)
  }

  lemma {:induction false} FirstOfIs(items: seq<Projection>, mark: Print)
    ensures FirstOf(items, mark).Some? <==> exists i :: 0 <= i < |items| && Fingerprint(items[i].expr) == mark
    ensures FirstOf(items, mark).Some? ==>
              var i := FirstOf(items, mark).value;
              i < |items| && Fingerprint(items[i].expr) == mark
              && forall j :: 0 <= j < i ==> Fingerprint(items[j].expr) != mark
    decreases |items|
  {
    if items != [] && Fingerprint(items[0].expr) != mark {
      FirstOfIs(items[1..], mark);
      if i :| 0 <= i < |items| && Fingerprint(items[i].expr) == mark { assert items[1..][i - 1] == items[i]; }
    }
  }

  lemma {:induction false} FirstOfAppended(items: seq<Projection>, item: Projection, mark: Print)
    ensures FirstOf(items + [item], mark)
            == if FirstOf(items, mark).Some? then FirstOf(items, mark)
               else if Fingerprint(item.expr) == mark then Some(|items|) else None
    decreases |items|
  {
    if items == [] {
      assert items + [item] == [item];
    } else {
      assert (items + [item])[1..] == items[1..] + [item];
      FirstOfAppended(items[1..], item, mark);
    }
  }

  /** The select list position of a key. */
  function PositionOf(key: ResolvedKey, items: seq<Projection>): Option<nat> {
    if key.item.Some? then key.item else FirstOf(items, Fingerprint(key.expr))
  }

  /** `select_list_positions`: the position of every key, unless one is not in the select list. */
  method SelectListPositions(keys: seq<ResolvedKey>, items: seq<Projection>) returns (positions: Option<seq<nat>>)
    ensures positions.None? <==> exists k :: 0 <= k < |keys| && PositionOf(keys[k], items).None?
    ensures positions.Some? ==>
              |positions.value| == |keys|
              && forall k :: 0 <= k < |keys| ==> PositionOf(keys[k], items) == Some(positions.value[k])
  {
    var projected: map<Print, nat> := map[];
    assert items[..0] == [];
    for index := 0 to |items|
      invariant forall mark :: mark in projected <==> FirstOf(items[..index], mark).Some?
      invariant forall mark :: mark in projected ==> FirstOf(items[..index], mark) == Some(projected[mark])
    {
      var mark := Fingerprint(items[index].expr);
      assert items[..index + 1] == items[..index] + [items[index]];
      forall p ensures FirstOf(items[..index + 1], p)
                       == if FirstOf(items[..index], p).Some? then FirstOf(items[..index], p)
                          else if mark == p then Some(index) else None
      {
        FirstOfAppended(items[..index], items[index], p);
      }
      if mark !in projected { projected := projected[mark := index]; }
    }
    assert items[..|items|] == items;
    var found: seq<nat> := [];
    for k := 0 to |keys|
      invariant |found| == k
      invariant forall x :: 0 <= x < k ==> PositionOf(keys[x], items) == Some(found[x])
    {
      if keys[k].item.Some? {
        found := found + [keys[k].item.value];
      } else {
        var mark := Fingerprint(keys[k].expr);
        if mark !in projected { return None; }
        found := found + [projected[mark]];
      }
    }
    return Some(found);
  }

  // ----- a key is the cell it is mapped to -----

  /** The key and the item it is matched with carry one type, and the positions are those of the
      select list. */
  predicate Matched(keys: seq<ResolvedKey>, items: seq<Projection>, positions: seq<nat>) {
    |positions| == |keys| && Below(positions, |items|)
    && forall k :: 0 <= k < |keys| ==>
         KeyOk(keys[k], items) && PositionOf(keys[k], items) == Some(positions[k])
         && keys[k].expr.ty == items[positions[k]].expr.ty
  }

  lemma KeyIsItsItem(keys: seq<ResolvedKey>, items: seq<Projection>, positions: seq<nat>, k: nat)
    requires Matched(keys, items, positions) && k < |keys|
    ensures keys[k].expr == items[positions[k]].expr
  {
    if keys[k].item.None? {
      FirstOfIs(items, Fingerprint(keys[k].expr));
      PrintDetermines(keys[k].expr, items[positions[k]].expr);
    }
  }

  /** The keys and the select list on a source row. */
  function KeysOf(sem: Sem, keys: seq<ResolvedKey>, row: Row, outer: Env): seq<Outcome> {
    EvalAll(sem, KeyExprs(keys), [Plain(row)] + outer)
  }

  function ItemsOf(sem: Sem, items: seq<Projection>, row: Row, outer: Env): (outs: seq<Outcome>)
    ensures |outs| == |items|
  {
    EvalAll(sem, Exprs(items), [Plain(row)] + outer)
  }

  /** On any source row, the value of a key is the projected cell it is mapped to. */
  lemma KeyIsItsCell(sem: Sem, keys: seq<ResolvedKey>, items: seq<Projection>, positions: seq<nat>, row: Row, outer: Env)
    requires Matched(keys, items, positions)
    ensures forall k :: 0 <= k < |keys| ==> KeysOf(sem, keys, row, outer)[k] == ItemsOf(sem, items, row, outer)[positions[k]]
  {
    forall k | 0 <= k < |keys| ensures KeysOf(sem, keys, row, outer)[k] == ItemsOf(sem, items, row, outer)[positions[k]] {
      KeyIsItsItem(keys, items, positions, k);
    }
  }

  /** A cast of a column, as an item or as a key. */
  function CastOf(c: ColumnBinding, ty: TypeInfo): Expr {
    Op(Convert(None, false), [ColumnRef(c, c.ty)], ty)
  }

  /** Whether a key computes what its item does, whatever the operators compute and the rows
      hold. */
  ghost predicate AlwaysEqual(key: Expr, item: Expr) {
    forall sem: Sem, env: Env :: Eval(sem, key, env) == Eval(sem, item, env)
  }

  /** Conversions that tell two target types apart. */
  function TellingSem(ty: TypeInfo): Sem {
    Sem((_, _, _, _) => Error, (_, _) => Error, (_, _) => Error, (_, _, _) => 0, _ => Error,
        (_, to: TypeInfo, _, _) => if to == ty then Val(Truth(true)) else Val(Truth(false)),
        (_, _, _, _) => Error, (_, _) => Error, (_, _, _) => false, _ => [], _ => Null)
  }

  /** The print does not hold the type a cast converts to, so two casts of one column to types of
      one collation match. The key computes its item if and only if the two types are one. */
  lemma CastKeyMatches(c: ColumnBinding, key: TypeInfo, item: TypeInfo)
    requires key.collation == item.collation
    ensures Fingerprint(CastOf(c, key)) == Fingerprint(CastOf(c, item))
    ensures AlwaysEqual(CastOf(c, key), CastOf(c, item)) <==> key == item
  {
    if key != item {
      var sem := TellingSem(key);
      var row := seq(c.index + 1, _ => Truth(true));
      var env := seq(c.depth + 1, _ => Plain(row));
      assert Eval(sem, ColumnRef(c, c.ty), env) == Val(Truth(true));
      assert EvalAll(sem, [ColumnRef(c, c.ty)], env) == [Val(Truth(true))];
      assert Eval(sem, CastOf(c, key), env) == Val(Truth(true));
      assert Eval(sem, CastOf(c, item), env) == Val(Truth(false));
    }
  }

  // ----- what is left after the duplicates are removed -----

  /** Rows that are the same compare equal cell by cell, and being the same is symmetric. */
  ghost predicate SameLaws(sem: Sem, tys: seq<TypeInfo>) {
    (forall a, b :: sem.sameRow(tys, a, b) == sem.sameRow(tys, b, a))
    && forall a, b, i :: sem.sameRow(tys, a, b) && 0 <= i < |tys| && i < |a| && i < |b| ==>
         OrderOf(sem, tys[i].collation, a[i], b[i]) == 0
  }

  /** `row` is `kept`, or a duplicate of it. */
  predicate Collapses(sem: Sem, tys: seq<TypeInfo>, row: Row, kept: Row) {
    row == kept || sem.sameRow(tys, kept, row)
  }

  predicate CollapsesIn(sem: Sem, tys: seq<TypeInfo>, row: Row, rows: seq<Row>) {
    exists i :: 0 <= i < |rows| && Collapses(sem, tys, row, rows[i])
  }

  predicate NoDuplicate(sem: Sem, tys: seq<TypeInfo>, rows: seq<Row>) {
    forall i, j :: 0 <= i < j < |rows| ==> !sem.sameRow(tys, rows[i], rows[j])
  }

  lemma CollapsesInMore(sem: Sem, tys: seq<TypeInfo>, row: Row, rows: seq<Row>, more: seq<Row>)
    requires CollapsesIn(sem, tys, row, rows) && rows <= more
    ensures CollapsesIn(sem, tys, row, more)
  {
    var i :| 0 <= i < |rows| && Collapses(sem, tys, row, rows[i]);
    assert Collapses(sem, tys, row, more[i]);
  }

  /** Removing duplicates keeps one row of each: no two left are the same, each is one of the rows,
      and each row is left or a duplicate of one that is. */
  lemma {:induction false} DedupKeepsOne(sem: Sem, tys: seq<TypeInfo>, kept: seq<Row>, rows: seq<Row>)
    requires NoDuplicate(sem, tys, kept)
    ensures var out := DedupOnto(sem, tys, kept, rows);
            kept <= out && NoDuplicate(sem, tys, out)
            && (forall r :: 0 <= r < |rows| ==> CollapsesIn(sem, tys, rows[r], out))
            && forall i :: |kept| <= i < |out| ==> out[i] in rows
    decreases |rows|
  {
    if rows != [] {
      var out := DedupOnto(sem, tys, kept, rows);
      var next := if Seen(sem, tys, rows[0], kept) then kept else kept + [rows[0]];
      assert CollapsesIn(sem, tys, rows[0], next) by {
        if Seen(sem, tys, rows[0], kept) {
          var i :| 0 <= i < |kept| && sem.sameRow(tys, kept[i], rows[0]);
          assert Collapses(sem, tys, rows[0], kept[i]);
        } else {
          assert Collapses(sem, tys, rows[0], next[|kept|]);
        }
      }
      DedupKeepsOne(sem, tys, next, rows[1..]);
      CollapsesInMore(sem, tys, rows[0], next, out);
      forall r | 0 <= r < |rows| ensures CollapsesIn(sem, tys, rows[r], out) {
        if r > 0 { assert rows[r] == rows[1..][r - 1]; }
      }
    }
  }

  // ----- sorted after -----

  /** The cells of a row at the positions of the keys. */
  function Picked(row: Row, positions: seq<nat>): (cells: Row)
    requires Below(positions, |row|)
    ensures |cells| == |positions|
    ensures forall k :: 0 <= k < |positions| ==> cells[k] == row[positions[k]]
  {
    seq(|positions|, k requires 0 <= k < |positions| => row[positions[k]])
  }

  predicate SchemaFits(schema: Schema, items: seq<Projection>) {
    |schema| == |items| && forall i :: 0 <= i < |items| ==> schema[i].ty == items[i].expr.ty
  }

  /** The stack of a `SELECT DISTINCT … ORDER BY` under its `Limit`. */
  function DistinctStack(source: Plan, items: seq<Projection>, schema: Schema, keys: seq<ResolvedKey>, positions: seq<nat>): Plan
    requires |positions| == |keys| && Below(positions, |schema|)
  {
    SortOver(DistinctOver(ProjectOver(source, Exprs(items), schema)), KeyReferences(keys, positions, schema), Descending(keys))
  }

  function KeyingOf(keys: seq<ResolvedKey>): Keying {
    Keying(Collations(Types(KeyExprs(keys))), Descending(keys))
  }

  /** The keys of the `Sort` have the collations of the keys, which are those of their columns. */
  lemma DistinctCollations(items: seq<Projection>, schema: Schema, keys: seq<ResolvedKey>, positions: seq<nat>)
    requires Matched(keys, items, positions) && SchemaFits(schema, items)
    ensures Collations(Types(KeyReferences(keys, positions, schema))) == KeyingOf(keys).colls
    ensures forall k :: 0 <= k < |keys| ==> KeyingOf(keys).colls[k] == schema[positions[k]].ty.collation
  {
    var refs := KeyReferences(keys, positions, schema);
    forall k | 0 <= k < |keys|
      ensures refs[k].ty.collation == keys[k].expr.ty.collation == schema[positions[k]].ty.collation
    {
      assert KeyOk(keys[k], items);
    }
  }

  lemma PickedCells(sem: Sem, schema: Schema, keys: seq<ResolvedKey>, positions: seq<nat>, row: Row, outer: Env)
    requires |positions| == |keys| && Below(positions, |schema|) && |row| == |schema|
    ensures var outs := EvalAll(sem, KeyReferences(keys, positions, schema), [Plain(row)] + outer);
            AllValues(outs) && ValuesOf(outs) == Picked(row, positions)
  {
  }

  /** Cells that compare equal make keys that compare equal. */
  lemma {:induction false} EqualKeys(sem: Sem, colls: seq<Option<nat>>, desc: seq<bool>, a: Row, b: Row)
    requires |a| == |b| == |colls|
    requires forall k :: 0 <= k < |colls| ==> OrderOf(sem, colls[k], a[k], b[k]) == 0
    ensures KeyOrder(sem, colls, desc, a, b) == 0
    decreases |a|
  {
    if |a| > 0 && |desc| > 0 { EqualKeys(sem, colls[1..], desc[1..], a[1..], b[1..]); }
  }

  /** Source rows that collapse under `DISTINCT` agree on every key: the key of the row left is
      the key of each of them. */
  lemma CollapsedAgree(sem: Sem, items: seq<Projection>, schema: Schema, keys: seq<ResolvedKey>, positions: seq<nat>,
                       row: Row, kept: Row, outer: Env)
    requires OrderLaws(sem) && SameLaws(sem, ColumnTypes(schema)) && Matched(keys, items, positions) && SchemaFits(schema, items)
    requires AllValues(ItemsOf(sem, items, row, outer)) && |kept| == |schema|
    requires Collapses(sem, ColumnTypes(schema), ValuesOf(ItemsOf(sem, items, row, outer)), kept)
    ensures AllValues(KeysOf(sem, keys, row, outer)) && |KeysOf(sem, keys, row, outer)| == |keys|
    ensures OrderBetween(sem, KeyingOf(keys), ValuesOf(KeysOf(sem, keys, row, outer)), Picked(kept, positions)) == 0
  {
    KeyIsItsCell(sem, keys, items, positions, row, outer);
    DistinctCollations(items, schema, keys, positions);
    var cells := ValuesOf(ItemsOf(sem, items, row, outer));
    var key := ValuesOf(KeysOf(sem, keys, row, outer));
    forall k | 0 <= k < |keys| ensures OrderOf(sem, KeyingOf(keys).colls[k], key[k], Picked(kept, positions)[k]) == 0 {
      var i := positions[k];
      assert key[k] == cells[i];
      if cells == kept { OrderOfLaws(sem, schema[i].ty.collation, cells[i], cells[i], cells[i]); }
      else { assert sem.sameRow(ColumnTypes(schema), cells, kept); }
    }
    EqualKeys(sem, KeyingOf(keys).colls, KeyingOf(keys).desc, key, Picked(kept, positions));
  }

  /** The rows under the `Sort`. */
  lemma DistinctRows(sem: Sem, source: Plan, items: seq<Projection>, schema: Schema, rows: seq<Row>, outer: Env)
    requires EvalPlan(sem, source, outer) == Rows(rows) && SchemaFits(schema, items)
    ensures var projected := ProjectRows(EvalOver(sem, Exprs(items), rows, outer));
            EvalPlan(sem, DistinctOver(ProjectOver(source, Exprs(items), schema)), outer)
            == if projected.Fail? then Fail else Rows(Dedup(sem, ColumnTypes(schema), projected.rows))
  {
    var project := ProjectOver(source, Exprs(items), schema);
    EvalUnary(sem, project, outer);
    EvalUnary(sem, DistinctOver(project), outer);
  }

  function AllPicked(rows: seq<Row>, positions: seq<nat>): (ks: seq<Row>)
    requires forall i :: 0 <= i < |rows| ==> Below(positions, |rows[i]|)
    ensures |ks| == |rows| && forall i :: 0 <= i < |rows| ==> ks[i] == Picked(rows[i], positions)
  {
    seq(|rows|, i requires 0 <= i < |rows| => Picked(rows[i], positions))
  }

  lemma PickedRows(sem: Sem, schema: Schema, keys: seq<ResolvedKey>, positions: seq<nat>, kept: seq<Row>, outer: Env)
    requires |positions| == |keys| && Below(positions, |schema|) && forall i :: 0 <= i < |kept| ==> |kept[i]| == |schema|
    ensures ProjectRows(EvalOver(sem, KeyReferences(keys, positions, schema), kept, outer)) == Rows(AllPicked(kept, positions))
  {
    var cells := EvalOver(sem, KeyReferences(keys, positions, schema), kept, outer);
    forall i | 0 <= i < |kept| ensures AllValues(cells[i]) && ValuesOf(cells[i]) == Picked(kept[i], positions) {
      PickedCells(sem, schema, keys, positions, kept[i], outer);
    }
    assert ProjectRows(cells).rows == AllPicked(kept, positions);
  }

  /** What a `Sort` by the cells of its own rows makes of them. */
  ghost predicate SortedOnCells(sem: Sem, k: Keying, positions: seq<nat>, kept: seq<Row>, out: seq<Row>, width: nat) {
    (exists perm :: Permutation(perm, |kept|) && out == Permuted(kept, perm))
    && (forall i :: 0 <= i < |out| ==> |out[i]| == width && Below(positions, |out[i]|))
    && forall i, j :: 0 <= i < j < |out| ==> OrderBetween(sem, k, Picked(out[i], positions), Picked(out[j], positions)) <= 0
  }

  lemma OrderOnCells(sem: Sem, k: Keying, positions: seq<nat>, kept: seq<Row>, width: nat)
    requires OrderLaws(sem) && Below(positions, width) && forall i :: 0 <= i < |kept| ==> |kept[i]| == width
    ensures var perm := Order(sem, k.colls, k.desc, AllPicked(kept, positions), |kept|);
            Permutation(perm, |kept|) && SortedOnCells(sem, k, positions, kept, Permuted(kept, perm), width)
  {
    var ks := AllPicked(kept, positions);
    OrderIsStableSort(sem, k, ks, |positions|, |kept|);
    var perm := Order(sem, k.colls, k.desc, ks, |kept|);
    var out := Permuted(kept, perm);
    forall i, j | 0 <= i < j < |out| ensures OrderBetween(sem, k, Picked(out[i], positions), Picked(out[j], positions)) <= 0 {
      assert Precedes(sem, k, ks, perm[i], perm[j]);
    }
  }

  /** The `Sort` of rows of the select list orders them by their cells. */
  lemma SortOfDistinct(sem: Sem, source: Plan, items: seq<Projection>, schema: Schema, keys: seq<ResolvedKey>, positions: seq<nat>,
                       kept: seq<Row>, outer: Env)
    requires OrderLaws(sem) && Matched(keys, items, positions) && SchemaFits(schema, items)
    requires EvalPlan(sem, DistinctOver(ProjectOver(source, Exprs(items), schema)), outer) == Rows(kept)
    requires forall i :: 0 <= i < |kept| ==> |kept[i]| == |schema|
    ensures var out := EvalPlan(sem, DistinctStack(source, items, schema, keys, positions), outer);
            out.Rows? && SortedOnCells(sem, KeyingOf(keys), positions, kept, out.rows, |schema|)
  {
    var refs := KeyReferences(keys, positions, schema);
    SortIs(sem, DistinctOver(ProjectOver(source, Exprs(items), schema)), refs, Descending(keys), kept, outer);
    DistinctCollations(items, schema, keys, positions);
    PickedRows(sem, schema, keys, positions, kept, outer);
    OrderOnCells(sem, KeyingOf(keys), positions, kept, |schema|);
  }

  /** Every row of the result stands where the written keys put it: whichever source rows two
      rows of the result stand for, their keys are in order. */
  ghost predicate WrittenOrder(sem: Sem, items: seq<Projection>, schema: Schema, keys: seq<ResolvedKey>, rows: seq<Row>, out: seq<Row>, outer: Env) {
    forall x, y, i, j :: 0 <= x < |rows| && 0 <= y < |rows| && 0 <= i < j < |out| ==>
      StandsFor(sem, items, schema, rows[x], out[i], outer) && StandsFor(sem, items, schema, rows[y], out[j], outer) ==>
        InOrder(sem, keys, rows[x], rows[y], outer)
  }

  predicate StandsFor(sem: Sem, items: seq<Projection>, schema: Schema, row: Row, kept: Row, outer: Env) {
    AllValues(ItemsOf(sem, items, row, outer)) && Collapses(sem, ColumnTypes(schema), ValuesOf(ItemsOf(sem, items, row, outer)), kept)
  }

  predicate InOrder(sem: Sem, keys: seq<ResolvedKey>, x: Row, y: Row, outer: Env) {
    AllValues(KeysOf(sem, keys, x, outer)) && AllValues(KeysOf(sem, keys, y, outer))
    && OrderBetween(sem, KeyingOf(keys), ValuesOf(KeysOf(sem, keys, x, outer)), ValuesOf(KeysOf(sem, keys, y, outer))) <= 0
  }

  /** The row is the select list on one of the source rows. */
  ghost predicate FromSelectList(sem: Sem, items: seq<Projection>, rows: seq<Row>, row: Row, outer: Env) {
    exists x :: 0 <= x < |rows| && AllValues(ItemsOf(sem, items, rows[x], outer)) && row == ValuesOf(ItemsOf(sem, items, rows[x], outer))
  }

  /** What a `DISTINCT` in order holds: rows of the select list, no two the same, one for every source
      row, in the order of the written keys on the source rows. */
  ghost predicate DistinctInOrder(sem: Sem, items: seq<Projection>, schema: Schema, keys: seq<ResolvedKey>, rows: seq<Row>, out: seq<Row>, outer: Env) {
    NoDuplicate(sem, ColumnTypes(schema), out)
    && (forall x :: 0 <= x < |rows| ==>
          AllValues(ItemsOf(sem, items, rows[x], outer))
          && CollapsesIn(sem, ColumnTypes(schema), ValuesOf(ItemsOf(sem, items, rows[x], outer)), out))
    && (forall i :: 0 <= i < |out| ==> FromSelectList(sem, items, rows, out[i], outer))
    && WrittenOrder(sem, items, schema, keys, rows, out, outer)
  }

  /** `SELECT DISTINCT TOP … ORDER BY` is well defined: the `TOP` is taken of rows each of which is
      a row of the select list, no two the same, each source row behind one of them, in the order
      of the written keys on the source rows. It fails when the source does or an item does on a
      source row, unless the `TOP` is of no row. */
  lemma DistinctOrders(sem: Sem, source: Plan, items: seq<Projection>, schema: Schema, keys: seq<ResolvedKey>, positions: seq<nat>,
                       top: Option<Expr>, outer: Env)
    requires OrderLaws(sem) && SameLaws(sem, ColumnTypes(schema)) && Matched(keys, items, positions) && SchemaFits(schema, items)
    ensures var out := EvalPlan(sem, Limited(DistinctStack(source, items, schema, keys, positions), top), outer);
            if NoRow(sem, top, outer) then out == Rows([])
            else match EvalPlan(sem, source, outer)
                 case Fail => out.Fail?
                 case Rows(rows) =>
                   if exists x :: 0 <= x < |rows| && !AllValues(ItemsOf(sem, items, rows[x], outer)) then out.Fail?
                   else exists ordered :: DistinctInOrder(sem, items, schema, keys, rows, ordered, outer) && out == Cut(sem, ordered, top, outer)
  {
    var stack := DistinctStack(source, items, schema, keys, positions);
    if NoRow(sem, top, outer) {
      LimitHands(sem, stack, top.value, outer);
    } else if EvalPlan(sem, source, outer).Fail? {
      DistinctSourceFails(sem, source, items, schema, keys, positions, outer);
      LimitedFails(sem, stack, top, outer);
    } else {
      var rows := EvalPlan(sem, source, outer).rows;
      if x :| 0 <= x < |rows| && !AllValues(ItemsOf(sem, items, rows[x], outer)) {
        DistinctFails(sem, source, items, schema, keys, positions, rows, x, outer);
        LimitedFails(sem, stack, top, outer);
      } else {
        DistinctSucceeds(sem, source, items, schema, keys, positions, rows, outer);
        LimitedPlan(sem, stack, top, EvalPlan(sem, stack, outer).rows, outer);
      }
    }
  }

  lemma DistinctSourceFails(sem: Sem, source: Plan, items: seq<Projection>, schema: Schema, keys: seq<ResolvedKey>, positions: seq<nat>, outer: Env)
    requires Matched(keys, items, positions) && SchemaFits(schema, items) && EvalPlan(sem, source, outer).Fail?
    ensures EvalPlan(sem, DistinctStack(source, items, schema, keys, positions), outer).Fail?
  {
    var project := ProjectOver(source, Exprs(items), schema);
    FailsThrough(sem, project, outer);
    FailsThrough(sem, DistinctOver(project), outer);
    FailsThrough(sem, DistinctStack(source, items, schema, keys, positions), outer);
  }

  lemma DistinctFails(sem: Sem, source: Plan, items: seq<Projection>, schema: Schema, keys: seq<ResolvedKey>, positions: seq<nat>,
                      rows: seq<Row>, x: nat, outer: Env)
    requires Matched(keys, items, positions) && SchemaFits(schema, items) && EvalPlan(sem, source, outer) == Rows(rows)
    requires x < |rows| && !AllValues(ItemsOf(sem, items, rows[x], outer))
    ensures EvalPlan(sem, DistinctStack(source, items, schema, keys, positions), outer).Fail?
  {
    DistinctRows(sem, source, items, schema, rows, outer);
    assert !AllValues(EvalOver(sem, Exprs(items), rows, outer)[x]);
    FailsThrough(sem, DistinctStack(source, items, schema, keys, positions), outer);
  }

  /** What is left of the projected rows: no two the same, each projected row collapsing into one. */
  ghost predicate KeptOf(sem: Sem, items: seq<Projection>, schema: Schema, rows: seq<Row>, kept: seq<Row>, outer: Env) {
    var projected := ProjectRows(EvalOver(sem, Exprs(items), rows, outer));
    projected.Rows? && NoDuplicate(sem, ColumnTypes(schema), kept)
    && (forall r :: 0 <= r < |projected.rows| ==> CollapsesIn(sem, ColumnTypes(schema), projected.rows[r], kept))
    && forall i :: 0 <= i < |kept| ==> kept[i] in projected.rows
  }

  lemma DistinctKept(sem: Sem, source: Plan, items: seq<Projection>, schema: Schema, rows: seq<Row>, outer: Env) returns (kept: seq<Row>)
    requires SchemaFits(schema, items) && SameLaws(sem, ColumnTypes(schema)) && EvalPlan(sem, source, outer) == Rows(rows)
    requires forall x :: 0 <= x < |rows| ==> AllValues(ItemsOf(sem, items, rows[x], outer))
    ensures EvalPlan(sem, DistinctOver(ProjectOver(source, Exprs(items), schema)), outer) == Rows(kept)
    ensures KeptOf(sem, items, schema, rows, kept, outer) && forall i :: 0 <= i < |kept| ==> |kept[i]| == |schema|
  {
    DistinctRows(sem, source, items, schema, rows, outer);
    var cells := EvalOver(sem, Exprs(items), rows, outer);
    forall x | 0 <= x < |rows| ensures AllValues(cells[x]) { assert AllValues(ItemsOf(sem, items, rows[x], outer)); }
    var projected := ProjectRows(cells).rows;
    kept := Dedup(sem, ColumnTypes(schema), projected);
    DedupKeepsOne(sem, ColumnTypes(schema), [], projected);
  }

  lemma DistinctSucceeds(sem: Sem, source: Plan, items: seq<Projection>, schema: Schema, keys: seq<ResolvedKey>, positions: seq<nat>,
                         rows: seq<Row>, outer: Env)
    requires OrderLaws(sem) && SameLaws(sem, ColumnTypes(schema)) && Matched(keys, items, positions) && SchemaFits(schema, items)
    requires EvalPlan(sem, source, outer) == Rows(rows) && forall x :: 0 <= x < |rows| ==> AllValues(ItemsOf(sem, items, rows[x], outer))
    ensures var out := EvalPlan(sem, DistinctStack(source, items, schema, keys, positions), outer);
            out.Rows? && DistinctInOrder(sem, items, schema, keys, rows, out.rows, outer)
  {
    var kept := DistinctKept(sem, source, items, schema, rows, outer);
    SortOfDistinct(sem, source, items, schema, keys, positions, kept, outer);
    KeptInOrder(sem, items, schema, keys, positions, rows, kept,
                EvalPlan(sem, DistinctStack(source, items, schema, keys, positions), outer).rows, outer);
  }

  lemma KeptInOrder(sem: Sem, items: seq<Projection>, schema: Schema, keys: seq<ResolvedKey>, positions: seq<nat>,
                    rows: seq<Row>, kept: seq<Row>, out: seq<Row>, outer: Env)
    requires OrderLaws(sem) && SameLaws(sem, ColumnTypes(schema)) && Matched(keys, items, positions) && SchemaFits(schema, items)
    requires forall x :: 0 <= x < |rows| ==> AllValues(ItemsOf(sem, items, rows[x], outer))
    requires KeptOf(sem, items, schema, rows, kept, outer)
    requires SortedOnCells(sem, KeyingOf(keys), positions, kept, out, |schema|)
    ensures DistinctInOrder(sem, items, schema, keys, rows, out, outer)
  {
    StandBehind(sem, items, schema, rows, kept, out, outer);
    AllFromSelectList(sem, items, rows, kept, out, outer);
    PickedOrder(sem, items, schema, keys, positions, rows, out, outer);
  }

  lemma StandBehind(sem: Sem, items: seq<Projection>, schema: Schema, rows: seq<Row>, kept: seq<Row>, out: seq<Row>, outer: Env)
    requires SameLaws(sem, ColumnTypes(schema)) && NoDuplicate(sem, ColumnTypes(schema), kept)
    requires forall x :: 0 <= x < |rows| ==> AllValues(ItemsOf(sem, items, rows[x], outer))
    requires var projected := ProjectRows(EvalOver(sem, Exprs(items), rows, outer));
             projected.Rows? && forall r :: 0 <= r < |projected.rows| ==> CollapsesIn(sem, ColumnTypes(schema), projected.rows[r], kept)
    requires exists perm :: Permutation(perm, |kept|) && out == Permuted(kept, perm)
    ensures NoDuplicate(sem, ColumnTypes(schema), out)
    ensures forall x :: 0 <= x < |rows| ==> CollapsesIn(sem, ColumnTypes(schema), ValuesOf(ItemsOf(sem, items, rows[x], outer)), out)
  {
    var projected := ProjectRows(EvalOver(sem, Exprs(items), rows, outer)).rows;
    PermutedKeepsOne(sem, ColumnTypes(schema), projected, kept, out);
    forall x | 0 <= x < |rows|
      ensures CollapsesIn(sem, ColumnTypes(schema), ValuesOf(ItemsOf(sem, items, rows[x], outer)), out)
    {
      assert CollapsesIn(sem, ColumnTypes(schema), projected[x], out);
    }
  }

  lemma AllFromSelectList(sem: Sem, items: seq<Projection>, rows: seq<Row>, kept: seq<Row>, out: seq<Row>, outer: Env)
    requires var projected := ProjectRows(EvalOver(sem, Exprs(items), rows, outer));
             projected.Rows? && forall i :: 0 <= i < |kept| ==> kept[i] in projected.rows
    requires exists perm :: Permutation(perm, |kept|) && out == Permuted(kept, perm)
    ensures forall i :: 0 <= i < |out| ==> FromSelectList(sem, items, rows, out[i], outer)
  {
    var cells := EvalOver(sem, Exprs(items), rows, outer);
    var projected := ProjectRows(cells).rows;
    var perm :| Permutation(perm, |kept|) && out == Permuted(kept, perm);
    forall i | 0 <= i < |out| ensures FromSelectList(sem, items, rows, out[i], outer) {
      assert out[i] == kept[perm[i]];
      var x :| 0 <= x < |projected| && projected[x] == out[i];
      assert cells[x] == ItemsOf(sem, items, rows[x], outer);
    }
  }

  lemma PickedOrder(sem: Sem, items: seq<Projection>, schema: Schema, keys: seq<ResolvedKey>, positions: seq<nat>,
                    rows: seq<Row>, out: seq<Row>, outer: Env)
    requires OrderLaws(sem) && SameLaws(sem, ColumnTypes(schema)) && Matched(keys, items, positions) && SchemaFits(schema, items)
    requires forall i :: 0 <= i < |out| ==> |out[i]| == |schema|
    requires forall i, j :: 0 <= i < j < |out| ==>
               OrderBetween(sem, KeyingOf(keys), Picked(out[i], positions), Picked(out[j], positions)) <= 0
    ensures WrittenOrder(sem, items, schema, keys, rows, out, outer)
  {
    forall x, y, i, j | 0 <= x < |rows| && 0 <= y < |rows| && 0 <= i < j < |out|
                        && StandsFor(sem, items, schema, rows[x], out[i], outer) && StandsFor(sem, items, schema, rows[y], out[j], outer)
      ensures InOrder(sem, keys, rows[x], rows[y], outer)
    {
      var k := KeyingOf(keys);
      CollapsedAgree(sem, items, schema, keys, positions, rows[x], out[i], outer);
      CollapsedAgree(sem, items, schema, keys, positions, rows[y], out[j], outer);
      var kx, ky := ValuesOf(KeysOf(sem, keys, rows[x], outer)), ValuesOf(KeysOf(sem, keys, rows[y], outer));
      var pi, pj := Picked(out[i], positions), Picked(out[j], positions);
      CompareFlips(sem, k.colls, k.desc, ky, pj);
      CompareTransitive(sem, k.colls, k.desc, kx, pi, pj);
      CompareTransitive(sem, k.colls, k.desc, kx, pj, ky);
    }
  }

  /** Reordering what is left changes nothing of what it holds. */
  lemma PermutedKeepsOne(sem: Sem, tys: seq<TypeInfo>, projected: seq<Row>, kept: seq<Row>, out: seq<Row>)
    requires SameLaws(sem, tys) && NoDuplicate(sem, tys, kept)
    requires forall r :: 0 <= r < |projected| ==> CollapsesIn(sem, tys, projected[r], kept)
    requires exists perm :: Permutation(perm, |kept|) && out == Permuted(kept, perm)
    ensures NoDuplicate(sem, tys, out)
    ensures forall r :: 0 <= r < |projected| ==> CollapsesIn(sem, tys, projected[r], out)
  {
    var perm :| Permutation(perm, |kept|) && out == Permuted(kept, perm);
    forall i, j | 0 <= i < j < |out| ensures !sem.sameRow(tys, out[i], out[j]) {
      assert sem.sameRow(tys, out[i], out[j]) == sem.sameRow(tys, out[j], out[i]);
      assert perm[i] != perm[j];
    }
    forall r | 0 <= r < |projected| ensures CollapsesIn(sem, tys, projected[r], out) {
      assert CollapsesIn(sem, tys, projected[r], kept);
      var i :| 0 <= i < |kept| && Collapses(sem, tys, projected[r], kept[i]);
      PermutationReaches(perm, |kept|, i);
      var j :| 0 <= j < |perm| && perm[j] == i;
      assert Collapses(sem, tys, projected[r], out[j]);
    }
  }
}
