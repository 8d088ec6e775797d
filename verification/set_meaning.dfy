/** What a tree of set operators computes: the operands of each run converted to its types, then
    put one after the other, and without `ALL` the duplicates removed. A run nested in another,
    and a `SELECT DISTINCT`, are deduplicated in their own types first. */
module SetMeaning {
  import opened Options
  import opened SqlTypes
  import opened Bound
  import opened Evaluation
  import opened Relational
  import opened Evaluator
  import opened Conversions
  import opened SortStack
  import opened DistinctOrder
  import opened SetOps

  // ----- removing duplicates -----

  /** Being the same row is transitive. */
  ghost predicate SameTransitive(sem: Sem, tys: seq<TypeInfo>) {
    forall a, b, c :: sem.sameRow(tys, a, b) && sem.sameRow(tys, b, c) ==> sem.sameRow(tys, a, c)
  }

  lemma {:induction false} DedupConcat(sem: Sem, tys: seq<TypeInfo>, kept: seq<Row>, a: seq<Row>, b: seq<Row>)
    ensures DedupOnto(sem, tys, kept, a + b) == DedupOnto(sem, tys, DedupOnto(sem, tys, kept, a), b)
    decreases |a|
  {
    if a == [] {
      assert a + b == b;
    } else {
      assert (a + b)[1..] == a[1..] + b;
      DedupConcat(sem, tys, if Seen(sem, tys, a[0], kept) then kept else kept + [a[0]], a[1..], b);
    }
  }

  /** The rows that deduplication adds to those it has. */
  function Added(sem: Sem, tys: seq<TypeInfo>, kept: seq<Row>, rows: seq<Row>): seq<Row>
    decreases |rows|
  {
    if rows == [] then []
    else if Seen(sem, tys, rows[0], kept) then Added(sem, tys, kept, rows[1..])
    else [rows[0]] + Added(sem, tys, kept + [rows[0]], rows[1..])
  }

  lemma {:induction false} DedupAdds(sem: Sem, tys: seq<TypeInfo>, kept: seq<Row>, rows: seq<Row>)
    ensures DedupOnto(sem, tys, kept, rows) == kept + Added(sem, tys, kept, rows)
    decreases |rows|
  {
    if rows != [] {
      if Seen(sem, tys, rows[0], kept) {
        DedupAdds(sem, tys, kept, rows[1..]);
      } else {
        DedupAdds(sem, tys, kept + [rows[0]], rows[1..]);
      }
    }
  }

  predicate AllCollapse(sem: Sem, tys: seq<TypeInfo>, rows: seq<Row>, kept: seq<Row>) {
    forall i :: 0 <= i < |rows| ==> CollapsesIn(sem, tys, rows[i], kept)
  }

  lemma SeenThrough(sem: Sem, tys: seq<TypeInfo>, row: Row, before: seq<Row>, kept: seq<Row>)
    requires SameTransitive(sem, tys) && AllCollapse(sem, tys, before, kept) && Seen(sem, tys, row, before)
    ensures Seen(sem, tys, row, kept)
  {
    var i :| 0 <= i < |before| && sem.sameRow(tys, before[i], row);
    assert CollapsesIn(sem, tys, before[i], kept);
    var k :| 0 <= k < |kept| && Collapses(sem, tys, before[i], kept[k]);
    assert sem.sameRow(tys, kept[k], row);
  }

  lemma CollapseAfter(sem: Sem, tys: seq<TypeInfo>, row: Row, before: seq<Row>, kept: seq<Row>)
    requires AllCollapse(sem, tys, before, kept)
    ensures AllCollapse(sem, tys, before + [row], if Seen(sem, tys, row, kept) then kept else kept + [row])
  {
    var next := if Seen(sem, tys, row, kept) then kept else kept + [row];
    forall i | 0 <= i < |before + [row]| ensures CollapsesIn(sem, tys, (before + [row])[i], next) {
      if i < |before| {
        assert CollapsesIn(sem, tys, before[i], kept);
        CollapsesInMore(sem, tys, before[i], kept, next);
      } else if Seen(sem, tys, row, kept) {
        var k :| 0 <= k < |kept| && sem.sameRow(tys, kept[k], row);
        assert Collapses(sem, tys, row, next[k]);
      } else {
        assert Collapses(sem, tys, row, next[|kept|]);
      }
    }
  }

  /** Rows deduplicated among themselves first give what the rows give. */
  lemma {:induction false} DedupOfAdded(sem: Sem, tys: seq<TypeInfo>, before: seq<Row>, kept: seq<Row>, rows: seq<Row>)
    requires SameTransitive(sem, tys) && AllCollapse(sem, tys, before, kept)
    ensures DedupOnto(sem, tys, kept, Added(sem, tys, before, rows)) == DedupOnto(sem, tys, kept, rows)
    decreases |rows|
  {
    if rows != [] {
      var row := rows[0];
      if Seen(sem, tys, row, before) {
        SeenThrough(sem, tys, row, before, kept);
        DedupOfAdded(sem, tys, before, kept, rows[1..]);
      } else {
        var next := if Seen(sem, tys, row, kept) then kept else kept + [row];
        CollapseAfter(sem, tys, row, before, kept);
        DedupOfAdded(sem, tys, before + [row], next, rows[1..]);
        assert Added(sem, tys, before, rows)[1..] == Added(sem, tys, before + [row], rows[1..]);
      }
    }
  }

  /** A list that deduplicates to the same. */
  ghost predicate SameOnce(sem: Sem, tys: seq<TypeInfo>, a: seq<Row>, b: seq<Row>) {
    a == b || a == Dedup(sem, tys, b)
  }

  lemma DedupEither(sem: Sem, tys: seq<TypeInfo>, kept: seq<Row>, a: seq<Row>, b: seq<Row>)
    requires SameTransitive(sem, tys) && SameOnce(sem, tys, a, b)
    ensures DedupOnto(sem, tys, kept, a) == DedupOnto(sem, tys, kept, b)
  {
    if a != b {
      DedupAdds(sem, tys, [], b);
      assert [] + Added(sem, tys, [], b) == Added(sem, tys, [], b);
      DedupOfAdded(sem, tys, [], kept, b);
    }
  }

  /** Deduplicating in two halves, each deduplicated or not, is deduplicating once. */
  lemma DedupInHalves(sem: Sem, tys: seq<TypeInfo>, a: seq<Row>, b: seq<Row>, wholeA: seq<Row>, wholeB: seq<Row>)
    requires SameTransitive(sem, tys) && SameOnce(sem, tys, a, wholeA) && SameOnce(sem, tys, b, wholeB)
    ensures Dedup(sem, tys, a + b) == Dedup(sem, tys, wholeA + wholeB)
  {
    DedupConcat(sem, tys, [], a, b);
    DedupConcat(sem, tys, [], wholeA, wholeB);
    DedupEither(sem, tys, [], a, wholeA);
    DedupEither(sem, tys, DedupOnto(sem, tys, [], wholeA), b, wholeB);
  }

  // ----- a run put back -----

  function Concat(rows: seq<seq<Row>>): seq<Row> {
    if rows == [] then [] else rows[0] + Concat(rows[1..])
  }

  lemma {:induction false} ConcatSplits(a: seq<seq<Row>>, b: seq<seq<Row>>)
    ensures Concat(a + b) == Concat(a) + Concat(b)
    decreases |a|
  {
    if a == [] {
      assert a + b == b;
    } else {
      assert (a + b)[1..] == a[1..] + b;
      ConcatSplits(a[1..], b);
    }
  }

  predicate AnyFails(rs: seq<Rows>) {
    exists i :: 0 <= i < |rs| && rs[i].Fail?
  }

  /** The rows of a run, one operator over its operands. */
  function Combined(sem: Sem, kind: SetOpKind, all: bool, columns: seq<TypeInfo>, rows: seq<seq<Row>>): seq<Row> {
    if kind == Union then if all then Concat(rows) else Dedup(sem, columns, Concat(rows))
    else if |rows| == 2 then SetRows(sem, kind, all, columns, rows[0], rows[1])
    else []
  }

  function RunResult(sem: Sem, kind: SetOpKind, all: bool, columns: seq<TypeInfo>, rs: seq<Rows>): Rows {
    if AnyFails(rs) then Fail else Rows(Combined(sem, kind, all, columns, RowsOf(rs)))
  }

  lemma EvalSetOp(sem: Sem, plan: Plan, outer: Env)
    requires plan.op.SetOp? && |plan.inputs| == 2
    ensures var left, right := EvalPlan(sem, plan.inputs[0], outer), EvalPlan(sem, plan.inputs[1], outer);
            EvalPlan(sem, plan, outer)
            == if left.Fail? || right.Fail? then Fail
               else Rows(SetRows(sem, plan.op.set_kind, plan.op.all, ColumnTypes(plan.schema), left.rows, right.rows))
  {
    EvalBinary(sem, plan, outer);
  }

  /** What a skeleton computes over the rows of its operands. */
  function SkeletonRows(sem: Sem, s: Skeleton, rs: seq<Rows>, columns: seq<TypeInfo>): Rows
    requires Positions(s, |rs|)
  {
    match s
    case Operand(p) => rs[p]
    case Joined(kind, all, l, r) =>
      var left, right := SkeletonRows(sem, l, rs, columns), SkeletonRows(sem, r, rs, columns);
      if left.Fail? || right.Fail? then Fail else Rows(SetRows(sem, kind, all, columns, left.rows, right.rows))
  }

  lemma {:induction false} AssembledRows(sem: Sem, s: Skeleton, plans: seq<Plan>, columns: seq<TypeInfo>, outer: Env)
    requires Positions(s, |plans|) && Uniform(plans, columns)
    ensures EvalPlan(sem, Assembled(s, plans, columns), outer) == SkeletonRows(sem, s, EvalPlans(sem, plans, outer), columns)
  {
    if s.Joined? {
      AssembledRows(sem, s.left, plans, columns, outer);
      AssembledRows(sem, s.right, plans, columns, outer);
      EvalSetOp(sem, Assembled(s, plans, columns), outer);
    }
  }

  /** The rows of a part of a union: its operands one after the other, once each unless `ALL`. */
  ghost predicate UnionOf(sem: Sem, s: Skeleton, all: bool, columns: seq<TypeInfo>, out: Rows, rs: seq<Rows>) {
    if AnyFails(rs) then out.Fail?
    else out.Rows? && out.rows == if all || s.Operand? then Concat(RowsOf(rs)) else Dedup(sem, columns, Concat(RowsOf(rs)))
  }

  lemma UnionLeaf(sem: Sem, s: Skeleton, all: bool, columns: seq<TypeInfo>, rs: seq<Rows>, lo: nat)
    requires s.Operand? && lo < |rs|
    ensures UnionOf(sem, s, all, columns, rs[lo], rs[lo..lo + 1])
  {
    assert rs[lo..lo + 1] == [rs[lo]];
    if rs[lo].Rows? { assert RowsOf([rs[lo]]) == [rs[lo].rows]; }
  }

  lemma {:induction false} UnionMeans(sem: Sem, s: Skeleton, rs: seq<Rows>, columns: seq<TypeInfo>, all: bool, lo: nat, hi: nat)
    requires SameTransitive(sem, columns)
    requires Spans(s, lo, hi) && lo <= hi <= |rs| && OneOperator(s, Union, all) && Positions(s, |rs|)
    ensures UnionOf(sem, s, all, columns, SkeletonRows(sem, s, rs, columns), rs[lo..hi])
    decreases s
  {
    if s.Operand? {
      UnionLeaf(sem, s, all, columns, rs, lo);
    } else {
      var mid: nat :| Spans(s.left, lo, mid) && Spans(s.right, mid, hi);
      SpansPositions(s.left, lo, mid);
      SpansPositions(s.right, mid, hi);
      UnionMeans(sem, s.left, rs, columns, all, lo, mid);
      UnionMeans(sem, s.right, rs, columns, all, mid, hi);
      assert rs[lo..hi] == rs[lo..mid] + rs[mid..hi];
      UnionJoins(sem, s, all, columns, SkeletonRows(sem, s.left, rs, columns), SkeletonRows(sem, s.right, rs, columns),
                 rs[lo..mid], rs[mid..hi]);
    }
  }

  lemma UnionJoins(sem: Sem, s: Skeleton, all: bool, columns: seq<TypeInfo>, left: Rows, right: Rows, a: seq<Rows>, b: seq<Rows>)
    requires SameTransitive(sem, columns) && s.Joined?
    requires UnionOf(sem, s.left, all, columns, left, a) && UnionOf(sem, s.right, all, columns, right, b)
    ensures UnionOf(sem, s, all, columns,
                    if left.Fail? || right.Fail? then Fail else Rows(SetRows(sem, Union, all, columns, left.rows, right.rows)), a + b)
  {
    if i :| 0 <= i < |a| && a[i].Fail? { assert (a + b)[i].Fail?; }
    if i :| 0 <= i < |b| && b[i].Fail? { assert (a + b)[|a| + i].Fail?; }
    if !AnyFails(a) && !AnyFails(b) {
      assert RowsOf(a + b) == RowsOf(a) + RowsOf(b);
      ConcatSplits(RowsOf(a), RowsOf(b));
      if !all { DedupInHalves(sem, columns, left.rows, right.rows, Concat(RowsOf(a)), Concat(RowsOf(b))); }
    }
  }

  lemma RunMeans(sem: Sem, s: Skeleton, rs: seq<Rows>, columns: seq<TypeInfo>, kind: SetOpKind, all: bool)
    requires SameTransitive(sem, columns) && s.Joined? && Spans(s, 0, |rs|) && OneOperator(s, kind, all) && Positions(s, |rs|)
    ensures SkeletonRows(sem, s, rs, columns) == RunResult(sem, kind, all, columns, rs)
  {
    if kind == Union {
      UnionMeans(sem, s, rs, columns, all, 0, |rs|);
      assert rs[0..|rs|] == rs;
    } else {
      var mid: nat :| Spans(s.left, 0, mid) && Spans(s.right, mid, |rs|);
      assert |rs| == 2;
    }
  }

  /** Putting a run back computes its one operator over its operands, whatever the parentheses. */
  lemma AssembledMeans(sem: Sem, s: Skeleton, plans: seq<Plan>, columns: seq<TypeInfo>, kind: SetOpKind, all: bool, outer: Env)
    requires SameTransitive(sem, columns)
    requires s.Joined? && Spans(s, 0, |plans|) && OneOperator(s, kind, all) && Positions(s, |plans|) && Uniform(plans, columns)
    ensures EvalPlan(sem, Assembled(s, plans, columns), outer) == RunResult(sem, kind, all, columns, EvalPlans(sem, plans, outer))
  {
    AssembledRows(sem, s, plans, columns, outer);
    RunMeans(sem, s, EvalPlans(sem, plans, outer), columns, kind, all);
  }

  // ----- an operand converted -----

  predicate Sized(r: Rows, width: nat) {
    r.Rows? ==> forall i :: 0 <= i < |r.rows| ==> |r.rows[i]| == width
  }

  function ConvertRow(sem: Sem, from: seq<TypeInfo>, to: seq<TypeInfo>, row: Row): (cells: seq<Outcome>)
    requires |from| == |to| == |row|
    ensures |cells| == |to|
    ensures forall c :: 0 <= c < |to| ==> cells[c] == ConvertValue(sem, from[c], to[c], row[c])
  {
    seq(|to|, c requires 0 <= c < |to| => ConvertValue(sem, from[c], to[c], row[c]))
  }

  /** The outcomes of a row converted. */
  function ConvertCells(sem: Sem, from: seq<TypeInfo>, to: seq<TypeInfo>, row: Row): seq<Outcome>
    requires |from| == |to|
  {
    if |row| == |from| then ConvertRow(sem, from, to, row) else [Error]
  }

  lemma FitsWhenConverted(sem: Sem, from: seq<TypeInfo>, to: seq<TypeInfo>, row: Row)
    requires |from| == |to|
    ensures AllValues(ConvertCells(sem, from, to, row)) ==> |row| == |from| && |ConvertCells(sem, from, to, row)| == |to|
  {
    assert [Error][0] == Error;
  }

  function AllCells(sem: Sem, from: seq<TypeInfo>, to: seq<TypeInfo>, rows: seq<Row>): (cells: seq<seq<Outcome>>)
    requires |from| == |to|
    ensures |cells| == |rows|
    ensures forall i :: 0 <= i < |rows| ==> cells[i] == ConvertCells(sem, from, to, rows[i])
  {
    seq(|rows|, i requires 0 <= i < |rows| => ConvertCells(sem, from, to, rows[i]))
  }

  /** Each row converted, cell by cell; failure when one conversion fails. */
  function ConvertRows(sem: Sem, from: seq<TypeInfo>, to: seq<TypeInfo>, r: Rows): Rows
    requires |from| == |to|
  {
    if r.Fail? then Fail else ProjectRows(AllCells(sem, from, to, r.rows))
  }

  lemma ConvertRowsSized(sem: Sem, from: seq<TypeInfo>, to: seq<TypeInfo>, r: Rows)
    requires |from| == |to|
    ensures Sized(ConvertRows(sem, from, to, r), |to|)
  {
    if r.Rows? {
      var cells := AllCells(sem, from, to, r.rows);
      forall i | 0 <= i < |cells| && AllValues(cells[i]) ensures |cells[i]| == |to| { FitsWhenConverted(sem, from, to, r.rows[i]); }
    }
  }

  /** Rows of the types wanted are left as they are. */
  lemma ConvertIdentity(sem: Sem, tys: seq<TypeInfo>, r: Rows)
    requires Sized(r, |tys|)
    ensures ConvertRows(sem, tys, tys, r) == r
  {
    if r.Rows? {
      var cells := AllCells(sem, tys, tys, r.rows);
      forall i | 0 <= i < |r.rows| ensures AllValues(cells[i]) && ValuesOf(cells[i]) == r.rows[i] {
        assert cells[i] == ConvertRow(sem, tys, tys, r.rows[i]);
      }
      assert ProjectRows(cells).rows == r.rows;
    }
  }

  lemma AboveCells(sem: Sem, plan: Plan, columns: seq<TypeInfo>, row: Row, outer: Env)
    requires |plan.schema| == |columns| == |row|
    ensures EvalAll(sem, ProjectAbove(plan, columns).exprs, [Plain(row)] + outer) == ConvertCells(sem, ColumnTypes(plan.schema), columns, row)
  {
    var above := ProjectAbove(plan, columns);
    forall c | 0 <= c < |columns|
      ensures Eval(sem, above.exprs[c], [Plain(row)] + outer) == ConvertValue(sem, plan.schema[c].ty, columns[c], row[c])
    {
      ConvertToMeans(sem, ColumnOf(plan.schema, c), columns[c], [Plain(row)] + outer);
    }
  }

  lemma ProjectAboveMeans(sem: Sem, plan: Plan, columns: seq<TypeInfo>, outer: Env)
    requires |plan.schema| == |columns| && Sized(EvalPlan(sem, plan, outer), |columns|)
    ensures EvalPlan(sem, ProjectAbove(plan, columns), outer)
            == ConvertRows(sem, ColumnTypes(plan.schema), columns, EvalPlan(sem, plan, outer))
  {
    var above := ProjectAbove(plan, columns);
    EvalUnary(sem, above, outer);
    var r := EvalPlan(sem, plan, outer);
    if r.Rows? {
      forall i | 0 <= i < |r.rows|
        ensures EvalAll(sem, above.exprs, [Plain(r.rows[i])] + outer) == ConvertCells(sem, ColumnTypes(plan.schema), columns, r.rows[i])
      {
        AboveCells(sem, plan, columns, r.rows[i], outer);
      }
      assert EvalOver(sem, above.exprs, r.rows, outer) == AllCells(sem, ColumnTypes(plan.schema), columns, r.rows);
    }
  }

  lemma ConvertExprMeans(sem: Sem, e: Expr, target: TypeInfo, env: Env)
    ensures var out := Eval(sem, e, env);
            Eval(sem, ConvertExpr(e, target), env) == if out.Error? then Error else ConvertValue(sem, e.ty, target, out.v)
  {
    ConvertToMeans(sem, e, target, env);
  }

  /** The expressions of a row converted: a value where both it and its conversion have one. */
  lemma ConvertExprsMean(sem: Sem, es: seq<Expr>, columns: seq<TypeInfo>, env: Env)
    requires |es| == |columns|
    ensures var outs, cells := EvalAll(sem, es, env), EvalAll(sem, ConvertExprs(es, columns), env);
            (AllValues(outs) ==> cells == ConvertRow(sem, Types(es), columns, ValuesOf(outs)))
            && (!AllValues(outs) ==> !AllValues(cells))
  {
    var outs, cells := EvalAll(sem, es, env), EvalAll(sem, ConvertExprs(es, columns), env);
    forall c | 0 <= c < |es|
      ensures cells[c] == if outs[c].Error? then Error else ConvertValue(sem, es[c].ty, columns[c], outs[c].v)
    {
      ConvertExprMeans(sem, es[c], columns[c], env);
    }
    if !AllValues(outs) {
      var c :| 0 <= c < |outs| && !outs[c].Val?;
      assert !cells[c].Val?;
    }
  }

  /** What is handed out, converted as it is pulled. */
  function ConvertStream(sem: Sem, from: seq<TypeInfo>, to: seq<TypeInfo>, s: Stream): Stream
    requires |from| == |to|
  {
    ProjectStream(AllCells(sem, from, to, s.rows), s.failed)
  }

  /** Pulled to its end, a stream converted is the rows converted. */
  lemma ConvertWhole(sem: Sem, from: seq<TypeInfo>, to: seq<TypeInfo>, s: Stream)
    requires |from| == |to|
    ensures Whole(ConvertStream(sem, from, to, s)) == ConvertRows(sem, from, to, Whole(s))
  {
    ProjectWhole(AllCells(sem, from, to, s.rows), s.failed);
  }

  /** A projection hands out as many rows, at most, as it has. */
  lemma {:induction false} ProjectCut(cells: seq<seq<Outcome>>, n: nat, failed: bool)
    requires n <= |cells|
    ensures var s, cut := ProjectStream(cells, failed), ProjectStream(cells[..n], false);
            if n <= |s.rows| then cut == Stream(s.rows[..n], false) else cut == s && s.failed
    decreases n
  {
    if n > 0 && AllValues(cells[0]) {
      ProjectCut(cells[1..], n - 1, failed);
      assert cells[..n][1..] == cells[1..][..n - 1];
    }
  }

  lemma {:induction false} ProjectShort(cells: seq<seq<Outcome>>, failed: bool)
    ensures |ProjectStream(cells, failed).rows| <= |cells|
    decreases |cells|
  {
    if cells != [] { ProjectShort(cells[1..], failed); }
  }

  /** Cutting what is handed out and converting it commute: no row past the cut is converted. */
  lemma LimitConverted(sem: Sem, from: seq<TypeInfo>, to: seq<TypeInfo>, s: Stream, count: Outcome)
    requires |from| == |to|
    ensures LimitStream(ConvertStream(sem, from, to, s), count) == ConvertStream(sem, from, to, LimitStream(s, count))
  {
    var cells := AllCells(sem, from, to, s.rows);
    ProjectShort(cells, s.failed);
    if count.Val? && count.v.Integral? && count.v.i >= 0 {
      var n := count.v.i;
      if n <= |s.rows| {
        ProjectCut(cells, n, s.failed);
        assert AllCells(sem, from, to, s.rows[..n]) == cells[..n];
      }
    }
  }

  lemma ConvertCons(sem: Sem, from: seq<TypeInfo>, to: seq<TypeInfo>, row: Row, rest: Stream)
    requires |from| == |to|
    ensures var cells, more := ConvertCells(sem, from, to, row), ConvertStream(sem, from, to, rest);
            ConvertStream(sem, from, to, Stream([row] + rest.rows, rest.failed))
            == if AllValues(cells) then Stream([ValuesOf(cells)] + more.rows, more.failed) else Stream([], true)
  {
    var all := AllCells(sem, from, to, [row] + rest.rows);
    assert all[0] == ConvertCells(sem, from, to, row) && all[1..] == AllCells(sem, from, to, rest.rows);
  }

  lemma OverTail(sem: Sem, es: seq<Expr>, rows: seq<Row>, outer: Env)
    requires rows != []
    ensures EvalOver(sem, es, rows, outer)[0] == EvalAll(sem, es, [Plain(rows[0])] + outer)
    ensures EvalOver(sem, es, rows, outer)[1..] == EvalOver(sem, es, rows[1..], outer)
  {
  }

  lemma {:induction false} ProjectOfProject(sem: Sem, es: seq<Expr>, columns: seq<TypeInfo>, rows: seq<Row>, failed: bool, outer: Env)
    requires |es| == |columns|
    ensures ProjectStream(EvalOver(sem, ConvertExprs(es, columns), rows, outer), failed)
         == ConvertStream(sem, Types(es), columns, ProjectStream(EvalOver(sem, es, rows, outer), failed))
    decreases |rows|
  {
    if rows != [] {
      OverTail(sem, es, rows, outer);
      OverTail(sem, ConvertExprs(es, columns), rows, outer);
      ConvertExprsMean(sem, es, columns, [Plain(rows[0])] + outer);
      ProjectOfProject(sem, es, columns, rows[1..], failed, outer);
      var before := EvalAll(sem, es, [Plain(rows[0])] + outer);
      if AllValues(before) {
        ConvertCons(sem, Types(es), columns, ValuesOf(before), ProjectStream(EvalOver(sem, es, rows[1..], outer), failed));
      }
    }
  }

  /** A projection converted in place hands out what the projection does, converted. */
  lemma ProjectConverted(sem: Sem, plan: Plan, columns: seq<TypeInfo>, outer: Env)
    requires plan.op.Project? && Ends(plan) && |plan.schema| == |columns|
    ensures EvalStream(sem, ConvertProjection(plan, columns), outer)
            == ConvertStream(sem, ColumnTypes(plan.schema), columns, EvalStream(sem, plan, outer))
  {
    StreamUnary(sem, plan, outer);
    StreamUnary(sem, ConvertProjection(plan, columns), outer);
    var input := EvalStream(sem, plan.inputs[0], outer);
    assert Produced([input]) == [input.rows];
    ProjectOfProject(sem, plan.exprs, columns, input.rows, input.failed, outer);
  }

  /** A projection, under the `Limit` of a `TOP` or not. */
  predicate Simple(plan: Plan) {
    Ends(plan) && (plan.op.Project? || (plan.op.Limit? && |plan.exprs| == 1 && Simple(plan.inputs[0])))
  }

  /** A `SELECT` converted in its projection hands out what the `SELECT` does, converted, whatever
      the `TOP`s above the projection. */
  lemma {:induction false} SimpleConverted(sem: Sem, plan: Plan, columns: seq<TypeInfo>, outer: Env)
    requires Simple(plan) && |plan.schema| == |columns|
    ensures EvalStream(sem, ConvertProjection(plan, columns), outer)
            == ConvertStream(sem, ColumnTypes(plan.schema), columns, EvalStream(sem, plan, outer))
    decreases plan
  {
    if plan.op.Project? {
      ProjectConverted(sem, plan, columns, outer);
    } else {
      var input, converted := plan.inputs[0], ConvertProjection(plan.inputs[0], columns);
      SimpleConverted(sem, input, columns, outer);
      assert plan == LimitOver(input, plan.exprs[0]);
      LimitHands(sem, input, plan.exprs[0], outer);
      LimitHands(sem, converted, plan.exprs[0], outer);
      LimitConverted(sem, ColumnTypes(plan.schema), columns, EvalStream(sem, input, outer), Eval(sem, plan.exprs[0], [Plain([])] + outer));
    }
  }

  /** A bound `SELECT`: a projection under a `TOP`, or a `DISTINCT` under what keeps its rows. */
  predicate IsSelect(plan: Plan) {
    Ends(plan) && !plan.op.SetOp? && (Simple(plan) || Deduplicates(plan))
  }

  /** An operand converted: its rows, in its own types and deduplicated there if it is, converted
      cell by cell. */
  lemma OperandConverted(sem: Sem, operand: TypedPlan, columns: seq<TypeInfo>, outer: Env)
    requires Ends(operand.plan) && |operand.plan.schema| == |columns| && Sized(EvalPlan(sem, operand.plan, outer), |columns|)
    requires operand.plan.op.SetOp? || IsSelect(operand.plan)
    ensures EvalPlan(sem, ConvertOperand(operand, columns), outer)
            == ConvertRows(sem, ColumnTypes(operand.plan.schema), columns, EvalPlan(sem, operand.plan, outer))
  {
    if ColumnTypes(operand.plan.schema) == columns {
      ConvertIdentity(sem, columns, EvalPlan(sem, operand.plan, outer));
    } else if operand.plan.op.SetOp? || Deduplicates(operand.plan) {
      ProjectAboveMeans(sem, operand.plan, columns, outer);
    } else {
      SimpleConverted(sem, operand.plan, columns, outer);
      ConvertWhole(sem, ColumnTypes(operand.plan.schema), columns, EvalStream(sem, operand.plan, outer));
    }
  }

  // ----- a whole tree -----

  function RunOperands(t: Tree): (operands: seq<Tree>)
    requires WellShaped(t) && t.Branch?
    ensures operands != [] && AllShaped(operands, Width(t)) && forall i :: 0 <= i < |operands| ==> operands[i] < t
  {
    RunIsShaped(t);
    SplitRun(t, t.kind, t.all, []).1
  }

  /** The operands of a run typed, and the types of its columns. */
  function TypedRun(t: Tree): (r: Option<(seq<TypedPlan>, seq<TypeInfo>)>)
    requires WellShaped(t) && t.Branch?
    ensures r.Some? ==> |r.value.0| == |RunOperands(t)| && Rectangular(r.value.0) && |r.value.1| == Width(t)
    ensures r.Some? ==> forall i :: 0 <= i < |r.value.0| ==> TypeTree(RunOperands(t)[i]) == Some(r.value.0[i]) && Fitting(r.value.0[i], Width(t))
  {
    RunIsShaped(t);
    match TypeAll(t, RunOperands(t), Width(t))
    case None => None
    case Some(typed) =>
      match RunColumns(typed)
      case None => None
      case Some(columns) => Some((typed, columns))
  }

  /** The rows a tree stands for. */
  function Means(sem: Sem, t: Tree, outer: Env): Rows
    requires WellShaped(t)
    decreases t, 1
  {
    match t
    case Leaf(plan) => EvalPlan(sem, plan, outer)
    case Branch(kind, all, _, _) =>
      match TypedRun(t)
      case None => Fail
      case Some((typed, columns)) =>
        RunIsShaped(t);
        RunResult(sem, kind, all, columns, OperandRows(sem, t, RunOperands(t), typed, columns, outer))
  }

  /** The rows of each operand, converted to the types of the run. */
  function OperandRows(sem: Sem, above: Tree, operands: seq<Tree>, typed: seq<TypedPlan>, columns: seq<TypeInfo>, outer: Env): (rs: seq<Rows>)
    requires |typed| == |operands| && forall i :: 0 <= i < |operands| ==> operands[i] < above && WellShaped(operands[i])
    requires forall i :: 0 <= i < |typed| ==> |typed[i].plan.schema| == |columns|
    ensures |rs| == |operands|
    ensures forall i :: 0 <= i < |operands| ==>
              rs[i] == ConvertRows(sem, ColumnTypes(typed[i].plan.schema), columns, Means(sem, operands[i], outer))
    decreases above, 0
  {
    seq(|operands|, i requires 0 <= i < |operands| =>
      ConvertRows(sem, ColumnTypes(typed[i].plan.schema), columns, Means(sem, operands[i], outer)))
  }

  /** Every `SELECT` of the tree produces rows of its columns. */
  predicate SelectsRight(sem: Sem, t: Tree, outer: Env) {
    match t
    case Leaf(plan) => IsSelect(plan) && Sized(EvalPlan(sem, plan, outer), |plan.schema|)
    case Branch(_, _, left, right) => SelectsRight(sem, left, outer) && SelectsRight(sem, right, outer)
  }

  lemma TypeTreeIs(t: Tree)
    requires WellShaped(t) && t.Branch?
    ensures TypeTree(t).Some? == TypedRun(t).Some?
    ensures TypedRun(t).Some? ==>
              var (typed, columns) := TypedRun(t).value;
              var s := SplitRun(t, t.kind, t.all, []).0;
              Positions(s, |typed|)
              && TypeTree(t).value == TypedPlan(Assembled(s, ConvertOperands(typed, columns), columns), RunViews(t.kind, typed, columns))
  {
    RunIsShaped(t);
  }

  lemma {:induction false} OperandsRight(sem: Sem, t: Tree, kind: SetOpKind, all: bool, outer: Env)
    requires SelectsRight(sem, t, outer)
    ensures AllRight(sem, OperandsOf(t, kind, all), outer)
  {
    if t.Branch? {
      if Continues(t.left, kind, all) { OperandsRight(sem, t.left, kind, all, outer); }
      if Continues(t.right, kind, all) { OperandsRight(sem, t.right, kind, all, outer); }
      var first := if Continues(t.left, kind, all) then OperandsOf(t.left, kind, all) else [t.left];
      var second := if Continues(t.right, kind, all) then OperandsOf(t.right, kind, all) else [t.right];
      assert AllRight(sem, first, outer) && AllRight(sem, second, outer);
      assert OperandsOf(t, kind, all) == first + second;
    }
  }

  predicate AllRight(sem: Sem, operands: seq<Tree>, outer: Env) {
    forall i :: 0 <= i < |operands| ==> SelectsRight(sem, operands[i], outer)
  }

  /** The typed plan of a tree computes what the tree means. */
  ghost predicate TypedMeans(sem: Sem, t: Tree, outer: Env)
    requires WellShaped(t)
  {
    TypeTree(t).Some?
    && EvalPlan(sem, TypeTree(t).value.plan, outer) == Means(sem, t, outer)
    && Sized(EvalPlan(sem, TypeTree(t).value.plan, outer), Width(t))
    && (t.Branch? ==> TypeTree(t).value.plan.op.SetOp?)
  }

  /** Set operators preserve meaning: the plan put back computes what the tree of them means, a
      run being its one operator over its operands converted to its types, a nested run and a
      `SELECT DISTINCT` deduplicated in their own types first. */
  lemma {:induction false} TypeTreeMeans(sem: Sem, t: Tree, outer: Env)
    requires WellShaped(t) && TypeTree(t).Some? && SelectsRight(sem, t, outer) && forall tys :: SameTransitive(sem, tys)
    ensures TypedMeans(sem, t, outer)
    decreases t
  {
    if t.Branch? {
      TypeTreeIs(t);
      var operands := RunOperands(t);
      RunOperandsRight(sem, t, outer);
      forall i | 0 <= i < |operands| ensures TypedMeans(sem, operands[i], outer) {
        TypeTreeMeans(sem, operands[i], outer);
      }
      TypedRunMeans(sem, t, outer);
    }
  }

  lemma RunOperandsRight(sem: Sem, t: Tree, outer: Env)
    requires WellShaped(t) && t.Branch? && SelectsRight(sem, t, outer)
    ensures AllRight(sem, RunOperands(t), outer)
  {
    SplitRunKeeps(t, t.kind, t.all, []);
    assert RunOperands(t) == OperandsOf(t, t.kind, t.all);
    OperandsRight(sem, t, t.kind, t.all, outer);
  }

  /** A run whose operands compute what they mean. */
  lemma TypedRunMeans(sem: Sem, t: Tree, outer: Env)
    requires WellShaped(t) && t.Branch? && TypedRun(t).Some? && SelectsRight(sem, t, outer) && forall tys :: SameTransitive(sem, tys)
    requires forall i :: 0 <= i < |RunOperands(t)| ==> TypedMeans(sem, RunOperands(t)[i], outer)
    ensures TypedMeans(sem, t, outer)
  {
    TypeTreeIs(t);
    var (typed, columns) := TypedRun(t).value;
    var plans := ConvertOperands(typed, columns);
    var wanted := OperandRows(sem, t, RunOperands(t), typed, columns, outer);
    PlansAgree(sem, t, typed, columns, outer);
    AssembledRun(sem, t, plans, columns, outer);
    assert EvalPlans(sem, plans, outer) == wanted;
    RunSized(sem, t.kind, t.all, columns, EvalPlans(sem, plans, outer));
  }

  lemma AssembledRun(sem: Sem, t: Tree, plans: seq<Plan>, columns: seq<TypeInfo>, outer: Env)
    requires WellShaped(t) && t.Branch? && |plans| == |RunOperands(t)| && Uniform(plans, columns) && SameTransitive(sem, columns)
    requires Positions(SplitRun(t, t.kind, t.all, []).0, |plans|)
    ensures var plan := Assembled(SplitRun(t, t.kind, t.all, []).0, plans, columns);
            EvalPlan(sem, plan, outer) == RunResult(sem, t.kind, t.all, columns, EvalPlans(sem, plans, outer)) && plan.op.SetOp?
  {
    SplitRunKeeps(t, t.kind, t.all, []);
    SplitRunIsOne(t, t.kind, t.all, []);
    AssembledMeans(sem, SplitRun(t, t.kind, t.all, []).0, plans, columns, t.kind, t.all, outer);
  }

  lemma PlansAgree(sem: Sem, t: Tree, typed: seq<TypedPlan>, columns: seq<TypeInfo>, outer: Env)
    requires WellShaped(t) && t.Branch? && TypedRun(t) == Some((typed, columns)) && SelectsRight(sem, t, outer)
    requires forall i :: 0 <= i < |RunOperands(t)| ==> TypedMeans(sem, RunOperands(t)[i], outer)
    ensures var out := EvalPlans(sem, ConvertOperands(typed, columns), outer);
            var wanted := OperandRows(sem, t, RunOperands(t), typed, columns, outer);
            forall i :: 0 <= i < |out| ==> out[i] == wanted[i] && Sized(out[i], |columns|)
  {
    var operands := RunOperands(t);
    RunOperandsRight(sem, t, outer);
    forall i | 0 <= i < |operands|
      ensures EvalPlan(sem, ConvertOperand(typed[i], columns), outer)
              == ConvertRows(sem, ColumnTypes(typed[i].plan.schema), columns, Means(sem, operands[i], outer))
      ensures Sized(EvalPlan(sem, ConvertOperand(typed[i], columns), outer), |columns|)
    {
      assert TypedMeans(sem, operands[i], outer);
      OperandAgreement(sem, operands[i], typed[i], columns, outer);
    }
  }

  predicate AllWide(rows: seq<Row>, width: nat) {
    forall i :: 0 <= i < |rows| ==> |rows[i]| == width
  }

  lemma {:induction false} DedupWide(sem: Sem, tys: seq<TypeInfo>, kept: seq<Row>, rows: seq<Row>, width: nat)
    requires AllWide(kept, width) && AllWide(rows, width)
    ensures AllWide(DedupOnto(sem, tys, kept, rows), width)
    decreases |rows|
  {
    if rows != [] { DedupWide(sem, tys, if Seen(sem, tys, rows[0], kept) then kept else kept + [rows[0]], rows[1..], width); }
  }

  lemma {:induction false} AgainstWide(sem: Sem, tys: seq<TypeInfo>, rows: seq<Row>, others: seq<Row>, wanted: bool, width: nat)
    requires AllWide(rows, width)
    ensures AllWide(Against(sem, tys, rows, others, wanted), width)
    decreases |rows|
  {
    if rows != [] { AgainstWide(sem, tys, rows[1..], others, wanted, width); }
  }

  lemma {:induction false} ConcatWide(rows: seq<seq<Row>>, width: nat)
    requires forall i :: 0 <= i < |rows| ==> AllWide(rows[i], width)
    ensures AllWide(Concat(rows), width)
    decreases |rows|
  {
    if rows != [] { ConcatWide(rows[1..], width); }
  }

  lemma RunSized(sem: Sem, kind: SetOpKind, all: bool, columns: seq<TypeInfo>, rs: seq<Rows>)
    requires forall i :: 0 <= i < |rs| ==> Sized(rs[i], |columns|)
    ensures Sized(RunResult(sem, kind, all, columns, rs), |columns|)
  {
    if !AnyFails(rs) {
      var rows := RowsOf(rs);
      forall i | 0 <= i < |rows| ensures AllWide(rows[i], |columns|) { assert Sized(rs[i], |columns|); }
      if kind == Union {
        ConcatWide(rows, |columns|);
        DedupWide(sem, columns, [], Concat(rows), |columns|);
      } else if |rows| == 2 {
        DedupWide(sem, columns, [], rows[0], |columns|);
        AgainstWide(sem, columns, Dedup(sem, columns, rows[0]), rows[1], kind == Intersect, |columns|);
      }
    }
  }

  lemma OperandAgreement(sem: Sem, operand: Tree, typed: TypedPlan, columns: seq<TypeInfo>, outer: Env)
    requires WellShaped(operand) && SelectsRight(sem, operand, outer) && TypeTree(operand) == Some(typed)
    requires |columns| == Width(operand)
    requires EvalPlan(sem, typed.plan, outer) == Means(sem, operand, outer)
    requires Sized(EvalPlan(sem, typed.plan, outer), Width(operand)) && (operand.Branch? ==> typed.plan.op.SetOp?)
    ensures EvalPlan(sem, ConvertOperand(typed, columns), outer)
            == ConvertRows(sem, ColumnTypes(typed.plan.schema), columns, Means(sem, operand, outer))
    ensures Sized(EvalPlan(sem, ConvertOperand(typed, columns), outer), |columns|)
  {
    OperandConverted(sem, typed, columns, outer);
    ConvertRowsSized(sem, ColumnTypes(typed.plan.schema), columns, EvalPlan(sem, typed.plan, outer));
  }

  // ----- parentheses -----

  /** Two trees of one operator over the operands `A`, `B`, … written in one order, whatever the
      parentheses among them. */
  predicate SameRun(t: Tree, u: Tree) {
    t.Branch? && u.Branch? && t.kind == u.kind && t.all == u.all
    && OperandsOf(t, t.kind, t.all) == OperandsOf(u, u.kind, u.all)
  }

  lemma SameRunOperands(t: Tree, u: Tree)
    requires WellShaped(t) && WellShaped(u) && SameRun(t, u)
    ensures RunOperands(t) == RunOperands(u) && Width(t) == Width(u)
  {
    SplitRunKeeps(t, t.kind, t.all, []);
    SplitRunKeeps(u, u.kind, u.all, []);
    assert RunOperands(t) == OperandsOf(t, t.kind, t.all) && RunOperands(u) == OperandsOf(u, u.kind, u.all);
    assert Width(RunOperands(t)[0]) == Width(t) && Width(RunOperands(u)[0]) == Width(u);
  }

  /** The types of the columns of a run depend on the list of its operands alone. */
  lemma ParenthesesKeepTypes(t: Tree, u: Tree)
    requires WellShaped(t) && WellShaped(u) && SameRun(t, u)
    ensures TypedRun(t) == TypedRun(u)
    ensures TypeTree(t).Some? == TypeTree(u).Some?
    ensures TypeTree(t).Some? ==>
              TypeTree(t).value.views == TypeTree(u).value.views
              && ColumnTypes(TypeTree(t).value.plan.schema) == ColumnTypes(TypeTree(u).value.plan.schema)
  {
    SameRunOperands(t, u);
    var operands := RunOperands(t);
    var a, b := TypeAll(t, operands, Width(t)), TypeAll(u, operands, Width(t));
    if a.Some? && b.Some? { assert a.value == b.value; }
    TypeTreeIs(t);
    TypeTreeIs(u);
  }

  /** And so do the rows. */
  lemma ParenthesesKeepRows(sem: Sem, t: Tree, u: Tree, outer: Env)
    requires WellShaped(t) && WellShaped(u) && SameRun(t, u)
    ensures Means(sem, t, outer) == Means(sem, u, outer)
  {
    SameRunOperands(t, u);
    ParenthesesKeepTypes(t, u);
    if TypedRun(t).Some? {
      var (typed, columns) := TypedRun(t).value;
      assert OperandRows(sem, t, RunOperands(t), typed, columns, outer) == OperandRows(sem, u, RunOperands(t), typed, columns, outer);
    }
  }

  // ----- a body as written -----

  /** Every `SELECT` produces rows of its columns. */
  predicate SelectsProduce(sem: Sem, plans: seq<Plan>, outer: Env) {
    forall i :: 0 <= i < |plans| ==> IsSelect(plans[i]) && Sized(EvalPlan(sem, plans[i], outer), |plans[i].schema|)
  }

  lemma {:induction false} BindTreeRight(sem: Sem, b: Body, outer: Env)
    requires SelectsProduce(sem, Selects(b), outer)
    ensures BindTree(b).Some? ==> SelectsRight(sem, BindTree(b).value, outer)
  {
    match b
    case Select(plan) => assert Selects(b)[0] == plan;
    case Parens(inner) => BindTreeRight(sem, inner, outer);
    case SetBody(_, _, left, right) =>
      assert forall i :: 0 <= i < |Selects(left)| ==> Selects(left)[i] == Selects(b)[i];
      assert forall i :: 0 <= i < |Selects(right)| ==> Selects(right)[i] == Selects(b)[|Selects(left)| + i];
      BindTreeRight(sem, left, outer);
      BindTreeRight(sem, right, outer);
  }

  /** A set operation as written is refused when its `SELECT`s differ in width or share no type,
      and its plan computes what it means otherwise. */
  lemma BindSetOpMeans(sem: Sem, b: Body, outer: Env)
    requires AllSelects(Selects(b)) && SelectsProduce(sem, Selects(b), outer) && forall tys :: SameTransitive(sem, tys)
    ensures BindSetOp(b).Some? ==>
              BindTree(b).Some? && WellShaped(BindTree(b).value)
              && EvalPlan(sem, BindSetOp(b).value, outer) == Means(sem, BindTree(b).value, outer)
  {
    BindTreeIsShaped(b);
    BindTreeRight(sem, b, outer);
    if BindSetOp(b).Some? { TypeTreeMeans(sem, BindTree(b).value, outer); }
  }

  /** `(a UNION b) UNION c`. */
  function LeftFirst(all: bool, a: Body, b: Body, c: Body): (body: Body)
    ensures Selects(body) == Selects(a) + Selects(b) + Selects(c)
  {
    var inner := SetBody(Union, all, a, b);
    assert Selects(inner) == Selects(a) + Selects(b);
    SetBody(Union, all, Parens(inner), c)
  }

  /** `a UNION (b UNION c)`. */
  function RightFirst(all: bool, a: Body, b: Body, c: Body): (body: Body)
    ensures Selects(body) == Selects(a) + Selects(b) + Selects(c)
  {
    var inner := SetBody(Union, all, b, c);
    assert Selects(inner) == Selects(b) + Selects(c);
    SetBody(Union, all, a, Parens(inner))
  }

  /** `UNION` is associative, and `UNION ALL` is: moving the parentheses changes neither whether the
      query is accepted, nor the types of its columns, nor its rows. */
  lemma UnionAssociates(sem: Sem, all: bool, a: Body, b: Body, c: Body, outer: Env)
    requires AllSelects(Selects(a) + Selects(b) + Selects(c)) && SelectsProduce(sem, Selects(a) + Selects(b) + Selects(c), outer)
    requires forall tys :: SameTransitive(sem, tys)
    ensures var x, y := BindSetOp(LeftFirst(all, a, b, c)), BindSetOp(RightFirst(all, a, b, c));
            x.Some? == y.Some?
            && (x.Some? ==> EvalPlan(sem, x.value, outer) == EvalPlan(sem, y.value, outer) && ColumnTypes(x.value.schema) == ColumnTypes(y.value.schema))
  {
    var x, y := LeftFirst(all, a, b, c), RightFirst(all, a, b, c);
    BindSetOpMeans(sem, x, outer);
    BindSetOpMeans(sem, y, outer);
    BindTreeExactly(x);
    BindTreeExactly(y);
    if BindTree(x).Some? {
      UnionTrees(all, a, b, c);
      SameRunKept(sem, x, y, outer);
    }
  }

  lemma SameRunKept(sem: Sem, x: Body, y: Body, outer: Env)
    requires AllSelects(Selects(x)) && AllSelects(Selects(y))
    requires BindTree(x).Some? && BindTree(y).Some? && SameRun(BindTree(x).value, BindTree(y).value)
    ensures BindSetOp(x).Some? == BindSetOp(y).Some?
    ensures BindSetOp(x).Some? ==> ColumnTypes(BindSetOp(x).value.schema) == ColumnTypes(BindSetOp(y).value.schema)
    ensures WellShaped(BindTree(x).value) && WellShaped(BindTree(y).value)
            && Means(sem, BindTree(x).value, outer) == Means(sem, BindTree(y).value, outer)
  {
    BindTreeIsShaped(x);
    BindTreeIsShaped(y);
    ParenthesesKeepTypes(BindTree(x).value, BindTree(y).value);
    ParenthesesKeepRows(sem, BindTree(x).value, BindTree(y).value, outer);
  }

  lemma UnionTrees(all: bool, a: Body, b: Body, c: Body)
    requires BindTree(LeftFirst(all, a, b, c)).Some? && BindTree(RightFirst(all, a, b, c)).Some?
    ensures SameRun(BindTree(LeftFirst(all, a, b, c)).value, BindTree(RightFirst(all, a, b, c)).value)
  {
    assert BindTree(Parens(SetBody(Union, all, a, b))) == BindTree(SetBody(Union, all, a, b));
    assert BindTree(Parens(SetBody(Union, all, b, c))) == BindTree(SetBody(Union, all, b, c));
    UnionOperands(all, BindTree(a).value, BindTree(b).value, BindTree(c).value);
  }

  lemma UnionOperands(all: bool, a: Tree, b: Tree, c: Tree)
    ensures SameRun(Branch(Union, all, Branch(Union, all, a, b), c), Branch(Union, all, a, Branch(Union, all, b, c)))
  {
    var first := if Continues(a, Union, all) then OperandsOf(a, Union, all) else [a];
    var second := if Continues(b, Union, all) then OperandsOf(b, Union, all) else [b];
    var third := if Continues(c, Union, all) then OperandsOf(c, Union, all) else [c];
    assert (first + second) + third == first + (second + third);
  }
}
