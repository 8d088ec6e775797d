/** `v <op> ANY | SOME | ALL (SELECT …)`: an `IN` over the outcomes of the comparisons, against the
    truth value section 8.7 of ISO/IEC 9075:1992 gives a quantified comparison. */
module Quantified {
  import opened Options
  import opened SqlTypes
  import opened Bound
  import opened Evaluation
  import opened Relational
  import opened Evaluator
  import opened Renaming
  import opened Conversions
  import opened SortStack

  // ----- the truth of a quantified comparison -----

  function Comparisons(sem: Sem, coll: Option<nat>, op: CompareOp, v: Value, candidates: seq<Value>): (cs: seq<Option<bool>>)
    ensures |cs| == |candidates|
    ensures forall i :: 0 <= i < |candidates| ==> cs[i] == Compare3(sem, coll, op, v, candidates[i])
  {
    seq(|candidates|, i requires 0 <= i < |candidates| => Compare3(sem, coll, op, v, candidates[i]))
  }

  /** `ALL`: true when the list is empty or every comparison is true, false when one is false,
      unknown otherwise. `ANY`: true when one comparison is true, false when the list is empty or
      every comparison is false, unknown otherwise. */
  function Truth87(all: bool, cs: seq<Option<bool>>): Option<bool> {
    if all then
      if forall i :: 0 <= i < |cs| ==> cs[i] == Some(true) then Some(true)
      else if exists i :: 0 <= i < |cs| && cs[i] == Some(false) then Some(false)
      else None
    else
      if exists i :: 0 <= i < |cs| && cs[i] == Some(true) then Some(true)
      else if forall i :: 0 <= i < |cs| ==> cs[i] == Some(false) then Some(false)
      else None
  }

  /** The values of a column read row by row: those before the first row it fails on, and whether
      the reading stopped there or the rows themselves did. */
  datatype Readout = Readout(values: seq<Value>, stopped: bool)

  function ReadUntil(outs: seq<Outcome>, failed: bool): Readout {
    if outs == [] then Readout([], failed)
    else if outs[0].Error? then Readout([], true)
    else var rest := ReadUntil(outs[1..], failed); Readout([outs[0].v] + rest.values, rest.stopped)
  }

  /** The truth of a quantified comparison over what could be read: one comparison decides it, a
      true one under `ANY` and a false one under `ALL`, and short of that a reading that stopped
      is an error. */
  function Decided(sem: Sem, coll: Option<nat>, op: CompareOp, all: bool, v: Value, read: Readout): Outcome {
    var truth := Truth87(all, Comparisons(sem, coll, op, v, read.values));
    if read.stopped && truth != Some(!all) then Error else Val(FromCondition(truth))
  }

  // ----- the tested value, one query deeper -----

  function OneDeeper(): Renaming {
    (c: ColumnBinding) => c.(depth := c.depth + 1)
  }

  function Deeper(e: Expr): Expr {
    Rename(e, 0, OneDeeper())
  }

  predicate AnyColumn(c: ColumnBinding) {
    true
  }

  lemma {:induction false} ReadsAny(e: Expr, n: nat)
    ensures Reads(e, n, AnyColumn)
    decreases e, 0
  {
    match e
    case Literal(_, _) =>
    case Variable(_, _) =>
    case ColumnRef(_, _) =>
    case Op(_, args, _) => ReadsAnyAll(args, n);
    case Subquery(_, tested, plan, _) =>
      ReadsAnyAll(tested, n);
      PlanReadsAny(plan, n + 1);
  }

  lemma {:induction false} ReadsAnyAll(es: seq<Expr>, n: nat)
    ensures ReadsAll(es, n, AnyColumn)
    decreases es, 0
  {
    forall i | 0 <= i < |es| ensures Reads(es[i], n, AnyColumn) { ReadsAny(es[i], n); }
  }

  lemma {:induction false} PlanReadsAny(plan: Plan, n: nat)
    ensures PlanReads(plan, n, AnyColumn)
    decreases plan, 0
  {
    if !plan.op.Derived? {
      ReadsAnyAll(plan.exprs, n);
      forall i | 0 <= i < |plan.inputs| ensures PlanReads(plan.inputs[i], n, AnyColumn) { PlanReadsAny(plan.inputs[i], n); }
    }
  }

  /** Bound one query deeper, an expression computes under any row what it computed, whatever
      queries are nested in it. */
  lemma DeeperMeans(sem: Sem, e: Expr, row: Row, env: Env)
    ensures Eval(sem, Deeper(e), [Plain(row)] + env) == Eval(sem, e, env)
  {
    ReadsAny(e, 0);
    assert Matches(AnyColumn, OneDeeper(), env, [Plain(row)] + env);
    RenameEval(sem, e, 0, AnyColumn, OneDeeper(), [], env, [Plain(row)] + env);
    assert [] + env == env && [] + ([Plain(row)] + env) == [Plain(row)] + env;
  }

  // ----- the comparison -----

  /** `recollate`: a column or a subquery under a conversion to its own type, another string
      retyped in place. */
  function Recollate(e: Expr, collation: nat): Expr {
    if !IsString(e.ty.ty) || e.ty.collation == Some(collation) then e
    else if e.Literal? || e.Variable?
         || (e.Op? && (e.op.Arith? || e.op.Case? || e.op.Convert? || e.op.Function? || e.op.Collate?)) then
      WithType(e, e.ty.(collation := Some(collation)))
    else Op(Convert(None, false), [e], e.ty.(collation := Some(collation)))
  }

  /** `convert_collated`. */
  function Prepare(e: Expr, common: TypeInfo): Expr {
    var converted := ConvertTo(e, common);
    if common.collation.Some? then Recollate(converted, common.collation.value) else converted
  }

  lemma PrepareDeeper(e: Expr, common: TypeInfo)
    ensures Prepare(Deeper(e), common) == Deeper(Prepare(e, common))
  {
    assert forall x: Expr :: RenameAll([x], 0, OneDeeper()) == [Rename(x, 0, OneDeeper())];
  }

  /** `compare_node`, `common` being the type its operands are brought to. */
  function CompareNode(op: CompareOp, left: Expr, right: Expr, common: TypeInfo): (e: Expr)
    ensures e.Op? && |e.args| == 2
  {
    Op(Compare(op), [Prepare(left, common), Prepare(right, common)], NewType(Bit, left.ty.nullable || right.ty.nullable))
  }

  function IntLiteral(i: int): Expr {
    Literal(Integral(i), NewType(Int, false))
  }

  const OUTCOME_TYPE := NewType(Int, true)

  /** `1` when the comparison is true, `0` when its negation is, `NULL` otherwise. */
  function OutcomeOf(comparison: Expr): Expr {
    Op(Case, [comparison, IntLiteral(1), Op(Not, [comparison], comparison.ty), IntLiteral(0)], OUTCOME_TYPE)
  }

  function OutcomesOver(plan: Plan, comparison: Expr): Plan {
    ProjectOver(plan, [OutcomeOf(comparison)], [OutputColumn(Written(""), OUTCOME_TYPE)])
  }

  /** `convert_produced_column`. */
  function ConvertProduced(plan: Plan, common: TypeInfo): Plan
    requires |plan.schema| == 1
  {
    if plan.schema[0].ty.ty == common.ty then plan
    else
      var converted := ConvertTo(ColumnOf(plan.schema, 0), common);
      ProjectOver(plan, [converted], [OutputColumn(plan.schema[0].name, converted.ty)])
  }

  /** `bind_in_subquery`. */
  function InNode(tested: Expr, plan: Plan, negated: bool, common: TypeInfo): Expr
    requires |plan.schema| == 1
  {
    Subquery(InRows(negated), [ConvertTo(tested, common)], ConvertProduced(plan, common),
             NewType(Bit, tested.ty.nullable || plan.schema[0].ty.nullable))
  }

  /** `bind_quantified`: `= ANY` is `IN` and `<> ALL` is `NOT IN`; the others test `1`, or `0`,
      among the outcomes. */
  function QuantifiedNode(op: CompareOp, all: bool, tested: Expr, plan: Plan, common: TypeInfo): Expr
    requires |plan.schema| == 1
  {
    if op == Eq && !all then InNode(tested, plan, false, common)
    else if op == Ne && all then InNode(tested, plan, true, common)
    else
      var comparison := CompareNode(op, Deeper(tested), ColumnOf(plan.schema, 0), common);
      Subquery(InRows(all), [IntLiteral(if all then 0 else 1)], OutcomesOver(plan, comparison), NewType(Bit, comparison.ty.nullable))
  }

  // ----- one outcome -----

  function OutcomeValue(c: Option<bool>): Value {
    match c
    case None => Null
    case Some(true) => Integral(1)
    case Some(false) => Integral(0)
  }

  lemma OutcomeMeans(sem: Sem, comparison: Expr, c: Option<bool>, env: Env)
    requires Eval(sem, comparison, env) == Val(FromCondition(c))
    ensures Eval(sem, OutcomeOf(comparison), env) == Val(OutcomeValue(c))
  {
    var args := OutcomeOf(comparison).args;
    var outs := EvalAll(sem, args, env);
    assert EvalAll(sem, [comparison], env) == [Val(FromCondition(c))];
    assert outs[0] == Val(FromCondition(c)) && outs[2] == Val(FromCondition(Not3(c)));
    assert outs[1] == Val(Integral(1)) && outs[3] == Val(Integral(0));
    var rest := outs[2..];
    assert rest == [outs[2], outs[3]] && rest[2..] == [];
    assert ApplyCase([]) == Val(Null);
    assert ApplyCase(rest) == if Not3(c) == Some(true) then outs[3] else Val(Null);
  }

  lemma OutcomeFails(sem: Sem, comparison: Expr, env: Env)
    requires Eval(sem, comparison, env).Error?
    ensures Eval(sem, OutcomeOf(comparison), env).Error?
  {
    var outs := EvalAll(sem, OutcomeOf(comparison).args, env);
    assert outs[0].Error?;
    assert ApplyCase(outs).Error?;
  }

  /** The comparison of two expressions brought to one type fails exactly when one of them does. */
  lemma CompareMeans(sem: Sem, op: CompareOp, left: Expr, right: Expr, common: TypeInfo, env: Env)
    ensures var l, r := Prepare(left, common), Prepare(right, common);
            var x, y := Eval(sem, l, env), Eval(sem, r, env);
            Eval(sem, CompareNode(op, left, right, common), env)
            == if x.Error? || y.Error? then Error else Val(FromCondition(Compare3(sem, CollationOf([l.ty, r.ty]), op, x.v, y.v)))
  {
    var args := CompareNode(op, left, right, common).args;
    assert EvalAll(sem, args, env) == [Eval(sem, args[0], env), Eval(sem, args[1], env)];
    assert Types(args) == [args[0].ty, args[1].ty];
  }

  // ----- the whole -----

  /** An expression on each row. */
  function OnRows(sem: Sem, e: Expr, rows: seq<Row>, env: Env): (outs: seq<Outcome>)
    ensures |outs| == |rows|
    ensures forall i :: 0 <= i < |rows| ==> outs[i] == Eval(sem, e, [Plain(rows[i])] + env)
  {
    seq(|rows|, i requires 0 <= i < |rows| => Eval(sem, e, [Plain(rows[i])] + env))
  }

  /** The collation the comparison is made under. */
  function ComparedUnder(tested: Expr, plan: Plan, common: TypeInfo): Option<nat>
    requires |plan.schema| == 1
  {
    CollationOf([Prepare(Deeper(tested), common).ty, Prepare(ColumnOf(plan.schema, 0), common).ty])
  }

  /** What a comparison with `v` makes of a candidate. */
  function OutcomeAgainst(sem: Sem, coll: Option<nat>, op: CompareOp, tested: Outcome, candidate: Outcome): Outcome {
    if tested.Error? || candidate.Error? then Error else Val(OutcomeValue(Compare3(sem, coll, op, tested.v, candidate.v)))
  }

  lemma OneOutcome(sem: Sem, op: CompareOp, tested: Expr, candidate: Expr, common: TypeInfo, row: Row, env: Env)
    ensures var coll := CollationOf([Prepare(Deeper(tested), common).ty, Prepare(candidate, common).ty]);
            Eval(sem, OutcomeOf(CompareNode(op, Deeper(tested), candidate, common)), [Plain(row)] + env)
            == OutcomeAgainst(sem, coll, op, Eval(sem, Prepare(tested, common), env), Eval(sem, Prepare(candidate, common), [Plain(row)] + env))
  {
    PrepareDeeper(tested, common);
    DeeperMeans(sem, Prepare(tested, common), row, env);
    CompareMeans(sem, op, Deeper(tested), candidate, common, [Plain(row)] + env);
    var coll := CollationOf([Prepare(Deeper(tested), common).ty, Prepare(candidate, common).ty]);
    var x, y := Eval(sem, Prepare(tested, common), env), Eval(sem, Prepare(candidate, common), [Plain(row)] + env);
    var comparison := CompareNode(op, Deeper(tested), candidate, common);
    if x.Error? || y.Error? { OutcomeFails(sem, comparison, [Plain(row)] + env); }
    else { OutcomeMeans(sem, comparison, Compare3(sem, coll, op, x.v, y.v), [Plain(row)] + env); }
  }

  /** A projection of one expression hands out its values until it fails. */
  lemma {:induction false} OneColumn(cells: seq<seq<Outcome>>, outs: seq<Outcome>, failed: bool)
    requires |cells| == |outs| && forall i :: 0 <= i < |outs| ==> cells[i] == [outs[i]]
    ensures ProjectStream(cells, failed) == Stream(OneCell(ReadUntil(outs, failed).values), ReadUntil(outs, failed).stopped)
    decreases |outs|
  {
    if outs != [] {
      assert cells[0] == [outs[0]];
      if outs[0].Val? {
        OneColumn(cells[1..], outs[1..], failed);
        var rest := ReadUntil(outs[1..], failed).values;
        assert ValuesOf(cells[0]) == [outs[0].v];
        assert OneCell([outs[0].v] + rest) == [[outs[0].v]] + OneCell(rest);
      } else {
        assert cells[0][0].Error?;
        var none: seq<Value> := [];
        assert OneCell(none) == [];
      }
    } else {
      var none: seq<Value> := [];
      assert OneCell(none) == [];
    }
  }

  lemma ProjectOne(sem: Sem, plan: Plan, e: Expr, schema: Schema, env: Env)
    ensures var s := EvalStream(sem, plan, env);
            var read := ReadUntil(OnRows(sem, e, s.rows, env), s.failed);
            EvalStream(sem, ProjectOver(plan, [e], schema), env) == Stream(OneCell(read.values), read.stopped)
  {
    var s := EvalStream(sem, plan, env);
    StreamUnary(sem, ProjectOver(plan, [e], schema), env);
    OneColumn(EvalOver(sem, [e], s.rows, env), OnRows(sem, e, s.rows, env), s.failed);
  }

  function OneCell(values: seq<Value>): (rows: seq<Row>)
    ensures |rows| == |values|
    ensures forall i :: 0 <= i < |values| ==> rows[i] == [values[i]]
  {
    seq(|values|, i requires 0 <= i < |values| => [values[i]])
  }

  function OutcomeValues(cs: seq<Option<bool>>): (vs: seq<Value>)
    ensures |vs| == |cs|
    ensures forall i :: 0 <= i < |cs| ==> vs[i] == OutcomeValue(cs[i])
  {
    seq(|cs|, i requires 0 <= i < |cs| => OutcomeValue(cs[i]))
  }

  lemma OutcomesStep(sem: Sem, coll: Option<nat>, op: CompareOp, v: Value, first: Value, rest: seq<Value>)
    ensures OutcomeValues(Comparisons(sem, coll, op, v, [first] + rest))
         == [OutcomeValue(Compare3(sem, coll, op, v, first))] + OutcomeValues(Comparisons(sem, coll, op, v, rest))
  {
  }

  /** Reading the outcomes is reading the candidates and comparing. */
  lemma {:induction false} ReadOutcomes(sem: Sem, coll: Option<nat>, op: CompareOp, v: Value, outs: seq<Outcome>, compared: seq<Outcome>, failed: bool)
    requires |compared| == |outs| && forall i :: 0 <= i < |outs| ==> compared[i] == OutcomeAgainst(sem, coll, op, Val(v), outs[i])
    ensures var read := ReadUntil(outs, failed);
            ReadUntil(compared, failed) == Readout(OutcomeValues(Comparisons(sem, coll, op, v, read.values)), read.stopped)
    decreases |outs|
  {
    if outs != [] && outs[0].Val? {
      ReadOutcomes(sem, coll, op, v, outs[1..], compared[1..], failed);
      OutcomesStep(sem, coll, op, v, outs[0].v, ReadUntil(outs[1..], failed).values);
    }
  }

  /** What there is to compare: nothing can be read once the tested value has failed. */
  function Readable(tested: Outcome, outs: seq<Outcome>, failed: bool): Readout {
    if tested.Error? && outs != [] then Readout([], true) else ReadUntil(outs, failed)
  }

  function ValueOr(tested: Outcome): Value {
    if tested.Error? then Null else tested.v
  }

  lemma OutcomesMean(sem: Sem, op: CompareOp, tested: Expr, plan: Plan, common: TypeInfo, env: Env)
    requires |plan.schema| == 1
    ensures var s := EvalStream(sem, plan, env);
            var t := Eval(sem, Prepare(tested, common), env);
            var read := Readable(t, OnRows(sem, Prepare(ColumnOf(plan.schema, 0), common), s.rows, env), s.failed);
            EvalStream(sem, OutcomesOver(plan, CompareNode(op, Deeper(tested), ColumnOf(plan.schema, 0), common)), env)
            == Stream(OneCell(OutcomeValues(Comparisons(sem, ComparedUnder(tested, plan, common), op, ValueOr(t), read.values))), read.stopped)
  {
    var s, candidate := EvalStream(sem, plan, env), ColumnOf(plan.schema, 0);
    var t, coll := Eval(sem, Prepare(tested, common), env), ComparedUnder(tested, plan, common);
    var outcome := OutcomeOf(CompareNode(op, Deeper(tested), candidate, common));
    var outs, compared := OnRows(sem, Prepare(candidate, common), s.rows, env), OnRows(sem, outcome, s.rows, env);
    forall i | 0 <= i < |outs| ensures compared[i] == OutcomeAgainst(sem, coll, op, t, outs[i]) {
      OneOutcome(sem, op, tested, candidate, common, s.rows[i], env);
    }
    ProjectOne(sem, plan, outcome, [OutputColumn(Written(""), OUTCOME_TYPE)], env);
    if t.Val? { ReadOutcomes(sem, coll, op, t.v, outs, compared, s.failed); }
    else if outs != [] { assert compared[0].Error?; }
  }

  /** An `IN` over a query of one column: a match decides it, and short of one a query that stopped
      is an error. */
  lemma InRowsMeans(sem: Sem, negated: bool, tested: Expr, plan: Plan, ty: TypeInfo, v: Value, values: seq<Value>, stopped: bool, env: Env)
    requires Eval(sem, tested, env) == Val(v) && EvalStream(sem, plan, env) == Stream(OneCell(values), stopped)
    ensures var held := Member(sem, tested.ty.collation, v, values);
            Eval(sem, Subquery(InRows(negated), [tested], plan, ty), env)
            == if stopped && held != Some(true) then Error else Val(FromCondition(if negated then Not3(held) else held))
  {
    assert EvalAll(sem, [tested], env) == [Val(v)];
    assert Types([tested])[0] == tested.ty;
    assert FirstCells(OneCell(values)) == values;
  }

  /** Integers compare as integers. */
  ghost predicate IntegerLaw(sem: Sem) {
    forall c, i, j :: (sem.order(c, Integral(i), Integral(j)) == 0) == (i == j)
  }

  /** `1`, or `0`, among the outcomes, is the truth of the quantified comparison. */
  lemma OutcomesDecide(sem: Sem, all: bool, coll: Option<nat>, cs: seq<Option<bool>>)
    requires IntegerLaw(sem)
    ensures var held := Member(sem, coll, Integral(if all then 0 else 1), OutcomeValues(cs));
            (if all then Not3(held) else held) == Truth87(all, cs)
  {
    var target := if all then 0 else 1;
    var items := OutcomeValues(cs);
    forall i | 0 <= i < |cs|
      ensures Compare3(sem, coll, Eq, Integral(target), items[i]) == (match cs[i] case None => None case Some(b) => Some(b == !all))
    {
      assert (sem.order(coll, Integral(target), Integral(1)) == 0) == (target == 1);
      assert (sem.order(coll, Integral(target), Integral(0)) == 0) == (target == 0);
    }
    if i :| 0 <= i < |cs| && cs[i] == Some(!all) {
      assert Compare3(sem, coll, Eq, Integral(target), items[i]) == Some(true);
    } else if i :| 0 <= i < |cs| && cs[i] == None {
      assert Compare3(sem, coll, Eq, Integral(target), items[i]) == None;
    }
  }

  lemma AmongOutcomes(sem: Sem, all: bool, outcomes: Plan, ty: TypeInfo, cs: seq<Option<bool>>, stopped: bool, env: Env)
    requires IntegerLaw(sem) && EvalStream(sem, outcomes, env) == Stream(OneCell(OutcomeValues(cs)), stopped)
    ensures var truth := Truth87(all, cs);
            Eval(sem, Subquery(InRows(all), [IntLiteral(if all then 0 else 1)], outcomes, ty), env)
            == if stopped && truth != Some(!all) then Error else Val(FromCondition(truth))
  {
    var target := IntLiteral(if all then 0 else 1);
    OutcomesDecide(sem, all, target.ty.collation, cs);
    InRowsMeans(sem, all, target, outcomes, ty, target.value, OutcomeValues(cs), stopped, env);
  }

  /** A quantified comparison has its truth value: for every comparison but the two that are an
      `IN`, every quantifier, every tested value and every query, `NULL`s and the empty query
      included. It fails when the rows stop, a candidate cannot be converted or the tested value
      fails, unless a candidate before decides it or, for the tested value, there is no row. */
  lemma QuantifiedMeans(sem: Sem, op: CompareOp, all: bool, tested: Expr, plan: Plan, common: TypeInfo, env: Env)
    requires IntegerLaw(sem) && !(op == Eq && !all) && !(op == Ne && all) && |plan.schema| == 1
    ensures var s := EvalStream(sem, plan, env);
            var t := Eval(sem, Prepare(tested, common), env);
            var read := Readable(t, OnRows(sem, Prepare(ColumnOf(plan.schema, 0), common), s.rows, env), s.failed);
            Eval(sem, QuantifiedNode(op, all, tested, plan, common), env)
            == Decided(sem, ComparedUnder(tested, plan, common), op, all, ValueOr(t), read)
  {
    var s, t := EvalStream(sem, plan, env), Eval(sem, Prepare(tested, common), env);
    var read := Readable(t, OnRows(sem, Prepare(ColumnOf(plan.schema, 0), common), s.rows, env), s.failed);
    var cs := Comparisons(sem, ComparedUnder(tested, plan, common), op, ValueOr(t), read.values);
    var node := QuantifiedNode(op, all, tested, plan, common);
    OutcomesMean(sem, op, tested, plan, common, env);
    AmongOutcomes(sem, all, node.plan, node.ty, cs, read.stopped, env);
  }

  /** Rows of one column. */
  predicate SingleCells(rows: seq<Row>) {
    forall i :: 0 <= i < |rows| ==> |rows[i]| == 1
  }

  /** The produced cells, each brought to the common type. */
  function Converted(sem: Sem, plan: Plan, common: TypeInfo, rows: seq<Row>): (outs: seq<Outcome>)
    requires |plan.schema| == 1 && SingleCells(rows)
    ensures |outs| == |rows|
    ensures forall i :: 0 <= i < |rows| ==> outs[i] == ConvertValue(sem, plan.schema[0].ty, common, rows[i][0])
  {
    seq(|rows|, i requires 0 <= i < |rows| => ConvertValue(sem, plan.schema[0].ty, common, rows[i][0]))
  }

  lemma {:induction false} ReadWhole(outs: seq<Outcome>, failed: bool)
    requires AllValues(outs)
    ensures ReadUntil(outs, failed) == Readout(ValuesOf(outs), failed)
    decreases |outs|
  {
    if outs != [] {
      ReadWhole(outs[1..], failed);
      assert ValuesOf(outs) == [outs[0].v] + ValuesOf(outs[1..]);
    }
  }

  /** The produced column under its conversion hands out the converted cells, until one fails. */
  lemma ProducedMeans(sem: Sem, plan: Plan, common: TypeInfo, env: Env)
    requires |plan.schema| == 1
    requires SingleCells(EvalStream(sem, plan, env).rows)
    ensures var s := EvalStream(sem, plan, env);
            var read := ReadUntil(Converted(sem, plan, common, s.rows), s.failed);
            EvalStream(sem, ConvertProduced(plan, common), env) == Stream(OneCell(read.values), read.stopped)
  {
    var s, column := EvalStream(sem, plan, env), ColumnOf(plan.schema, 0);
    var outs := Converted(sem, plan, common, s.rows);
    if plan.schema[0].ty.ty == common.ty {
      ReadWhole(outs, s.failed);
      forall i | 0 <= i < |s.rows| ensures s.rows[i] == OneCell(ValuesOf(outs))[i] {
        assert s.rows[i] == [s.rows[i][0]] && outs[i] == Val(s.rows[i][0]);
      }
    } else {
      var converted := ConvertTo(column, common);
      forall i | 0 <= i < |s.rows| ensures OnRows(sem, converted, s.rows, env)[i] == outs[i] {
        ConvertToMeans(sem, column, common, [Plain(s.rows[i])] + env);
      }
      assert OnRows(sem, converted, s.rows, env) == outs;
      ProjectOne(sem, plan, converted, [OutputColumn(plan.schema[0].name, converted.ty)], env);
    }
  }

  /** `= ANY`, bound as `IN`, and `<> ALL`, bound as `NOT IN`, have theirs: both sides brought to
      one type, and the truth of the comparison under the collation of the tested value. They fail
      when the tested value does, and when the rows stop or a candidate cannot be converted before
      one decides. */
  lemma QuantifiedInMeans(sem: Sem, all: bool, tested: Expr, plan: Plan, common: TypeInfo, env: Env)
    requires |plan.schema| == 1
    requires SingleCells(EvalStream(sem, plan, env).rows)
    ensures var op := if all then Ne else Eq;
            var s, t := EvalStream(sem, plan, env), Eval(sem, ConvertTo(tested, common), env);
            Eval(sem, QuantifiedNode(op, all, tested, plan, common), env)
            == if t.Error? then Error
               else Decided(sem, ConvertTo(tested, common).ty.collation, op, all, t.v, ReadUntil(Converted(sem, plan, common, s.rows), s.failed))
  {
    var node := QuantifiedNode(if all then Ne else Eq, all, tested, plan, common);
    var s, converted := EvalStream(sem, plan, env), ConvertTo(tested, common);
    var t, read := Eval(sem, converted, env), ReadUntil(Converted(sem, plan, common, s.rows), s.failed);
    if t.Error? {
      assert EvalAll(sem, [converted], env)[0].Error?;
    } else {
      ProducedMeans(sem, plan, common, env);
      InRowsMeans(sem, all, converted, ConvertProduced(plan, common), node.ty, t.v, read.values, read.stopped, env);
      MembershipMeans(sem, all, converted.ty.collation, t.v, read.values);
    }
  }

  lemma MembershipMeans(sem: Sem, all: bool, coll: Option<nat>, v: Value, candidates: seq<Value>)
    ensures var held := Member(sem, coll, v, candidates);
            (if all then Not3(held) else held) == Truth87(all, Comparisons(sem, coll, if all then Ne else Eq, v, candidates))
  {
    var cs := Comparisons(sem, coll, if all then Ne else Eq, v, candidates);
    forall i | 0 <= i < |cs|
      ensures Compare3(sem, coll, Eq, v, candidates[i]) == if all then Not3(cs[i]) else cs[i]
    {
    }
    if i :| 0 <= i < |cs| && cs[i] == Some(!all) {
      assert Compare3(sem, coll, Eq, v, candidates[i]) == Some(true);
    } else if i :| 0 <= i < |cs| && cs[i] == None {
      assert Compare3(sem, coll, Eq, v, candidates[i]) == None;
    }
  }
}
