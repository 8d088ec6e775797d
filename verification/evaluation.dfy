/** What a bound tree computes.

    The meaning of arithmetic, comparison, conversion, calls and aggregates is a parameter
    (`Sem`), so a theorem stated over every `Sem` holds of every implementation of them.
    Every child of a node is given an outcome and the operator decides which of them it
    reads: that is how `CASE`, `ISNULL` and `COALESCE` leave an operand unevaluated. */
module Evaluation {
  import opened Options
  import opened SqlTypes
  import opened Bound

  datatype Outcome = Error | Val(v: Value)

  datatype Sem = Sem(
    arith: (BinaryOp, TypeInfo, Value, Value) -> Outcome,
    negate: (TypeInfo, Value) -> Outcome,
    bitNot: (TypeInfo, Value) -> Outcome,
    order: (Option<nat>, Value, Value) -> int,
    like: seq<Value> -> Outcome,
    convert: (TypeInfo, TypeInfo, Option<int>, Value) -> Outcome,
    call: (FunctionDef, seq<TypeInfo>, TypeInfo, seq<Value>) -> Outcome,
    aggregate: (CallHead, seq<Value>) -> Outcome,
    sameRow: (seq<TypeInfo>, Row, Row) -> bool,
    table: nat -> seq<Row>,
    variable: string -> Value)

  /** The row of one query level. A `Plain` row is read by index alone, as the executor does.
      A `Grouped` row is a grouped query seen while it is bound: a row of its `FROM`, the row
      of its `Aggregate`, and the values of the aggregates nested queries handed over. */
  datatype Frame = Plain(row: Row) | Grouped(row: Row, slots: Row, handed: seq<Outcome>)

  type Env = seq<Frame>

  datatype Rows = Fail | Rows(rows: seq<Row>)

  /** What a plan hands out to who pulls its rows one by one: some rows, then its end or an error. */
  datatype Stream = Stream(rows: seq<Row>, failed: bool)

  /** A stream pulled to its end. */
  function Whole(s: Stream): Rows {
    if s.failed then Fail else Rows(s.rows)
  }

  function Cell(row: Row, index: nat): Outcome {
    if index < |row| then Val(row[index]) else Error
  }

  function Read(f: Frame, c: ColumnBinding): Outcome {
    match f
    case Plain(row) => Cell(row, c.index)
    case Grouped(row, slots, handed) =>
      match c.column
      case Table(_) => Cell(row, c.index)
      case Slot => Cell(slots, c.index)
      case Handed => if c.index < |handed| then handed[c.index] else Error
  }

  function Lookup(env: Env, c: ColumnBinding): Outcome {
    if c.depth < |env| then Read(env[c.depth], c) else Error
  }

  // ----- three-valued conditions -----

  /** A value read as a condition; `None` when it is none. */
  function Condition(v: Value): Option<Option<bool>> {
    match v
    case Null => Some(None)
    case Truth(b) => Some(Some(b))
    case _ => None
  }

  function FromCondition(c: Option<bool>): Value {
    match c
    case None => Null
    case Some(b) => Truth(b)
  }

  function Not3(c: Option<bool>): Option<bool> {
    match c
    case None => None
    case Some(b) => Some(!b)
  }

  function And3(a: Option<bool>, b: Option<bool>): Option<bool> {
    if a == Some(false) || b == Some(false) then Some(false)
    else if a == Some(true) && b == Some(true) then Some(true)
    else None
  }

  function Or3(a: Option<bool>, b: Option<bool>): Option<bool> {
    if a == Some(true) || b == Some(true) then Some(true)
    else if a == Some(false) && b == Some(false) then Some(false)
    else None
  }

  function Holds(op: CompareOp, order: int): bool {
    match op
    case Eq => order == 0
    case Ne => order != 0
    case Lt => order < 0
    case Le => order <= 0
    case Gt => order > 0
    case Ge => order >= 0
  }

  function Compare3(sem: Sem, coll: Option<nat>, op: CompareOp, a: Value, b: Value): Option<bool> {
    if a == Null || b == Null then None else Some(Holds(op, sem.order(coll, a, b)))
  }

  /** `v IN items`: true when one item equals, else unknown when one comparison is. */
  function Member(sem: Sem, coll: Option<nat>, v: Value, items: seq<Value>): Option<bool> {
    if exists i :: 0 <= i < |items| && Compare3(sem, coll, Eq, v, items[i]) == Some(true) then Some(true)
    else if exists i :: 0 <= i < |items| && Compare3(sem, coll, Eq, v, items[i]) == None then None
    else Some(false)
  }

  // ----- operators -----

  predicate AllValues(outs: seq<Outcome>) {
    forall i :: 0 <= i < |outs| ==> outs[i].Val?
  }

  function ValuesOf(outs: seq<Outcome>): (vs: seq<Value>)
    requires AllValues(outs)
    ensures |vs| == |outs|
    ensures forall i :: 0 <= i < |outs| ==> vs[i] == outs[i].v
  {
    seq(|outs|, i requires 0 <= i < |outs| => outs[i].v)
  }

  function ApplyCase(outs: seq<Outcome>): Outcome {
    if |outs| == 0 then Val(Null)
    else if |outs| == 1 then outs[0]
    else if outs[0].Error? then Error
    else
      match Condition(outs[0].v)
      case None => Error
      case Some(c) => if c == Some(true) then outs[1] else ApplyCase(outs[2..])
  }

  function ApplyCoalesce(sem: Sem, ty: TypeInfo, tys: seq<TypeInfo>, outs: seq<Outcome>): Outcome
    requires |tys| == |outs|
  {
    if |outs| == 0 then Val(Null)
    else if outs[0].Error? then Error
    else if outs[0].v == Null then ApplyCoalesce(sem, ty, tys[1..], outs[1..])
    else sem.convert(tys[0], ty, None, outs[0].v)
  }

  function ApplyIsNull(sem: Sem, tys: seq<TypeInfo>, outs: seq<Outcome>): Outcome
    requires |tys| == |outs|
  {
    if |outs| != 2 then Error
    else if outs[0].Error? || outs[0].v != Null then outs[0]
    else if outs[1].Error? || outs[1].v == Null then outs[1]
    else sem.convert(tys[1], tys[0], None, outs[1].v)
  }

  function ApplyConvert(sem: Sem, from: TypeInfo, to: TypeInfo, style: Option<int>, try_: bool, v: Value): Outcome {
    if v == Null then Val(Null)
    else
      var r := sem.convert(from, to, style, v);
      if try_ && r.Error? then Val(Null) else r
  }

  /** The collation two operands are compared under. */
  function CollationOf(tys: seq<TypeInfo>): Option<nat> {
    if |tys| == 0 then None
    else if tys[0].collation.Some? then tys[0].collation
    else CollationOf(tys[1..])
  }

  /** An operator that reads all its operands, none of which failed. */
  function ApplyStrict(sem: Sem, op: Operator, ty: TypeInfo, tys: seq<TypeInfo>, vs: seq<Value>): Outcome
    requires |tys| == |vs|
  {
    match op
    case Arith(a) =>
      if |vs| != 2 then Error
      else if vs[0] == Null || vs[1] == Null then Val(Null)
      else sem.arith(a, ty, vs[0], vs[1])
    case Negate =>
      if |vs| != 1 then Error else if vs[0] == Null then Val(Null) else sem.negate(ty, vs[0])
    case BitNot =>
      if |vs| != 1 then Error else if vs[0] == Null then Val(Null) else sem.bitNot(ty, vs[0])
    case Compare(c) =>
      if |vs| != 2 then Error
      else Val(FromCondition(Compare3(sem, CollationOf(tys), c, vs[0], vs[1])))
    case And =>
      if |vs| != 2 || Condition(vs[0]).None? || Condition(vs[1]).None? then Error
      else Val(FromCondition(And3(Condition(vs[0]).value, Condition(vs[1]).value)))
    case Or =>
      if |vs| != 2 || Condition(vs[0]).None? || Condition(vs[1]).None? then Error
      else Val(FromCondition(Or3(Condition(vs[0]).value, Condition(vs[1]).value)))
    case Not =>
      if |vs| != 1 || Condition(vs[0]).None? then Error
      else Val(FromCondition(Not3(Condition(vs[0]).value)))
    case IsNull(negated) =>
      if |vs| != 1 then Error else Val(Truth((vs[0] == Null) != negated))
    case In(negated) =>
      if |vs| == 0 then Error
      else
        var held := Member(sem, CollationOf(tys), vs[0], vs[1..]);
        Val(FromCondition(if negated then Not3(held) else held))
    case Like(negated) => sem.like(vs)
    case Convert(style, try_) =>
      if |vs| != 1 then Error else ApplyConvert(sem, tys[0], ty, style, try_, vs[0])
    case Function(def) => sem.call(def, tys, ty, vs)
    case Collate => if |vs| != 1 then Error else Val(vs[0])
    case Case => Error
  }

  function Apply(sem: Sem, op: Operator, ty: TypeInfo, tys: seq<TypeInfo>, outs: seq<Outcome>): Outcome
    requires |tys| == |outs|
  {
    if op.Case? then ApplyCase(outs)
    else if op.Function? && op.def.name == "ISNULL" then ApplyIsNull(sem, tys, outs)
    else if op.Function? && op.def.name == "COALESCE" then ApplyCoalesce(sem, ty, tys, outs)
    else if AllValues(outs) then ApplyStrict(sem, op, ty, tys, ValuesOf(outs))
    else Error
  }

  /** A subquery pulls no more rows than it needs: one for an `EXISTS`, two for a scalar, and for an
      `IN` those up to the first that equals. */
  function ApplySubquery(sem: Sem, kind: SubqueryKind, tys: seq<TypeInfo>, tested: seq<Outcome>, s: Stream): Outcome
    requires |tys| == |tested|
  {
    match kind
    case Exists => if |s.rows| > 0 then Val(Truth(true)) else if s.failed then Error else Val(Truth(false))
    case Scalar =>
      if |s.rows| > 1 || s.failed then Error
      else if |s.rows| == 0 then Val(Null)
      else Cell(s.rows[0], 0)
    case InRows(negated) =>
      if |tested| != 1 || tested[0].Error? || (exists i :: 0 <= i < |s.rows| && s.rows[i] == []) then Error
      else
        var held := Member(sem, tys[0].collation, tested[0].v, FirstCells(s.rows));
        if s.failed && held != Some(true) then Error
        else Val(FromCondition(if negated then Not3(held) else held))
  }

  function FirstCells(rows: seq<Row>): (vs: seq<Value>)
    requires forall i :: 0 <= i < |rows| ==> rows[i] != []
    ensures |vs| == |rows|
    ensures forall i :: 0 <= i < |rows| ==> vs[i] == rows[i][0]
  {
    seq(|rows|, i requires 0 <= i < |rows| => rows[i][0])
  }
}
