/** The bound tree: expressions and plans as the binder hands them to the planner.

    Every operator of `BoundExprKind` is one `Op` node over its children in the order
    `children_mut` lists them (a `CASE` lists `when, then, when, then, …` and its `ELSE` last,
    so an odd number of children has an `ELSE`), and every operator of `LogicalPlan` is one
    `Rel` node over its expressions and its inputs in the order `resolve_plan` lists them. */
module Bound {
  import opened Options
  import opened SqlTypes

  datatype Value =
    | Null
    | Truth(b: bool)
    | Integral(i: int)
    | Exact(mantissa: int, scale: nat)
    | Text(s: string)
    | Opaque(payload: int)

  type Row = seq<Value>

  datatype BinaryOp = Add | Sub | Mul | Div | Mod | BitAnd | BitOr | BitXor | Concat

  datatype CompareOp = Eq | Ne | Lt | Le | Gt | Ge

  datatype FunctionDef = FunctionDef(name: string, scalar: bool, deterministic: bool)

  /** What a column reference designates: a column of a source, by its identifier within its table
      (two tables may each have one of it), a column of an `Aggregate` looked up under its NUL name,
      or an aggregate a nested query handed over. */
  datatype Origin = Table(id: int) | Slot | Handed

  /** A name a reference may be looked up under: a written one, or the NUL name of a slot. */
  datatype Name = Written(text: string) | SlotName(index: nat)

  datatype ColumnBinding =
    ColumnBinding(column: Origin, index: nat, name: Name, ty: TypeInfo, depth: nat)

  datatype Operator =
    | Arith(arith: BinaryOp)
    | Negate
    | BitNot
    | Compare(compare: CompareOp)
    | And
    | Or
    | Not
    | IsNull(negated: bool)
    | In(negated: bool)
    | Like(negated: bool)
    | Case
    | Convert(style: Option<int>, try_: bool)
    | Function(def: FunctionDef)
    | Collate

  datatype SubqueryKind = Exists | Scalar | InRows(negated: bool)

  datatype Expr =
    | Literal(value: Value, ty: TypeInfo)
    | ColumnRef(col: ColumnBinding, ty: TypeInfo)
    | Variable(name: string, ty: TypeInfo)
    | Op(op: Operator, args: seq<Expr>, ty: TypeInfo)
    | Subquery(kind: SubqueryKind, tested: seq<Expr>, plan: Plan, ty: TypeInfo)

  function WithType(e: Expr, ty: TypeInfo): Expr {
    e.(ty := ty)
  }

  datatype OutputColumn = OutputColumn(name: Name, ty: TypeInfo)

  type Schema = seq<OutputColumn>

  datatype JoinKind = Inner | Left | Right | Full | Cross

  datatype SetOpKind = Union | Except | Intersect

  /** An aggregate call without its argument; `star` is a call that has none. */
  datatype CallHead = CallHead(def: string, distinct: bool, star: bool)

  datatype RelOp =
    | OneRow
    | Scan(table: nat)
    | Values(width: nat)
    | Filter
    | Project
    | Limit
    | Join(kind: JoinKind)
    | Aggregate(keys: nat, calls: seq<CallHead>)
    | Sort(descending: seq<bool>)
    | Distinct
    | SetOp(set_kind: SetOpKind, all: bool)
    | Derived

  /** `schema` is what `LogicalPlan::schema` answers for the node. */
  datatype Plan = Rel(op: RelOp, exprs: seq<Expr>, inputs: seq<Plan>, schema: Schema)

  function ProjectOver(input: Plan, exprs: seq<Expr>, schema: Schema): Plan {
    Rel(Project, exprs, [input], schema)
  }

  function FilterOver(input: Plan, predicate_: Expr): Plan {
    Rel(Filter, [predicate_], [input], input.schema)
  }

  function LimitOver(input: Plan, count: Expr): Plan {
    Rel(Limit, [count], [input], input.schema)
  }

  function DistinctOver(input: Plan): Plan {
    Rel(Distinct, [], [input], input.schema)
  }

  function SortOver(input: Plan, keys: seq<Expr>, descending: seq<bool>): Plan {
    Rel(Sort(descending), keys, [input], input.schema)
  }

  function ColumnTypes(schema: Schema): (ts: seq<TypeInfo>)
    ensures |ts| == |schema|
    ensures forall i :: 0 <= i < |schema| ==> ts[i] == schema[i].ty
  {
    seq(|schema|, i requires 0 <= i < |schema| => schema[i].ty)
  }

  function Types(es: seq<Expr>): (ts: seq<TypeInfo>)
    ensures |ts| == |es|
    ensures forall i :: 0 <= i < |es| ==> ts[i] == es[i].ty
  {
    seq(|es|, i requires 0 <= i < |es| => es[i].ty)
  }

  predicate IsNullLiteral(e: Expr) {
    e.Literal? && e.value == Null
  }
}
