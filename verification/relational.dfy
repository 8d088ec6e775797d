/** What each plan operator computes from the rows of its inputs and from the outcomes of its
    expressions on the rows it evaluates them over. */
module Relational {
  import opened Options
  import opened SqlTypes
  import opened Bound
  import opened Evaluation

  /** The rows an operator evaluates its expressions over. */
  function Candidates(op: RelOp, ins: seq<seq<Row>>): seq<Row> {
    match op
    case Filter | Project | Aggregate(_, _) | Sort(_) => if |ins| == 1 then ins[0] else []
    case Values(_) | Limit => [[]]
    case Join(_) => if |ins| == 2 then Pairs(ins[0], ins[1]) else []
    case _ => []
  }

  /** Each left row with each right row, left row by left row. */
  function Pairs(left: seq<Row>, right: seq<Row>): (ps: seq<Row>)
    ensures |ps| == |left| * |right|
  {
    if left == [] then []
    else
      assert |left| * |right| == |right| + (|left| - 1) * |right|;
      seq(|right|, i requires 0 <= i < |right| => left[0] + right[i]) + Pairs(left[1..], right)
  }

  // ----- rows kept, cut and computed -----

  /** The entries whose condition is true. */
  function Keep<T>(rows: seq<T>, outs: seq<Outcome>): seq<T>
    requires |rows| == |outs|
  {
    if rows == [] then []
    else (if outs[0] == Val(Truth(true)) then [rows[0]] else []) + Keep(rows[1..], outs[1..])
  }

  function Take(rows: seq<Row>, n: nat): seq<Row> {
    if n < |rows| then rows[..n] else rows
  }

  function LimitRows(rows: seq<Row>, count: Outcome): Rows {
    if count.Val? && count.v.Integral? && count.v.i >= 0 then Rows(Take(rows, count.v.i)) else Fail
  }

  /** One row per row of outcomes, or failure when one outcome is an error. */
  function ProjectRows(cells: seq<seq<Outcome>>): (r: Rows)
    ensures r.Rows? <==> forall i :: 0 <= i < |cells| ==> AllValues(cells[i])
    ensures r.Rows? ==> |r.rows| == |cells| && forall i :: 0 <= i < |cells| ==> r.rows[i] == ValuesOf(cells[i])
  {
    if forall i :: 0 <= i < |cells| ==> AllValues(cells[i]) then
      Rows(seq(|cells|, i requires 0 <= i < |cells| => ValuesOf(cells[i])))
    else Fail
  }

  function Chunks(row: Row, width: nat): seq<Row>
    decreases |row|
  {
    if width == 0 || |row| < width then [] else [row[..width]] + Chunks(row[width..], width)
  }

  // ----- duplicates -----

  predicate Seen(sem: Sem, tys: seq<TypeInfo>, row: Row, rows: seq<Row>) {
    exists i :: 0 <= i < |rows| && sem.sameRow(tys, rows[i], row)
  }

  /** `kept`, then the rows none before them is the same as. */
  function DedupOnto(sem: Sem, tys: seq<TypeInfo>, kept: seq<Row>, rows: seq<Row>): seq<Row>
    decreases |rows|
  {
    if rows == [] then kept
    else if Seen(sem, tys, rows[0], kept) then DedupOnto(sem, tys, kept, rows[1..])
    else DedupOnto(sem, tys, kept + [rows[0]], rows[1..])
  }

  function Dedup(sem: Sem, tys: seq<TypeInfo>, rows: seq<Row>): seq<Row> {
    DedupOnto(sem, tys, [], rows)
  }

  /** The rows of `rows` seen among `others` when `wanted`, the others when not. */
  function Against(sem: Sem, tys: seq<TypeInfo>, rows: seq<Row>, others: seq<Row>, wanted: bool): seq<Row> {
    if rows == [] then []
    else
      (if Seen(sem, tys, rows[0], others) == wanted then [rows[0]] else [])
      + Against(sem, tys, rows[1..], others, wanted)
  }

  function SetRows(sem: Sem, kind: SetOpKind, all: bool, tys: seq<TypeInfo>, left: seq<Row>, right: seq<Row>): seq<Row> {
    match kind
    case Union => if all then left + right else Dedup(sem, tys, left + right)
    case Except => Against(sem, tys, Dedup(sem, tys, left), right, false)
    case Intersect => Against(sem, tys, Dedup(sem, tys, left), right, true)
  }

  // ----- groups -----

  predicate Below(indices: seq<nat>, n: nat) {
    forall i :: 0 <= i < |indices| ==> indices[i] < n
  }

  /** The indices below `n` whose key is `k`, in order. */
  function Members(ks: seq<Row>, k: Row, n: nat): (g: seq<nat>)
    requires n <= |ks|
    ensures Below(g, n)
    ensures forall i :: 0 <= i < |g| ==> ks[g[i]] == k
    ensures forall j :: 0 <= j < n && ks[j] == k ==> j in g
  {
    if n == 0 then [] else Members(ks, k, n - 1) + (if ks[n - 1] == k then [n - 1] else [])
  }

  /** The indices below `n` whose key no earlier row has, in order. */
  function Firsts(ks: seq<Row>, n: nat): (f: seq<nat>)
    requires n <= |ks|
    ensures Below(f, n)
  {
    if n == 0 then []
    else Firsts(ks, n - 1) + (if ks[n - 1] in ks[..n - 1] then [] else [n - 1])
  }

  /** Every row of the group has one key. */
  predicate OneKey(ks: seq<Row>, group: seq<nat>) {
    Below(group, |ks|) && forall i, j :: 0 <= i < |group| && 0 <= j < |group| ==> ks[group[i]] == ks[group[j]]
  }

  /** The groups of row indices, in the order each is met: one per key, and a single one
      holding every row, were there none, when nothing groups them. */
  function Groups(keys: nat, ks: seq<Row>): (gs: seq<seq<nat>>)
    ensures forall a :: 0 <= a < |gs| ==> Below(gs[a], |ks|)
    ensures keys == 0 ==> |gs| == 1
    ensures keys > 0 ==> forall a :: 0 <= a < |gs| ==> gs[a] != [] && OneKey(ks, gs[a])
  {
    if keys == 0 then [seq(|ks|, i requires 0 <= i < |ks| => i)]
    else
      var f := Firsts(ks, |ks|);
      var gs := seq(|f|, a requires 0 <= a < |f| => Members(ks, ks[f[a]], |ks|));
      assert forall a :: 0 <= a < |gs| ==> f[a] in gs[a];
      gs
  }

  /** One aggregate over the outcomes of its argument. */
  function ApplyCall(sem: Sem, head: CallHead, outs: seq<Outcome>): Outcome {
    if AllValues(outs) then sem.aggregate(head, ValuesOf(outs)) else Error
  }

  /** Column `j` of the outcomes of the rows of one group. */
  function Column(cells: seq<seq<Outcome>>, group: seq<nat>, j: nat): (c: seq<Outcome>)
    requires Below(group, |cells|) && forall x :: 0 <= x < |cells| ==> j < |cells[x]|
    ensures |c| == |group|
    ensures forall i :: 0 <= i < |group| ==> c[i] == cells[group[i]][j]
  {
    seq(|group|, i requires 0 <= i < |group| => cells[group[i]][j])
  }

  /** The outcomes of the columns of one row of an `Aggregate`: the keys, then the calls. */
  function GroupCells(sem: Sem, keys: nat, calls: seq<CallHead>, cells: seq<seq<Outcome>>, group: seq<nat>): (r: seq<Outcome>)
    requires Below(group, |cells|) && forall x :: 0 <= x < |cells| ==> |cells[x]| == keys + |calls|
    requires keys > 0 ==> group != []
    ensures |r| == keys + |calls|
    ensures forall i :: 0 <= i < keys ==> r[i] == cells[group[0]][i]
    ensures forall j :: 0 <= j < |calls| ==> r[keys + j] == ApplyCall(sem, calls[j], Column(cells, group, keys + j))
  {
    var first := if keys > 0 then cells[group[0]][..keys] else [];
    first + seq(|calls|, j requires 0 <= j < |calls| => ApplyCall(sem, calls[j], Column(cells, group, keys + j)))
  }

  function AggregateRows(sem: Sem, keys: nat, calls: seq<CallHead>, cells: seq<seq<Outcome>>): Rows {
    if exists i :: 0 <= i < |cells| && (|cells[i]| != keys + |calls| || !AllValues(cells[i][..keys])) then Fail
    else
      var ks := seq(|cells|, i requires 0 <= i < |cells| => ValuesOf(cells[i][..keys]));
      var gs := Groups(keys, ks);
      ProjectRows(seq(|gs|, a requires 0 <= a < |gs| => GroupCells(sem, keys, calls, cells, gs[a])))
  }

  // ----- order -----

  /** `NULL` comes first, whatever the collation. */
  function OrderOf(sem: Sem, coll: Option<nat>, a: Value, b: Value): int {
    if a == Null then if b == Null then 0 else -1
    else if b == Null then 1
    else sem.order(coll, a, b)
  }

  /** The order of two rows of keys, the most significant first. */
  function KeyOrder(sem: Sem, colls: seq<Option<nat>>, desc: seq<bool>, a: Row, b: Row): int
    decreases |a|
  {
    if |a| == 0 || |b| == 0 || |colls| == 0 || |desc| == 0 then 0
    else
      var o := OrderOf(sem, colls[0], a[0], b[0]);
      if o != 0 then if desc[0] then -o else o
      else KeyOrder(sem, colls[1..], desc[1..], a[1..], b[1..])
  }

  /** `i` put after the indices of `perm` that do not come after it. */
  function Insert(sem: Sem, colls: seq<Option<nat>>, desc: seq<bool>, ks: seq<Row>, perm: seq<nat>, i: nat): (r: seq<nat>)
    requires i < |ks| && Below(perm, |ks|)
    ensures |r| == |perm| + 1 && Below(r, |ks|)
  {
    if perm == [] then [i]
    else
      var last := perm[|perm| - 1];
      if KeyOrder(sem, colls, desc, ks[last], ks[i]) > 0
      then Insert(sem, colls, desc, ks, perm[..|perm| - 1], i) + [last]
      else perm + [i]
  }

  /** The first `n` indices in the order of their keys, ties in written order. */
  function Order(sem: Sem, colls: seq<Option<nat>>, desc: seq<bool>, ks: seq<Row>, n: nat): (r: seq<nat>)
    requires n <= |ks|
    ensures |r| == n && Below(r, |ks|)
  {
    if n == 0 then []
    else Insert(sem, colls, desc, ks, Order(sem, colls, desc, ks, n - 1), n - 1)
  }

  function Permuted(rows: seq<Row>, perm: seq<nat>): (r: seq<Row>)
    requires Below(perm, |rows|)
    ensures |r| == |perm|
    ensures forall i :: 0 <= i < |perm| ==> r[i] == rows[perm[i]]
  {
    seq(|perm|, i requires 0 <= i < |perm| => rows[perm[i]])
  }

  function Collations(tys: seq<TypeInfo>): (cs: seq<Option<nat>>)
    ensures |cs| == |tys|
    ensures forall i :: 0 <= i < |tys| ==> cs[i] == tys[i].collation
  {
    seq(|tys|, i requires 0 <= i < |tys| => tys[i].collation)
  }

  function SortRows(sem: Sem, tys: seq<TypeInfo>, desc: seq<bool>, rows: seq<Row>, cells: seq<seq<Outcome>>): Rows
    requires |rows| == |cells|
  {
    var keys := ProjectRows(cells);
    if keys.Fail? then Fail
    else Rows(Permuted(rows, Order(sem, Collations(tys), desc, keys.rows, |rows|)))
  }

  // ----- joins -----

  function Nulls(width: nat): (row: Row)
    ensures |row| == width
  {
    seq(width, _ => Null)
  }

  /** The rows of a join: each left row with the right rows its condition holds on (`holds` is
      read row by row), a left row without one padded when the kind keeps it. */
  function LeftPart(kind: JoinKind, left: seq<Row>, right: seq<Row>, width: nat, holds: seq<Outcome>): seq<Row>
    requires |holds| == |left| * |right|
  {
    if left == [] then []
    else
      assert |left| * |right| == |right| + (|left| - 1) * |right|;
      var here := Keep(seq(|right|, i requires 0 <= i < |right| => left[0] + right[i]), holds[..|right|]);
      (if here == [] && (kind.Left? || kind.Full?) then [left[0] + Nulls(width)] else here)
      + LeftPart(kind, left[1..], right, width, holds[|right|..])
  }

  /** Whether right row `r` is paired with a left row. */
  predicate Paired(left: nat, right: nat, r: nat, holds: seq<Outcome>)
    requires |holds| == left * right && r < right
  {
    exists l :: 0 <= l < left && PairHolds(right, l, r, holds)
  }

  predicate PairHolds(right: nat, l: nat, r: nat, holds: seq<Outcome>) {
    l * right + r < |holds| && holds[l * right + r] == Val(Truth(true))
  }

  /** The right rows, from `r` on, no left row is paired with, padded on the left. */
  function RightPart(left: nat, right: seq<Row>, r: nat, width: nat, holds: seq<Outcome>): seq<Row>
    requires |holds| == left * |right| && r <= |right|
    decreases |right| - r
  {
    if r == |right| then []
    else
      (if Paired(left, |right|, r, holds) then [] else [Nulls(width) + right[r]])
      + RightPart(left, right, r + 1, width, holds)
  }

  function JoinRows(kind: JoinKind, left: seq<Row>, right: seq<Row>, lw: nat, rw: nat, holds: seq<Outcome>): seq<Row>
    requires |holds| == |left| * |right|
  {
    LeftPart(kind, left, right, rw, holds)
    + (if kind.Right? || kind.Full? then RightPart(|left|, right, 0, lw, holds) else [])
  }

  /** The outcome of the condition of a join on each pair; a join without one holds. */
  function PairOutcomes(cells: seq<seq<Outcome>>): (r: seq<Outcome>)
    ensures |r| == |cells|
  {
    seq(|cells|, i requires 0 <= i < |cells| => if |cells[i]| == 0 then Val(Truth(true)) else cells[i][0])
  }

  // ----- one operator -----

  function FirstCell(cells: seq<seq<Outcome>>): (r: seq<Outcome>)
    ensures |r| == |cells|
  {
    seq(|cells|, i requires 0 <= i < |cells| => if |cells[i]| == 0 then Error else cells[i][0])
  }

  /** The rows of an operator. `widths` are those of its inputs, `tys` the types of its
      expressions, `cells` their outcomes on each candidate row. */
  function Combine(sem: Sem, op: RelOp, schema: Schema, tys: seq<TypeInfo>, widths: seq<nat>,
                   ins: seq<seq<Row>>, cells: seq<seq<Outcome>>): Rows
    requires |widths| == |ins| && |cells| == |Candidates(op, ins)|
  {
    match op
    case OneRow => Rows([[]])
    case Scan(t) => Rows(sem.table(t))
    case Values(width) =>
      if AllValues(cells[0]) then Rows(Chunks(ValuesOf(cells[0]), width)) else Fail
    case Filter =>
      if |ins| != 1 || !AllValues(FirstCell(cells)) then Fail else Rows(Keep(ins[0], FirstCell(cells)))
    case Project => if |ins| != 1 then Fail else ProjectRows(cells)
    case Limit =>
      if |ins| != 1 || |cells[0]| != 1 then Fail else LimitRows(ins[0], cells[0][0])
    case Join(kind) =>
      if |ins| != 2 || !AllValues(PairOutcomes(cells)) then Fail
      else Rows(JoinRows(kind, ins[0], ins[1], widths[0], widths[1], PairOutcomes(cells)))
    case Aggregate(keys, calls) => if |ins| != 1 then Fail else AggregateRows(sem, keys, calls, cells)
    case Sort(desc) => if |ins| != 1 then Fail else SortRows(sem, tys, desc, ins[0], cells)
    case Distinct => if |ins| != 1 then Fail else Rows(Dedup(sem, ColumnTypes(schema), ins[0]))
    case SetOp(kind, all) =>
      if |ins| != 2 then Fail else Rows(SetRows(sem, kind, all, ColumnTypes(schema), ins[0], ins[1]))
    case Derived => Fail
  }

  // ----- one operator, pulled row by row -----

  /** A row per row of outcomes, up to the first that holds an error; `failed` says what comes after. */
  function ProjectStream(cells: seq<seq<Outcome>>, failed: bool): Stream {
    if cells == [] then Stream([], failed)
    else if !AllValues(cells[0]) then Stream([], true)
    else
      var rest := ProjectStream(cells[1..], failed);
      Stream([ValuesOf(cells[0])] + rest.rows, rest.failed)
  }

  /** The rows whose condition is true, up to the first whose condition fails. */
  function FilterStream(rows: seq<Row>, outs: seq<Outcome>, failed: bool): Stream
    requires |rows| == |outs|
  {
    if rows == [] then Stream([], failed)
    else if outs[0].Error? then Stream([], true)
    else
      var rest := FilterStream(rows[1..], outs[1..], failed);
      if outs[0] == Val(Truth(true)) then Stream([rows[0]] + rest.rows, rest.failed) else rest
  }

  /** The first rows, and no row pulled after them; no row pulled at all for a count of zero. */
  function LimitStream(input: Stream, count: Outcome): Stream {
    if count.Val? && count.v.Integral? && count.v.i >= 0 then
      if count.v.i <= |input.rows| then Stream(input.rows[..count.v.i], false) else input
    else Stream([], true)
  }

  /** An `EXCEPT` and an `INTERSECT` pull their right input first, a `UNION` its left. */
  function SetStream(sem: Sem, kind: SetOpKind, all: bool, tys: seq<TypeInfo>, left: Stream, right: Stream): Stream {
    if kind == Union then
      if left.failed then Stream(SetRows(sem, kind, all, tys, left.rows, []), true)
      else Stream(SetRows(sem, kind, all, tys, left.rows, right.rows), right.failed)
    else if right.failed then Stream([], true)
    else Stream(SetRows(sem, kind, all, tys, left.rows, right.rows), left.failed)
  }

  /** The rows of an operator that hands out none before it has read all of its inputs. */
  function AtOnce(r: Rows): Stream {
    match r
    case Fail => Stream([], true)
    case Rows(rows) => Stream(rows, false)
  }

  function Produced(ins: seq<Stream>): (rows: seq<seq<Row>>)
    ensures |rows| == |ins|
    ensures forall i :: 0 <= i < |ins| ==> rows[i] == ins[i].rows
  {
    seq(|ins|, i requires 0 <= i < |ins| => ins[i].rows)
  }

  predicate SomeFailed(ins: seq<Stream>) {
    exists i :: 0 <= i < |ins| && ins[i].failed
  }

  /** What an operator hands out; `cells` are the outcomes of its expressions on each candidate row
      its inputs handed out. */
  function CombineStream(sem: Sem, op: RelOp, schema: Schema, tys: seq<TypeInfo>, widths: seq<nat>,
                         ins: seq<Stream>, cells: seq<seq<Outcome>>): Stream
    requires |widths| == |ins| && |cells| == |Candidates(op, Produced(ins))|
  {
    if op.Filter? && |ins| == 1 then FilterStream(ins[0].rows, FirstCell(cells), ins[0].failed)
    else if op.Project? && |ins| == 1 then ProjectStream(cells, ins[0].failed)
    else if op.Limit? && |ins| == 1 && |cells[0]| == 1 then LimitStream(ins[0], cells[0][0])
    else if op.Distinct? && |ins| == 1 then Stream(Dedup(sem, ColumnTypes(schema), ins[0].rows), ins[0].failed)
    else if op.SetOp? && |ins| == 2 then SetStream(sem, op.set_kind, op.all, ColumnTypes(schema), ins[0], ins[1])
    else if SomeFailed(ins) then Stream([], true)
    else AtOnce(Combine(sem, op, schema, tys, widths, Produced(ins), cells))
  }

  lemma {:induction false} ProjectWhole(cells: seq<seq<Outcome>>, failed: bool)
    ensures Whole(ProjectStream(cells, failed)) == if failed then Fail else ProjectRows(cells)
    decreases |cells|
  {
    if cells != [] && AllValues(cells[0]) {
      ProjectWhole(cells[1..], failed);
      if ProjectRows(cells[1..]).Rows? {
        forall i | 0 <= i < |cells| ensures AllValues(cells[i]) { assert i > 0 ==> cells[i] == cells[1..][i - 1]; }
        assert ProjectRows(cells).rows == [ValuesOf(cells[0])] + ProjectRows(cells[1..]).rows;
      } else {
        var i :| 0 <= i < |cells[1..]| && !AllValues(cells[1..][i]);
        assert !AllValues(cells[i + 1]);
      }
    }
  }

  lemma {:induction false} FilterWhole(rows: seq<Row>, outs: seq<Outcome>, failed: bool)
    requires |rows| == |outs|
    ensures Whole(FilterStream(rows, outs, failed)) == if failed || !AllValues(outs) then Fail else Rows(Keep(rows, outs))
    decreases |rows|
  {
    if rows != [] && outs[0].Val? {
      FilterWhole(rows[1..], outs[1..], failed);
      assert AllValues(outs) <==> AllValues(outs[1..]) by {
        if AllValues(outs[1..]) {
          forall i | 0 <= i < |outs| ensures outs[i].Val? { assert i > 0 ==> outs[i] == outs[1..][i - 1]; }
        }
      }
    }
  }

  /** Pulled to its end over inputs that do not fail, an operator produces its rows. */
  lemma CombineWhole(sem: Sem, op: RelOp, schema: Schema, tys: seq<TypeInfo>, widths: seq<nat>, ins: seq<Stream>, cells: seq<seq<Outcome>>)
    requires |widths| == |ins| && |cells| == |Candidates(op, Produced(ins))| && !SomeFailed(ins)
    ensures Whole(CombineStream(sem, op, schema, tys, widths, ins, cells))
         == Combine(sem, op, schema, tys, widths, Produced(ins), cells)
  {
    if op.Filter? && |ins| == 1 {
      FilterWhole(ins[0].rows, FirstCell(cells), false);
    } else if op.Project? && |ins| == 1 {
      ProjectWhole(cells, false);
    }
  }

  /** An operator whose input fails fails, unless it stops before. */
  lemma CombineFails(sem: Sem, op: RelOp, schema: Schema, tys: seq<TypeInfo>, widths: seq<nat>, ins: seq<Stream>, cells: seq<seq<Outcome>>)
    requires |widths| == |ins| && |cells| == |Candidates(op, Produced(ins))| && SomeFailed(ins) && !op.Limit?
    ensures CombineStream(sem, op, schema, tys, widths, ins, cells).failed
  {
    if op.Filter? && |ins| == 1 {
      FilterWhole(ins[0].rows, FirstCell(cells), true);
    } else if op.Project? && |ins| == 1 {
      ProjectWhole(cells, true);
    }
  }
}
