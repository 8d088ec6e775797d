/** The `FROM` of a join: the sources of its references side by side, each column of them at its
    place in the row of the join. */
module Joins {
  import opened Options
  import opened Bound
  import opened Evaluation
  import opened Relational
  import opened Evaluator
  import opened Scopes
  import DecimalDigits

  /** A reference of a `FROM`: a table with the source it puts in scope, or a join of two. */
  datatype Reference = Leaf(plan: Plan, source: Source) | Joined(kind: JoinKind, left: Reference, right: Reference, on: Option<Expr>)

  datatype BoundFrom = BoundFrom(plan: Plan, sources: seq<Source>)

  // ----- binding -----

  /** `Source::shifted_by`. */
  function Shifted(source: Source, offset: nat): Source {
    source.(columns := seq(|source.columns|, i requires 0 <= i < |source.columns| =>
      source.columns[i].(index := source.columns[i].index + offset)))
  }

  /** `nullable_if`, over `Source::made_nullable`. */
  function NullableIf(source: Source, padded: bool): Source {
    if padded then
      source.(columns := seq(|source.columns|, i requires 0 <= i < |source.columns| =>
        source.columns[i].(ty := source.columns[i].ty.(nullable := true))))
    else source
  }

  /** `padded_columns`. */
  function PaddedColumns(schema: Schema, padded: bool): (s: Schema)
    ensures |s| == |schema|
    ensures forall i :: 0 <= i < |schema| ==>
              s[i] == schema[i].(ty := schema[i].ty.(nullable := schema[i].ty.nullable || padded))
  {
    seq(|schema|, i requires 0 <= i < |schema| => schema[i].(ty := schema[i].ty.(nullable := schema[i].ty.nullable || padded)))
  }

  predicate LeftPadded(kind: JoinKind) {
    kind.Right? || kind.Full?
  }

  predicate RightPadded(kind: JoinKind) {
    kind.Left? || kind.Full?
  }

  /** `check_exposed_names`. */
  predicate NamesClash(left: seq<Source>, right: seq<Source>) {
    exists i, j :: 0 <= i < |left| && 0 <= j < |right| && EqIgnoreCase(left[i].alias, right[j].alias)
  }

  lemma NoClashYet(left: seq<Source>, right: seq<Source>, k: nat)
    requires k < |right| && !NamesClash(left, right[..k]) && !NamesClash(left, [right[k]])
    ensures !NamesClash(left, right[..k + 1])
  {
    forall i, j | 0 <= i < |left| && 0 <= j < k + 1 ensures !EqIgnoreCase(left[i].alias, right[j].alias) {
      assert j < k ==> right[..k][j] == right[j];
      assert [right[k]][0] == right[k];
    }
  }

  datatype Clash = BothAliases | AliasAndTable | BothTables

  /** `check_exposed_names`: the first source of the right that has the name of one of the left, and
      the first of the left it has it of. Whether each was written with an alias picks the error. */
  method CheckExposedNames(left: seq<Source>, right: seq<Source>, aliasedLeft: seq<bool>, aliasedRight: seq<bool>)
    returns (clash: Option<Clash>, later: nat, earlier: nat)
    requires |left| == |aliasedLeft| && |right| == |aliasedRight|
    ensures clash.None? <==> !NamesClash(left, right)
    ensures clash.Some? ==> later < |right| && earlier < |left| && EqIgnoreCase(left[earlier].alias, right[later].alias)
    ensures clash.Some? ==> !NamesClash(left, right[..later]) && !NamesClash(left[..earlier], [right[later]])
    ensures clash.Some? ==>
              (clash.value.BothAliases? <==> aliasedLeft[earlier] && aliasedRight[later])
              && (clash.value.BothTables? <==> !aliasedLeft[earlier] && !aliasedRight[later])
  {
    clash, later, earlier := None, 0, 0;
    while later < |right|
      invariant later <= |right| && !NamesClash(left, right[..later])
    {
      earlier := 0;
      while earlier < |left| && !EqIgnoreCase(left[earlier].alias, right[later].alias)
        invariant earlier <= |left| && !NamesClash(left[..earlier], [right[later]])
      {
        earlier := earlier + 1;
      }
      if earlier < |left| {
        clash := Some(
          if aliasedLeft[earlier] && aliasedRight[later] then BothAliases
          else if aliasedLeft[earlier] || aliasedRight[later] then AliasAndTable
          else BothTables);
        return;
      }
      assert left[..earlier] == left;
      NoClashYet(left, right, later);
      later := later + 1;
    }
    assert right[..later] == right;
  }

  function LeftSources(sources: seq<Source>, kind: JoinKind): (r: seq<Source>)
    ensures |r| == |sources|
  {
    seq(|sources|, i requires 0 <= i < |sources| => NullableIf(sources[i], LeftPadded(kind)))
  }

  function RightSources(sources: seq<Source>, kind: JoinKind, offset: nat): (r: seq<Source>)
    ensures |r| == |sources|
  {
    seq(|sources|, i requires 0 <= i < |sources| => NullableIf(Shifted(sources[i], offset), RightPadded(kind)))
  }

  /** `Source::shifted_by`, column by column. */
  method ShiftedBy(source: Source, offset: nat) returns (moved: Source)
    ensures moved == Shifted(source, offset)
  {
    var columns := source.columns;
    for i := 0 to |columns|
      invariant |columns| == |source.columns|
      invariant forall k :: 0 <= k < |columns| ==>
                  columns[k] == if k < i then source.columns[k].(index := source.columns[k].index + offset) else source.columns[k]
    {
      columns := columns[i := columns[i].(index := columns[i].index + offset)];
    }
    moved := source.(columns := columns);
    assert moved.columns == Shifted(source, offset).columns;
  }

  /** `Source::made_nullable`, column by column. */
  method MadeNullable(source: Source) returns (loose: Source)
    ensures loose == NullableIf(source, true)
  {
    var columns := source.columns;
    for i := 0 to |columns|
      invariant |columns| == |source.columns|
      invariant forall k :: 0 <= k < |columns| ==>
                  columns[k] == if k < i then source.columns[k].(ty := source.columns[k].ty.(nullable := true)) else source.columns[k]
    {
      columns := columns[i := columns[i].(ty := columns[i].ty.(nullable := true))];
    }
    loose := source.(columns := columns);
    assert loose.columns == NullableIf(source, true).columns;
  }

  /** The sources of a join: those of the left, extended with those of the right moved past it. */
  method JoinedSources(left: seq<Source>, right: seq<Source>, kind: JoinKind, offset: nat) returns (sources: seq<Source>)
    ensures sources == LeftSources(left, kind) + RightSources(right, kind, offset)
  {
    sources := [];
    for i := 0 to |left|
      invariant sources == LeftSources(left, kind)[..i]
    {
      var source := left[i];
      if LeftPadded(kind) { source := MadeNullable(source); }
      sources := sources + [source];
    }
    for i := 0 to |right|
      invariant sources == LeftSources(left, kind) + RightSources(right, kind, offset)[..i]
    {
      var source := ShiftedBy(right[i], offset);
      if RightPadded(kind) { source := MadeNullable(source); }
      sources := sources + [source];
    }
  }

  /** `join`; `None` for two sources of one exposed name, and for an `ON` where none belongs or a
      missing one. */
  function JoinOf(left: BoundFrom, right: BoundFrom, kind: JoinKind, on: Option<Expr>): Option<BoundFrom> {
    if NamesClash(left.sources, right.sources) || kind.Cross? == on.Some? then None
    else
      var schema := PaddedColumns(left.plan.schema, LeftPadded(kind)) + PaddedColumns(right.plan.schema, RightPadded(kind));
      Some(BoundFrom(
        Rel(Join(kind), if on.Some? then [on.value] else [], [left.plan, right.plan], schema),
        LeftSources(left.sources, kind) + RightSources(right.sources, kind, |left.plan.schema|)))
  }

  /** `bind_reference`. */
  function BindReference(r: Reference): Option<BoundFrom> {
    match r
    case Leaf(plan, source) => Some(BoundFrom(plan, [source]))
    case Joined(kind, left, right, on) =>
      match (BindReference(left), BindReference(right))
      case (Some(l), Some(r)) => JoinOf(l, r, kind, on)
      case _ => None
  }

  /** The reference a list of them is: each paired with those before it. */
  function Crossed(refs: seq<Reference>): Reference
    requires refs != []
  {
    if |refs| == 1 then refs[0] else Joined(Cross, Crossed(refs[..|refs| - 1]), refs[|refs| - 1], None)
  }

  /** `bind_from_within`: the references folded left to right, a comma a cross join. */
  method BindFromWithin(refs: seq<Reference>) returns (b: Option<BoundFrom>)
    ensures refs == [] ==> b.None?
    ensures refs != [] ==> b == BindReference(Crossed(refs))
  {
    if refs == [] { return None; }
    b := BindReference(refs[0]);
    assert refs[..1] == [refs[0]];
    for i := 1 to |refs|
      invariant b == BindReference(Crossed(refs[..i]))
    {
      assert refs[..i + 1][..i] == refs[..i];
      var next := BindReference(refs[i]);
      if b.Some? && next.Some? {
        b := JoinOf(b.value, next.value, Cross, None);
      } else {
        b := None;
      }
    }
    assert refs[..|refs|] == refs;
  }

  // ----- where each column is -----

  /** The columns of a source, from `offset` on, are the columns of the row there. */
  predicate BlockAt(source: Source, schema: Schema, offset: nat) {
    offset + |source.columns| <= |schema|
    && forall j :: 0 <= j < |source.columns| ==>
         source.columns[j].index == offset + j
         && source.columns[j].name == schema[offset + j].name && source.columns[j].ty == schema[offset + j].ty
  }

  /** The sources take the row one after the other, from `offset` to its end. */
  predicate Blocks(sources: seq<Source>, schema: Schema, offset: nat)
    decreases |sources|
  {
    if sources == [] then offset == |schema|
    else BlockAt(sources[0], schema, offset) && Blocks(sources[1..], schema, offset + |sources[0].columns|)
  }

  lemma {:induction false} BlocksPadded(sources: seq<Source>, schema: Schema, offset: nat, kind: JoinKind)
    requires Blocks(sources, schema, offset)
    ensures Blocks(LeftSources(sources, kind), PaddedColumns(schema, LeftPadded(kind)), offset)
    decreases |sources|
  {
    if sources != [] {
      BlocksPadded(sources[1..], schema, offset + |sources[0].columns|, kind);
      assert LeftSources(sources, kind)[1..] == LeftSources(sources[1..], kind);
    }
  }

  lemma {:induction false} BlocksShifted(sources: seq<Source>, schema: Schema, offset: nat, kind: JoinKind, before: Schema)
    requires Blocks(sources, schema, offset)
    ensures Blocks(RightSources(sources, kind, |before|), before + PaddedColumns(schema, RightPadded(kind)), |before| + offset)
    decreases |sources|
  {
    if sources != [] {
      BlocksShifted(sources[1..], schema, offset + |sources[0].columns|, kind, before);
      assert RightSources(sources, kind, |before|)[1..] == RightSources(sources[1..], kind, |before|);
    }
  }

  lemma {:induction false} BlocksFollowed(sources: seq<Source>, more: seq<Source>, schema: Schema, after: Schema, offset: nat)
    requires Blocks(sources, schema, offset) && Blocks(more, schema + after, |schema|)
    ensures Blocks(sources + more, schema + after, offset)
    decreases |sources|
  {
    if sources == [] {
      assert sources + more == more;
    } else {
      BlocksFollowed(sources[1..], more, schema, after, offset + |sources[0].columns|);
      assert (sources + more)[1..] == sources[1..] + more;
    }
  }

  predicate NamesDistinct(sources: seq<Source>) {
    forall i, j :: 0 <= i < j < |sources| ==> !EqIgnoreCase(sources[i].alias, sources[j].alias)
  }

  /** The scope of a `FROM` is consistent with its plan. */
  predicate Consistent(b: BoundFrom) {
    Blocks(b.sources, b.plan.schema, 0) && NamesDistinct(b.sources)
  }

  /** The columns of every table are indexed by their position. */
  predicate LeavesPlaced(r: Reference) {
    match r
    case Leaf(plan, source) => Blocks([source], plan.schema, 0)
    case Joined(_, left, right, _) => LeavesPlaced(left) && LeavesPlaced(right)
  }

  lemma JoinNames(left: seq<Source>, right: seq<Source>, kind: JoinKind, offset: nat)
    requires NamesDistinct(left) && NamesDistinct(right) && !NamesClash(left, right)
    ensures NamesDistinct(LeftSources(left, kind) + RightSources(right, kind, offset))
  {
    var all := LeftSources(left, kind) + RightSources(right, kind, offset);
    forall i, j | 0 <= i < j < |all| ensures !EqIgnoreCase(all[i].alias, all[j].alias) {
      assert all[i].alias == if i < |left| then left[i].alias else right[i - |left|].alias;
      assert all[j].alias == if j < |left| then left[j].alias else right[j - |left|].alias;
    }
  }

  lemma JoinConsistent(left: BoundFrom, right: BoundFrom, kind: JoinKind, on: Option<Expr>)
    requires Consistent(left) && Consistent(right) && JoinOf(left, right, kind, on).Some?
    ensures Consistent(JoinOf(left, right, kind, on).value)
  {
    var before := PaddedColumns(left.plan.schema, LeftPadded(kind));
    BlocksPadded(left.sources, left.plan.schema, 0, kind);
    BlocksShifted(right.sources, right.plan.schema, 0, kind, before);
    BlocksFollowed(LeftSources(left.sources, kind), RightSources(right.sources, kind, |before|),
                   before, PaddedColumns(right.plan.schema, RightPadded(kind)), 0);
    JoinNames(left.sources, right.sources, kind, |before|);
  }

  /** Join scopes are consistent, whatever the shape of the `FROM`: the sources take consecutive
      blocks of the row in written order, each column is at a column of the row of its name, its
      type and its nullability, and no two sources have one exposed name. */
  lemma {:induction false} ReferenceConsistent(r: Reference)
    requires LeavesPlaced(r) && BindReference(r).Some?
    ensures Consistent(BindReference(r).value)
    decreases r
  {
    if r.Joined? {
      ReferenceConsistent(r.left);
      ReferenceConsistent(r.right);
      JoinConsistent(BindReference(r.left).value, BindReference(r.right).value, r.kind, r.on);
    }
  }

  /** A name that reaches a column among the sources reads the column of the row of that name and
      that type. */
  lemma LookupReadsTheRow(b: BoundFrom, q: Option<Qualifier>, name: string)
    requires Consistent(b) && LookupOf(b.sources, q, name).Some? && LookupOf(b.sources, q, name).value.One?
    ensures var column := LookupOf(b.sources, q, name).value.column;
            column.index < |b.plan.schema|
            && b.plan.schema[column.index].name == column.name && b.plan.schema[column.index].ty == column.ty
            && Carries(column, name)
  {
    var column := LookupOf(b.sources, q, name).value.column;
    var i := MatchIsOfASource(b.sources, q, name, column);
    BlockOfSource(b.sources, b.plan.schema, 0, i, column);
  }

  lemma {:induction false} MatchIsOfASource(sources: seq<Source>, q: Option<Qualifier>, name: string, column: ColumnBinding)
    returns (i: nat)
    requires column in Matches(sources, q, name)
    ensures i < |sources| && column in sources[i].columns && Carries(column, name)
    decreases |sources|
  {
    var front, last := sources[..|sources| - 1], sources[|sources| - 1];
    if column in Matches(front, q, name) {
      i := MatchIsOfASource(front, q, name, column);
    } else {
      i := |sources| - 1;
      assert column in ColumnsNamed(last.columns, name);
    }
  }

  lemma {:induction false} BlockOfSource(sources: seq<Source>, schema: Schema, offset: nat, i: nat, column: ColumnBinding)
    requires Blocks(sources, schema, offset) && i < |sources| && column in sources[i].columns
    ensures column.index < |schema| && schema[column.index].name == column.name && schema[column.index].ty == column.ty
    decreases |sources|
  {
    if i > 0 {
      BlockOfSource(sources[1..], schema, offset + |sources[0].columns|, i - 1, column);
    }
  }

  // ----- the layout, reference by reference -----

  function LeafSources(r: Reference): seq<Source> {
    match r
    case Leaf(_, source) => [source]
    case Joined(_, left, right, _) => LeafSources(left) + LeafSources(right)
  }

  /** Each flag raised. */
  function Raised(flags: seq<bool>, padded: bool): (r: seq<bool>)
    ensures |r| == |flags|
  {
    seq(|flags|, i requires 0 <= i < |flags| => flags[i] || padded)
  }

  /** Whether a table of the reference is, in some join around it, on a side that may be padded. */
  function PaddedLeaves(r: Reference): (flags: seq<bool>)
    ensures |flags| == |LeafSources(r)|
  {
    match r
    case Leaf(_, _) => [false]
    case Joined(kind, left, right, _) =>
      Raised(PaddedLeaves(left), LeftPadded(kind)) + Raised(PaddedLeaves(right), RightPadded(kind))
  }

  function Width(sources: seq<Source>): nat {
    if sources == [] then 0 else Width(sources[..|sources| - 1]) + |sources[|sources| - 1].columns|
  }

  /** One source where it is laid: past `offset` columns, nullable when it may be padded. */
  function LaidAt(source: Source, padded: bool, offset: nat): Source {
    NullableIf(Shifted(source, offset), padded)
  }

  /** `laid` are the sources side by side from `offset` on, the padded ones made nullable. */
  predicate LaidFrom(laid: seq<Source>, sources: seq<Source>, padded: seq<bool>, offset: nat) {
    |laid| == |sources| == |padded|
    && forall i {:trigger laid[i]} :: 0 <= i < |laid| ==> laid[i] == LaidAt(sources[i], padded[i], Width(sources[..i]) + offset)
  }

  predicate LaidOut(laid: seq<Source>, sources: seq<Source>, padded: seq<bool>) {
    LaidFrom(laid, sources, padded, 0)
  }

  lemma OneSource(source: Source, offset: nat, more: nat, was: bool, padded: bool)
    ensures NullableIf(LaidAt(source, was, offset), padded) == LaidAt(source, was || padded, offset)
    ensures NullableIf(Shifted(LaidAt(source, was, offset), more), padded) == LaidAt(source, was || padded, offset + more)
  {
    assert NullableIf(LaidAt(source, was, offset), padded).columns == LaidAt(source, was || padded, offset).columns;
    assert NullableIf(Shifted(LaidAt(source, was, offset), more), padded).columns
        == LaidAt(source, was || padded, offset + more).columns;
  }

  lemma {:induction false} WidthTogether(a: seq<Source>, b: seq<Source>)
    ensures Width(a + b) == Width(a) + Width(b)
    decreases |b|
  {
    if b == [] {
      assert a + b == a;
    } else {
      WidthTogether(a, b[..|b| - 1]);
      assert (a + b)[..|a + b| - 1] == a + b[..|b| - 1];
    }
  }

  lemma OffsetSecond(a: seq<Source>, b: seq<Source>, i: nat)
    requires i < |b|
    ensures (a + b)[|a| + i] == b[i] && Width((a + b)[..|a| + i]) == Width(a) + Width(b[..i])
  {
    assert (a + b)[..|a| + i] == a + b[..i];
    WidthTogether(a, b[..i]);
  }

  lemma OffsetFirst(a: seq<Source>, b: seq<Source>, i: nat)
    requires i < |a|
    ensures (a + b)[i] == a[i] && Width((a + b)[..i]) == Width(a[..i])
  {
    assert (a + b)[..i] == a[..i];
  }

  lemma LeftLaid(l: seq<Source>, pl: seq<bool>, kind: JoinKind, left: seq<Source>)
    requires LaidOut(left, l, pl)
    ensures LaidOut(LeftSources(left, kind), l, Raised(pl, LeftPadded(kind)))
  {
    var laid := LeftSources(left, kind);
    forall i {:trigger laid[i]} | 0 <= i < |laid|
      ensures laid[i] == LaidAt(l[i], Raised(pl, LeftPadded(kind))[i], Width(l[..i]))
    {
      OneSource(l[i], Width(l[..i]), 0, pl[i], LeftPadded(kind));
    }
  }

  lemma RightLaid(r: seq<Source>, pr: seq<bool>, kind: JoinKind, right: seq<Source>, width: nat)
    requires LaidOut(right, r, pr)
    ensures LaidFrom(RightSources(right, kind, width), r, Raised(pr, RightPadded(kind)), width)
  {
    var laid := RightSources(right, kind, width);
    forall i {:trigger laid[i]} | 0 <= i < |laid|
      ensures laid[i] == LaidAt(r[i], Raised(pr, RightPadded(kind))[i], Width(r[..i]) + width)
    {
      OneSource(r[i], Width(r[..i]), width, pr[i], RightPadded(kind));
    }
  }

  /** Sources laid out one after the other. */
  lemma LaidTogether(l: seq<Source>, r: seq<Source>, pl: seq<bool>, pr: seq<bool>, left: seq<Source>, right: seq<Source>)
    requires LaidOut(left, l, pl) && LaidFrom(right, r, pr, Width(l))
    ensures LaidOut(left + right, l + r, pl + pr)
  {
    var laid := left + right;
    forall i {:trigger laid[i]} | 0 <= i < |laid| ensures laid[i] == LaidAt((l + r)[i], (pl + pr)[i], Width((l + r)[..i])) {
      if i < |l| { OffsetFirst(l, r, i); } else { OffsetSecond(l, r, i - |l|); }
    }
  }

  /** The sources of a join are those of its sides laid out one after the other. */
  lemma JoinLaid(l: seq<Source>, r: seq<Source>, pl: seq<bool>, pr: seq<bool>, kind: JoinKind, left: seq<Source>, right: seq<Source>)
    requires LaidOut(left, l, pl) && LaidOut(right, r, pr)
    ensures LaidOut(LeftSources(left, kind) + RightSources(right, kind, Width(l)), l + r,
                    Raised(pl, LeftPadded(kind)) + Raised(pr, RightPadded(kind)))
  {
    LeftLaid(l, pl, kind, left);
    RightLaid(r, pr, kind, right, Width(l));
    LaidTogether(l, r, Raised(pl, LeftPadded(kind)), Raised(pr, RightPadded(kind)),
                 LeftSources(left, kind), RightSources(right, kind, Width(l)));
  }

  /** The scope of a `FROM` of any shape is the sources of its tables in written order, each moved
      past the columns of those before it, its columns made nullable exactly when a join around it
      may pad it; and its row is as wide as they are together. */
  lemma {:induction false} ReferenceLaid(r: Reference)
    requires LeavesPlaced(r) && BindReference(r).Some?
    ensures LaidOut(BindReference(r).value.sources, LeafSources(r), PaddedLeaves(r))
    ensures |BindReference(r).value.plan.schema| == Width(LeafSources(r))
    decreases r
  {
    match r {
      case Leaf(plan, source) =>
        OneLeafLaid(source);
        BlocksWidth([source], plan.schema, 0);
      case Joined(kind, left, right, _) =>
        ReferenceLaid(left);
        ReferenceLaid(right);
        JoinLaid(LeafSources(left), LeafSources(right), PaddedLeaves(left), PaddedLeaves(right), kind,
                 BindReference(left).value.sources, BindReference(right).value.sources);
        WidthTogether(LeafSources(left), LeafSources(right));
    }
  }

  lemma OneLeafLaid(source: Source)
    ensures LaidOut([source], [source], [false]) && Width([source]) == |source.columns|
  {
    assert Shifted(source, 0).columns == source.columns;
    assert [source][..0] == [];
  }

  // ----- the rows -----

  /** Every column of the source may be NULL. */
  predicate AllNullable(source: Source) {
    forall j :: 0 <= j < |source.columns| ==> source.columns[j].ty.nullable
  }

  /** The cells a row gives a source: a row of its table, or NULLs where it may be padded. */
  predicate Block(cells: Row, table: seq<Row>, source: Source) {
    |cells| == |source.columns| && (cells in table || (cells == Nulls(|cells|) && AllNullable(source)))
  }

  /** A row cut along the sources. */
  predicate Fits(row: Row, tables: seq<seq<Row>>, sources: seq<Source>)
    decreases |sources|
  {
    |tables| == |sources|
    && if sources == [] then row == []
       else
         |row| >= |sources[0].columns| && Block(row[..|sources[0].columns|], tables[0], sources[0])
         && Fits(row[|sources[0].columns|..], tables[1..], sources[1..])
  }

  predicate AllFit(rows: seq<Row>, tables: seq<seq<Row>>, sources: seq<Source>) {
    forall row :: row in rows ==> Fits(row, tables, sources)
  }

  /** What a side of a join does to its sources. */
  predicate Loosened(sources: seq<Source>, to: seq<Source>) {
    |sources| == |to|
    && forall i :: 0 <= i < |sources| ==>
         |sources[i].columns| == |to[i].columns| && (AllNullable(sources[i]) ==> AllNullable(to[i]))
  }

  lemma {:induction false} FitsLoosened(row: Row, tables: seq<seq<Row>>, sources: seq<Source>, to: seq<Source>)
    requires Fits(row, tables, sources) && Loosened(sources, to)
    ensures Fits(row, tables, to)
    decreases |sources|
  {
    if sources != [] {
      FitsLoosened(row[|sources[0].columns|..], tables[1..], sources[1..], to[1..]);
    }
  }

  lemma {:induction false} FitsTogether(a: Row, b: Row, ta: seq<seq<Row>>, tb: seq<seq<Row>>, sa: seq<Source>, sb: seq<Source>)
    requires Fits(a, ta, sa) && Fits(b, tb, sb)
    ensures Fits(a + b, ta + tb, sa + sb)
    decreases |sa|
  {
    if sa == [] {
      assert a + b == b && ta + tb == tb && sa + sb == sb;
    } else {
      var w := |sa[0].columns|;
      FitsTogether(a[w..], b, ta[1..], tb, sa[1..], sb);
      assert (a + b)[..w] == a[..w] && (a + b)[w..] == a[w..] + b;
      assert (ta + tb)[1..] == ta[1..] + tb && (sa + sb)[1..] == sa[1..] + sb;
    }
  }

  lemma WidthOfFirst(sources: seq<Source>)
    requires sources != []
    ensures Width(sources) == |sources[0].columns| + Width(sources[1..])
  {
    assert sources == [sources[0]] + sources[1..];
    WidthTogether([sources[0]], sources[1..]);
    OneLeafLaid(sources[0]);
  }

  lemma {:induction false} FitsNulls(tables: seq<seq<Row>>, sources: seq<Source>, width: nat)
    requires |tables| == |sources| && width == Width(sources)
    requires forall i :: 0 <= i < |sources| ==> AllNullable(sources[i])
    ensures Fits(Nulls(width), tables, sources)
    decreases |sources|
  {
    if sources != [] {
      var w := |sources[0].columns|;
      WidthOfFirst(sources);
      FitsNulls(tables[1..], sources[1..], width - w);
      assert Nulls(width)[..w] == Nulls(w) && Nulls(width)[w..] == Nulls(width - w);
    }
  }

  lemma {:induction false} BlocksWidth(sources: seq<Source>, schema: Schema, offset: nat)
    requires Blocks(sources, schema, offset)
    ensures offset + Width(sources) == |schema|
    decreases |sources|
  {
    if sources != [] {
      WidthOfFirst(sources);
      BlocksWidth(sources[1..], schema, offset + |sources[0].columns|);
    }
  }

  /** A side of a row of a join: a row of that input, or NULLs on a padded side. */
  predicate Side(cells: Row, rows: seq<Row>, width: nat, padded: bool) {
    cells in rows || (padded && cells == Nulls(width))
  }

  ghost predicate TwoSides(row: Row, left: seq<Row>, right: seq<Row>, lw: nat, rw: nat, kind: JoinKind) {
    exists l, r :: SidesAre(row, l, r) && Side(l, left, lw, LeftPadded(kind)) && Side(r, right, rw, RightPadded(kind))
  }

  predicate SidesAre(row: Row, l: Row, r: Row) {
    row == l + r
  }

  lemma {:induction false} KeptIsIn<T>(rows: seq<T>, outs: seq<Outcome>, row: T)
    requires |rows| == |outs| && row in Keep(rows, outs)
    ensures row in rows
    decreases |rows|
  {
    if !(outs[0] == Val(Truth(true)) && row == rows[0]) { KeptIsIn(rows[1..], outs[1..], row); }
  }

  lemma OneLeftSides(kind: JoinKind, left: seq<Row>, right: seq<Row>, lw: nat, rw: nat, outs: seq<Outcome>, row: Row)
    requires left != [] && |outs| == |right|
    requires var here := Keep(seq(|right|, i requires 0 <= i < |right| => left[0] + right[i]), outs);
             row in here || (RightPadded(kind) && row == left[0] + Nulls(rw))
    ensures TwoSides(row, left, right, lw, rw, kind)
  {
    var pairs := seq(|right|, i requires 0 <= i < |right| => left[0] + right[i]);
    if row in Keep(pairs, outs) {
      KeptIsIn(pairs, outs, row);
      var i :| 0 <= i < |pairs| && row == pairs[i];
      assert SidesAre(row, left[0], right[i]);
    } else {
      assert SidesAre(row, left[0], Nulls(rw));
    }
  }

  lemma MoreLeft(row: Row, left: seq<Row>, right: seq<Row>, lw: nat, rw: nat, kind: JoinKind)
    requires left != [] && TwoSides(row, left[1..], right, lw, rw, kind)
    ensures TwoSides(row, left, right, lw, rw, kind)
  {
    var l, r :| SidesAre(row, l, r) && Side(l, left[1..], lw, LeftPadded(kind)) && Side(r, right, rw, RightPadded(kind));
    assert Side(l, left, lw, LeftPadded(kind));
  }

  lemma {:induction false} LeftPartSides(kind: JoinKind, left: seq<Row>, right: seq<Row>, lw: nat, rw: nat, holds: seq<Outcome>, row: Row)
    requires |holds| == |left| * |right| && row in LeftPart(kind, left, right, rw, holds)
    ensures TwoSides(row, left, right, lw, rw, kind)
    decreases |left|
  {
    DecimalDigits.OneMoreTime(|left|, |right|);
    if row in LeftPart(kind, left[1..], right, rw, holds[|right|..]) {
      LeftPartSides(kind, left[1..], right, lw, rw, holds[|right|..], row);
      MoreLeft(row, left, right, lw, rw, kind);
    } else {
      OneLeftSides(kind, left, right, lw, rw, holds[..|right|], row);
    }
  }

  lemma {:induction false} RightPartSides(kind: JoinKind, left: seq<Row>, right: seq<Row>, r: nat, lw: nat, rw: nat, holds: seq<Outcome>, row: Row)
    requires |holds| == |left| * |right| && r <= |right| && LeftPadded(kind) && row in RightPart(|left|, right, r, lw, holds)
    ensures TwoSides(row, left, right, lw, rw, kind)
    decreases |right| - r
  {
    if row in RightPart(|left|, right, r + 1, lw, holds) {
      RightPartSides(kind, left, right, r + 1, lw, rw, holds, row);
    } else {
      assert SidesAre(row, Nulls(lw), right[r]);
    }
  }

  /** The rows of the tables of a reference. */
  ghost function Tables(sem: Sem, r: Reference, outer: Env): seq<seq<Row>> {
    match r
    case Leaf(plan, _) => [if EvalPlan(sem, plan, outer).Rows? then EvalPlan(sem, plan, outer).rows else []]
    case Joined(_, left, right, _) => Tables(sem, left, outer) + Tables(sem, right, outer)
  }

  /** The rows of every table are as wide as its columns. */
  ghost predicate TablesFit(sem: Sem, r: Reference, outer: Env) {
    match r
    case Leaf(plan, source) =>
      EvalPlan(sem, plan, outer).Rows? ==> forall row :: row in EvalPlan(sem, plan, outer).rows ==> |row| == |source.columns|
    case Joined(_, left, right, _) => TablesFit(sem, left, outer) && TablesFit(sem, right, outer)
  }

  lemma SideFits(cells: Row, rows: seq<Row>, width: nat, padded: bool, tables: seq<seq<Row>>, sources: seq<Source>, to: seq<Source>)
    requires AllFit(rows, tables, sources) && Side(cells, rows, width, padded) && Loosened(sources, to)
    requires |tables| == |sources| && width == Width(to)
    requires padded ==> forall i :: 0 <= i < |to| ==> AllNullable(to[i])
    ensures Fits(cells, tables, to)
  {
    if cells in rows {
      FitsLoosened(cells, tables, sources, to);
    } else {
      FitsNulls(tables, to, width);
    }
  }

  lemma LeftFits(left: BoundFrom, kind: JoinKind, cells: Row, rows: seq<Row>, tables: seq<seq<Row>>)
    requires Consistent(left) && |tables| == |left.sources| && AllFit(rows, tables, left.sources)
    requires Side(cells, rows, |left.plan.schema|, LeftPadded(kind))
    ensures Fits(cells, tables, LeftSources(left.sources, kind))
  {
    var to := LeftSources(left.sources, kind);
    BlocksPadded(left.sources, left.plan.schema, 0, kind);
    BlocksWidth(to, PaddedColumns(left.plan.schema, LeftPadded(kind)), 0);
    SideFits(cells, rows, |left.plan.schema|, LeftPadded(kind), tables, left.sources, to);
  }

  lemma RightFits(right: BoundFrom, kind: JoinKind, before: Schema, cells: Row, rows: seq<Row>, tables: seq<seq<Row>>)
    requires Consistent(right) && |tables| == |right.sources| && AllFit(rows, tables, right.sources)
    requires Side(cells, rows, |right.plan.schema|, RightPadded(kind))
    ensures Fits(cells, tables, RightSources(right.sources, kind, |before|))
  {
    var to := RightSources(right.sources, kind, |before|);
    BlocksShifted(right.sources, right.plan.schema, 0, kind, before);
    BlocksWidth(to, before + PaddedColumns(right.plan.schema, RightPadded(kind)), |before|);
    SideFits(cells, rows, |right.plan.schema|, RightPadded(kind), tables, right.sources, to);
  }

  lemma RowFits(left: BoundFrom, right: BoundFrom, kind: JoinKind, row: Row, lrows: seq<Row>, rrows: seq<Row>,
                ltables: seq<seq<Row>>, rtables: seq<seq<Row>>)
    requires Consistent(left) && Consistent(right)
    requires |ltables| == |left.sources| && |rtables| == |right.sources|
    requires AllFit(lrows, ltables, left.sources) && AllFit(rrows, rtables, right.sources)
    requires TwoSides(row, lrows, rrows, |left.plan.schema|, |right.plan.schema|, kind)
    ensures Fits(row, ltables + rtables,
                 LeftSources(left.sources, kind) + RightSources(right.sources, kind, |left.plan.schema|))
  {
    var l, r :| SidesAre(row, l, r)
                && Side(l, lrows, |left.plan.schema|, LeftPadded(kind)) && Side(r, rrows, |right.plan.schema|, RightPadded(kind));
    LeftFits(left, kind, l, lrows, ltables);
    RightFits(right, kind, left.plan.schema, r, rrows, rtables);
    FitsTogether(l, r, ltables, rtables,
                 LeftSources(left.sources, kind), RightSources(right.sources, kind, |left.plan.schema|));
  }

  lemma JoinSides(sem: Sem, plan: Plan, outer: Env, kind: JoinKind, row: Row)
    requires plan.op == Join(kind) && |plan.inputs| == 2
    requires EvalPlan(sem, plan, outer).Rows? && row in EvalPlan(sem, plan, outer).rows
    ensures EvalPlan(sem, plan.inputs[0], outer).Rows? && EvalPlan(sem, plan.inputs[1], outer).Rows?
    ensures TwoSides(row, EvalPlan(sem, plan.inputs[0], outer).rows, EvalPlan(sem, plan.inputs[1], outer).rows,
                     |plan.inputs[0].schema|, |plan.inputs[1].schema|, kind)
  {
    EvalBinary(sem, plan, outer);
    var left, right := EvalPlan(sem, plan.inputs[0], outer).rows, EvalPlan(sem, plan.inputs[1], outer).rows;
    var lw, rw := |plan.inputs[0].schema|, |plan.inputs[1].schema|;
    var holds := PairOutcomes(EvalOver(sem, plan.exprs, Candidates(plan.op, [left, right]), outer));
    if row in LeftPart(kind, left, right, rw, holds) {
      LeftPartSides(kind, left, right, lw, rw, holds, row);
    } else {
      RightPartSides(kind, left, right, 0, lw, rw, holds, row);
    }
  }

  lemma {:induction false} TableCount(sem: Sem, r: Reference, outer: Env)
    requires BindReference(r).Some?
    ensures |Tables(sem, r, outer)| == |BindReference(r).value.sources|
    decreases r
  {
    if r.Joined? { TableCount(sem, r.left, outer); TableCount(sem, r.right, outer); }
  }

  /** Every row of a `FROM` of any shape gives each source a row of its table, or NULLs, and NULLs
      only where every column of the source is declared nullable. */
  lemma {:induction false} ReferenceRows(sem: Sem, r: Reference, outer: Env)
    requires LeavesPlaced(r) && BindReference(r).Some? && TablesFit(sem, r, outer)
    requires EvalPlan(sem, BindReference(r).value.plan, outer).Rows?
    ensures AllFit(EvalPlan(sem, BindReference(r).value.plan, outer).rows, Tables(sem, r, outer), BindReference(r).value.sources)
    decreases r
  {
    var b := BindReference(r).value;
    if r.Joined? {
      var (left, right) := (BindReference(r.left).value, BindReference(r.right).value);
      ReferenceConsistent(r.left);
      ReferenceConsistent(r.right);
      TableCount(sem, r.left, outer);
      TableCount(sem, r.right, outer);
      assert b.plan.inputs[0] == left.plan && b.plan.inputs[1] == right.plan;
      forall row | row in EvalPlan(sem, b.plan, outer).rows ensures Fits(row, Tables(sem, r, outer), b.sources) {
        JoinSides(sem, b.plan, outer, r.kind, row);
        ReferenceRows(sem, r.left, outer);
        ReferenceRows(sem, r.right, outer);
        RowFits(left, right, r.kind, row, EvalPlan(sem, left.plan, outer).rows, EvalPlan(sem, right.plan, outer).rows,
                Tables(sem, r.left, outer), Tables(sem, r.right, outer));
      }
    } else {
      forall row | row in EvalPlan(sem, b.plan, outer).rows ensures Fits(row, Tables(sem, r, outer), b.sources) {
        assert row[..|row|] == row && row[|row|..] == [];
      }
    }
  }

  /** The cell is that of a row of the table, or the column may be NULL and the cell is. */
  predicate CellOf(cell: Value, table: seq<Row>, column: ColumnBinding, j: nat) {
    (exists r :: 0 <= r < |table| && j < |table[r]| && cell == table[r][j]) || (cell == Null && column.ty.nullable)
  }

  lemma {:induction false} ColumnOfBlock(row: Row, tables: seq<seq<Row>>, sources: seq<Source>, schema: Schema, offset: nat, i: nat, j: nat)
    requires offset <= |row| && Fits(row[offset..], tables, sources) && Blocks(sources, schema, offset)
    requires i < |sources| && j < |sources[i].columns|
    ensures sources[i].columns[j].index < |row|
    ensures CellOf(row[sources[i].columns[j].index], tables[i], sources[i].columns[j], j)
    decreases |sources|
  {
    var w := |sources[0].columns|;
    var cells := row[offset..][..w];
    if i == 0 {
      assert row[offset + j] == cells[j];
      if cells in tables[0] {
        var r :| 0 <= r < |tables[0]| && tables[0][r] == cells;
        assert row[offset + j] == tables[0][r][j];
      } else {
        assert cells[j] == Null;
      }
    } else {
      assert row[offset + w..] == row[offset..][w..];
      ColumnOfBlock(row, tables[1..], sources[1..], schema, offset + w, i - 1, j);
    }
  }

  /** A column read from any row of a `FROM` of any shape is the cell of its table, or a NULL its
      type announces: a column announced not nullable is never padded. */
  lemma ReferenceReads(sem: Sem, r: Reference, outer: Env, row: Row, i: nat, j: nat)
    requires LeavesPlaced(r) && BindReference(r).Some? && TablesFit(sem, r, outer)
    requires EvalPlan(sem, BindReference(r).value.plan, outer).Rows? && row in EvalPlan(sem, BindReference(r).value.plan, outer).rows
    requires i < |BindReference(r).value.sources| && j < |BindReference(r).value.sources[i].columns|
    ensures var column := BindReference(r).value.sources[i].columns[j];
            column.index < |row| && i < |Tables(sem, r, outer)| && CellOf(row[column.index], Tables(sem, r, outer)[i], column, j)
  {
    var b := BindReference(r).value;
    ReferenceConsistent(r);
    ReferenceRows(sem, r, outer);
    assert Fits(row, Tables(sem, r, outer), b.sources) && row[0..] == row;
    ColumnOfBlock(row, Tables(sem, r, outer), b.sources, b.plan.schema, 0, i, j);
  }
}
