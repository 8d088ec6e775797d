/** A grouped query from its clauses to its plan: `Project` over `Filter` over `Aggregate`, and
    what it computes. */
module GroupedQuery {
  import opened Options
  import opened SqlTypes
  import opened Bound
  import opened Evaluation
  import opened Relational
  import opened Evaluator
  import opened Syntax
  import opened Grouping
  import opened Slots
  import opened Extraction

  /** An expression of the select list, of the `HAVING` or of the `ORDER BY`, with the aggregates
      its nested queries hand over to this query. */
  datatype Clause = Clause(written: Syn, handed: seq<Option<(AggCall, TypeInfo)>>)

  /** One expression extracted, bound above the `Aggregate` and resolved. */
  function Above(rules: Rules, scope: Scope, c: Clause, g: Grouping): Extracted<Expr> {
    match Rewrite(rules, scope, c.written, g)
    case Refused(why) => Refused(why)
    case Done(r, g1) =>
      match BindAbove(rules, scope, r, g1, c.handed)
      case Failed(why) => Refused(why)
      case Ok(bound, g2, _) => Done(bound, g2)
  }

  /** The clauses in the order they are extracted, each after the aggregates of those before. */
  function AboveAll(rules: Rules, scope: Scope, cs: seq<Clause>, g: Grouping): (r: Extracted<seq<Expr>>)
    decreases |cs|
    ensures r.Done? ==> |r.value| == |cs|
  {
    if cs == [] then Done([], g)
    else
      match Above(rules, scope, cs[0], g)
      case Refused(why) => Refused(why)
      case Done(head, g1) =>
        match AboveAll(rules, scope, cs[1..], g1)
        case Refused(why) => Refused(why)
        case Done(tail, g2) => Done([head] + tail, g2)
  }

  predicate HandedOwn(rules: Rules, c: Clause) {
    forall i :: 0 <= i < |c.handed| && c.handed[i].Some? ==> OwnCall(rules, c.handed[i].value.0, c.handed[i].value.1)
  }

  /** Nothing resolved yet. */
  function Fresh(c: Clause): Resolution {
    Resolution(c.handed, seq(|c.handed|, _ => None))
  }

  lemma AboveGrows(rules: Rules, scope: Scope, c: Clause, g: Grouping)
    requires Sound(rules, g) && HandedOwn(rules, c)
    ensures var r := Above(rules, scope, c, g); r.Done? ==> Sound(rules, r.grouping) && Later(g, r.grouping)
  {
    RewriteGrows(rules, scope, c.written, g);
    var r := Rewrite(rules, scope, c.written, g);
    if r.Done? {
      var b := Bind(rules, SlotScope(scope, r.grouping), r.value);
      if b.Some? { ResolveIsRename(rules, b.value, 0, r.grouping, Fresh(c), r.grouping, Fresh(c)); }
    }
  }

  /** Slots are stable over a whole query: one type per aggregate, no aggregate twice, entries
      only appended, across any sequence of clauses. */
  lemma {:induction false} AboveAllGrows(rules: Rules, scope: Scope, cs: seq<Clause>, g: Grouping)
    requires Sound(rules, g) && forall i :: 0 <= i < |cs| ==> HandedOwn(rules, cs[i])
    ensures var r := AboveAll(rules, scope, cs, g); r.Done? ==> Sound(rules, r.grouping) && Later(g, r.grouping)
    decreases |cs|
  {
    if cs != [] {
      AboveGrows(rules, scope, cs[0], g);
      var head := Above(rules, scope, cs[0], g);
      if head.Done? { AboveAllGrows(rules, scope, cs[1..], head.grouping); }
    }
  }

  /** The values of the aggregates handed over, over the rows of a group. */
  function HandedValues(sem: Sem, c: Clause, group: seq<Row>, outer: Env): (hs: seq<Outcome>)
    ensures |hs| == |c.handed|
    ensures forall i :: 0 <= i < |c.handed| && c.handed[i].Some? ==> hs[i] == CallValue(sem, c.handed[i].value.0, group, outer)
  {
    seq(|c.handed|, i requires 0 <= i < |c.handed| =>
      if c.handed[i].Some? then CallValue(sem, c.handed[i].value.0, group, outer) else Error)
  }

  /** A key that is a bare column reads this query. */
  predicate BareKeysOwn(keys: seq<Expr>) {
    forall i :: 0 <= i < |keys| && keys[i].ColumnRef? ==> keys[i].col.depth == 0
  }

  /** `refuse_outer_key`: the key reads columns of enclosing queries and none of this one. */
  predicate OuterKey(key: Expr) {
    var depths := Depths(key);
    (exists i :: 0 <= i < |depths| && depths[i] > 0) && 0 !in depths
  }

  lemma AcceptedKeysOwn(keys: seq<Expr>)
    requires forall i :: 0 <= i < |keys| ==> !OuterKey(keys[i])
    ensures BareKeysOwn(keys)
  {
    forall i | 0 <= i < |keys| && keys[i].ColumnRef? ensures keys[i].col.depth == 0 {
      assert Depths(keys[i])[0] == keys[i].col.depth;
    }
  }

  /** A clause rewritten, then resolved, has one grouping throughout. */
  lemma AboveSteps(rules: Rules, scope: Scope, c: Clause, g: Grouping, r: Extracted<Syn>, b: Option<Expr>, o: Resolved<Expr>)
    requires Sound(rules, g) && HandedOwn(rules, c) && Above(rules, scope, c, g).Done?
    requires r == Rewrite(rules, scope, c.written, g)
    requires r.Done? ==> b == Bind(rules, SlotScope(scope, r.grouping), r.value)
    requires r.Done? && b.Some? ==> o == ResolveExpr(b.value, 0, r.grouping, Fresh(c))
    ensures r.Done? && b.Some? && o.Ok? && Above(rules, scope, c, g) == Done(o.value, o.grouping)
    ensures Sound(rules, r.grouping) && Ready(rules, r.grouping, Fresh(c)) && Ready(rules, o.grouping, o.resolution)
    ensures LaterBoth(r.grouping, Fresh(c), o.grouping, o.resolution)
  {
    RewriteGrows(rules, scope, c.written, g);
    ResolveIsRename(rules, b.value, 0, r.grouping, Fresh(c), o.grouping, o.resolution);
  }

  /** A resolution stays ready whatever aggregates are appended. */
  lemma StaysReady(rules: Rules, g: Grouping, r: Resolution, g': Grouping)
    requires Ready(rules, g, r) && Sound(rules, g') && Later(g, g')
    ensures Ready(rules, g', r)
  {
    forall i | 0 <= i < |r.slots| && r.slots[i].Some? ensures SlotComputes(g', r, i, r.slots[i].value) {
      assert SlotComputes(g, r, i, r.slots[i].value);
    }
  }

  /** One clause: what it computes on the row of the `Aggregate` is what it means over the group,
      whatever the clauses after it add to the aggregates. */
  lemma AboveMeans(s: Setting, c: Clause, g: Grouping)
    requires s.Fits() && Names(s.scope, c.written, s.named) && Sound(s.rules, g) && HandedOwn(s.rules, c)
    requires BareKeysOwn(s.grouping.keys) && Sound(s.rules, s.grouping)
    requires s.handed == HandedValues(s.sem, c, s.group, s.outer)
    requires var r := Above(s.rules, s.scope, c, g); r.Done? && Later(r.grouping, s.grouping)
    requires ViewSyn(s.rules, s.scope, c.written).Some? && Apt(s.rules, s.scope, s.grouping.keys, c.written)
    ensures Eval(s.sem, Above(s.rules, s.scope, c, g).value, [Plain(s.slots)] + s.outer)
            == Meaning(s.sem, s.rules, s.scope, c.written, s.group, s.Env())
  {
    var r := Rewrite(s.rules, s.scope, c.written, g);
    var b := Bind(s.rules, SlotScope(s.scope, r.grouping), r.value);
    var o := ResolveExpr(b.value, 0, r.grouping, Fresh(c));
    AboveSteps(s.rules, s.scope, c, g, r, b, o);
    StaysReady(s.rules, o.grouping, o.resolution, s.grouping);
    StaysReady(s.rules, r.grouping, Fresh(c), s.grouping);
    assert Preserved(s, r.grouping, c.written, r.value) by { RewriteMeans(s, c.written, g, r.grouping); }
    ResolveMeans(s, b.value, [], r.grouping, Fresh(c));
    assert [] + s.Env() == s.Env() && [] + ([Plain(s.slots)] + s.outer) == [Plain(s.slots)] + s.outer;
  }

  // ----- the rows of the `Aggregate` -----

  function Heads(calls: seq<AggCall>): (hs: seq<CallHead>)
    ensures |hs| == |calls|
    ensures forall j :: 0 <= j < |calls| ==> hs[j] == calls[j].head
  {
    seq(|calls|, j requires 0 <= j < |calls| => calls[j].head)
  }

  function Arguments(calls: seq<AggCall>): (es: seq<Expr>)
    ensures |es| == |calls|
    ensures forall j :: 0 <= j < |calls| ==> es[j] == calls[j].arg
  {
    seq(|calls|, j requires 0 <= j < |calls| => calls[j].arg)
  }

  /** The `Aggregate` of a grouping: its keys, then the arguments of its calls. */
  function AggregateOver(input: Plan, g: Grouping): Plan {
    var types := SlotTypes(g);
    Rel(Aggregate(|g.keys|, Heads(g.calls)), g.keys + Arguments(g.calls), [input],
        seq(|types|, i requires 0 <= i < |types| => OutputColumn(SlotName(i), types[i])))
  }

  /** The values of the keys on each row; `None` when one fails. */
  function KeyRows(sem: Sem, keys: seq<Expr>, rows: seq<Row>, outer: Env): Option<seq<Row>> {
    var keyed := ProjectRows(EvalOver(sem, keys, rows, outer));
    if keyed.Fail? then None else Some(keyed.rows)
  }

  /** The outcomes the `Aggregate` reads on each row: its keys, then the arguments. */
  function AggregateCells(sem: Sem, g: Grouping, rows: seq<Row>, outer: Env): (cells: seq<seq<Outcome>>)
    ensures |cells| == |rows|
    ensures forall i :: 0 <= i < |rows| ==> |cells[i]| == |g.keys| + |g.calls|
    ensures forall i :: 0 <= i < |rows| ==> cells[i][..|g.keys|] == EvalAll(sem, g.keys, [Plain(rows[i])] + outer)
  {
    var es := g.keys + Arguments(g.calls);
    var cells := EvalOver(sem, es, rows, outer);
    assert forall i :: 0 <= i < |rows| ==> cells[i][..|g.keys|] == EvalAll(sem, g.keys, [Plain(rows[i])] + outer);
    cells
  }

  /** The outcomes of the columns of the row of one group. */
  function GroupOutcomes(sem: Sem, g: Grouping, rows: seq<Row>, outer: Env, group: seq<nat>): (r: seq<Outcome>)
    requires Below(group, |rows|) && (|g.keys| > 0 ==> group != [])
    ensures |r| == |g.keys| + |g.calls|
  {
    GroupCells(sem, |g.keys|, Heads(g.calls), AggregateCells(sem, g, rows, outer), group)
  }

  /** The outcomes of the rows of the groups. */
  function AllGroupOutcomes(sem: Sem, g: Grouping, rows: seq<Row>, outer: Env, gs: seq<seq<nat>>): (outs: seq<seq<Outcome>>)
    requires forall a :: 0 <= a < |gs| ==> Below(gs[a], |rows|) && (|g.keys| > 0 ==> gs[a] != [])
    ensures |outs| == |gs|
    ensures forall a :: 0 <= a < |gs| ==> outs[a] == GroupOutcomes(sem, g, rows, outer, gs[a])
  {
    seq(|gs|, a requires 0 <= a < |gs| => GroupOutcomes(sem, g, rows, outer, gs[a]))
  }

  /** The rows of the `Aggregate`: one per group. */
  lemma AggregateIsGroups(sem: Sem, g: Grouping, rows: seq<Row>, outer: Env)
    ensures var out := AggregateRows(sem, |g.keys|, Heads(g.calls), AggregateCells(sem, g, rows, outer));
            var ks := KeyRows(sem, g.keys, rows, outer);
            if ks.None? then out == Fail
            else
              var gs := Groups(|g.keys|, ks.value);
              out == ProjectRows(AllGroupOutcomes(sem, g, rows, outer, gs))
  {
    var cells := AggregateCells(sem, g, rows, outer);
    var keyed := EvalOver(sem, g.keys, rows, outer);
    var ks := KeyRows(sem, g.keys, rows, outer);
    if ks.Some? {
      forall i | 0 <= i < |cells| ensures AllValues(cells[i][..|g.keys|]) { assert AllValues(keyed[i]); }
      assert ks.value == seq(|cells|, i requires 0 <= i < |cells| => ValuesOf(cells[i][..|g.keys|]));
      var gs := Groups(|g.keys|, ks.value);
      assert seq(|gs|, a requires 0 <= a < |gs| => GroupCells(sem, |g.keys|, Heads(g.calls), cells, gs[a]))
          == AllGroupOutcomes(sem, g, rows, outer, gs);
    } else {
      var i :| 0 <= i < |keyed| && !AllValues(keyed[i]);
      assert !AllValues(cells[i][..|g.keys|]);
    }
  }

  lemma GroupKeyIs(sem: Sem, g: Grouping, rows: seq<Row>, outer: Env, group: seq<nat>, row: Row, i: nat)
    requires Below(group, |rows|) && i < |g.keys| && exists x :: 0 <= x < |group| && row == rows[group[x]]
    requires KeyRows(sem, g.keys, rows, outer).Some? && OneKey(KeyRows(sem, g.keys, rows, outer).value, group)
    ensures Eval(sem, g.keys[i], [Plain(row)] + outer) == GroupOutcomes(sem, g, rows, outer, group)[i]
  {
    var cells := AggregateCells(sem, g, rows, outer);
    var x :| 0 <= x < |group| && row == rows[group[x]];
    KeysAgree(sem, g.keys, rows, outer, group[x], group[0]);
    assert GroupOutcomes(sem, g, rows, outer, group)[i] == cells[group[0]][..|g.keys|][i];
  }

  lemma GroupCallIs(sem: Sem, g: Grouping, rows: seq<Row>, outer: Env, group: seq<nat>, j: nat)
    requires Below(group, |rows|) && (|g.keys| > 0 ==> group != []) && j < |g.calls|
    ensures CallValue(sem, g.calls[j], Permuted(rows, group), outer) == GroupOutcomes(sem, g, rows, outer, group)[|g.keys| + j]
  {
    ArgumentColumn(sem, g, rows, outer, group, j);
    assert Heads(g.calls)[j] == g.calls[j].head;
  }

  lemma ArgumentColumn(sem: Sem, g: Grouping, rows: seq<Row>, outer: Env, group: seq<nat>, j: nat)
    requires Below(group, |rows|) && j < |g.calls|
    ensures Column(AggregateCells(sem, g, rows, outer), group, |g.keys| + j)
         == ArgumentOver(sem, g.calls[j].arg, Permuted(rows, group), outer)
  {
    var cells, arg := AggregateCells(sem, g, rows, outer), g.calls[j].arg;
    var column, over := Column(cells, group, |g.keys| + j), ArgumentOver(sem, arg, Permuted(rows, group), outer);
    forall x | 0 <= x < |group| ensures column[x] == over[x] { ArgumentCell(sem, g, rows, outer, group[x], j); }
  }

  lemma ArgumentCell(sem: Sem, g: Grouping, rows: seq<Row>, outer: Env, i: nat, j: nat)
    requires i < |rows| && j < |g.calls|
    ensures AggregateCells(sem, g, rows, outer)[i][|g.keys| + j] == Eval(sem, g.calls[j].arg, [Plain(rows[i])] + outer)
  {
    assert (g.keys + Arguments(g.calls))[|g.keys| + j] == g.calls[j].arg;
  }

  /** The row of a group holds each key on every row of the group, and each aggregate over the
      rows of the group. */
  lemma GroupOutcomesCompute(sem: Sem, g: Grouping, rows: seq<Row>, outer: Env, group: seq<nat>, row: Row)
    requires Below(group, |rows|) && (|g.keys| > 0 ==> exists x :: 0 <= x < |group| && row == rows[group[x]])
    requires KeyRows(sem, g.keys, rows, outer).Some? && (|g.keys| > 0 ==> OneKey(KeyRows(sem, g.keys, rows, outer).value, group))
    requires AllValues(GroupOutcomes(sem, g, rows, outer, group))
    ensures GroupRow(sem, g, Permuted(rows, group), row, outer, ValuesOf(GroupOutcomes(sem, g, rows, outer, group)))
  {
    var r := GroupOutcomes(sem, g, rows, outer, group);
    forall i | 0 <= i < |g.keys| ensures Eval(sem, g.keys[i], [Plain(row)] + outer) == r[i] {
      GroupKeyIs(sem, g, rows, outer, group, row, i);
    }
    forall j | 0 <= j < |g.calls| ensures CallValue(sem, g.calls[j], Permuted(rows, group), outer) == r[|g.keys| + j] {
      GroupCallIs(sem, g, rows, outer, group, j);
    }
  }

  /** Two rows of one key have one outcome for every key expression. */
  lemma KeysAgree(sem: Sem, keys: seq<Expr>, rows: seq<Row>, outer: Env, a: nat, b: nat)
    requires a < |rows| && b < |rows| && KeyRows(sem, keys, rows, outer).Some?
    requires KeyRows(sem, keys, rows, outer).value[a] == KeyRows(sem, keys, rows, outer).value[b]
    ensures EvalAll(sem, keys, [Plain(rows[a])] + outer) == EvalAll(sem, keys, [Plain(rows[b])] + outer)
  {
    var keyed := EvalOver(sem, keys, rows, outer);
    assert AllValues(keyed[a]) && AllValues(keyed[b]);
    assert ValuesOf(keyed[a]) == ValuesOf(keyed[b]);
    forall i | 0 <= i < |keys| ensures keyed[a][i] == keyed[b][i] {
      assert ValuesOf(keyed[a])[i] == ValuesOf(keyed[b])[i];
    }
  }
}
