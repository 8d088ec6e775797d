/** A grouped query computes what it says: the plan built from the extracted clauses produces,
    group by group, what the written clauses mean over the rows of the group. */
module GroupedMeaning {
  import opened Options
  import opened Bound
  import opened Evaluation
  import opened Relational
  import opened Evaluator
  import opened Renaming
  import opened Syntax
  import opened Grouping
  import opened Slots
  import opened Extraction
  import opened GroupedQuery

  // ----- what a written expression means does not depend on the slots -----

  /** A reference that is no column of the `Aggregate` of this query. */
  predicate NoSlot(c: ColumnBinding) {
    c.depth == 0 ==> !c.column.Slot?
  }

  /** No name of the scope, and no nested query of `e`, reaches a column of the `Aggregate`. */
  predicate Slotless(scope: Scope, e: Syn) {
    match e
    case Ref(name) => (match Resolve(scope, name) case None => true case Some(c) => NoSlot(c))
    case Nested(inner) => Slotless(scope, inner)
    case Plus(inner) => Slotless(scope, inner)
    case Node(_, kids) => forall i :: 0 <= i < |kids| ==> Slotless(scope, kids[i])
    case Query(_, tested, plan, _) =>
      PlanReads(plan, 1, NoSlot) && forall i :: 0 <= i < |tested| ==> Slotless(scope, tested[i])
    case _ => true
  }

  lemma PlanAgrees(sem: Sem, plan: Plan, p: ColumnBinding -> bool, env1: Env, env2: Env)
    requires PlanReads(plan, 1, p) && forall c :: p(c) ==> Lookup(env1, c) == Lookup(env2, c)
    ensures EvalStream(sem, plan, env2) == EvalStream(sem, plan, env1)
  {
    var same: Renaming := c => c;
    RenameEvalPlan(sem, plan, 1, p, same, [], env1, env2);
    RenamePlanIdentity(plan, 1);
    assert [] + env1 == env1 && [] + env2 == env2;
  }

  lemma {:induction false} MeaningIgnoresSlots(sem: Sem, rules: Rules, scope: Scope, e: Syn, group: seq<Row>,
                                               row: Row, slots: Row, handed: seq<Outcome>, outer: Env)
    requires Slotless(scope, e)
    ensures Meaning(sem, rules, scope, e, group, [Grouped(row, slots, handed)] + outer)
            == Meaning(sem, rules, scope, e, group, [Grouped(row, [], handed)] + outer)
    decreases e
  {
    var env1, env2 := [Grouped(row, slots, handed)] + outer, [Grouped(row, [], handed)] + outer;
    if e.Nested? || e.Plus? {
      MeaningIgnoresSlots(sem, rules, scope, e.inner, group, row, slots, handed, outer);
    } else if e.Node? || e.Query? {
      var kids := if e.Node? then e.kids else e.tested;
      forall i | 0 <= i < |kids|
        ensures Meaning(sem, rules, scope, kids[i], group, env1) == Meaning(sem, rules, scope, kids[i], group, env2)
      {
        MeaningIgnoresSlots(sem, rules, scope, kids[i], group, row, slots, handed, outer);
      }
      assert Meanings(sem, rules, scope, kids, group, env1) == Meanings(sem, rules, scope, kids, group, env2);
      if e.Query? { PlanAgrees(sem, e.plan, NoSlot, env2, env1); }
    } else if e.Call? {
      assert env1[1..] == env2[1..];
    }
  }

  // ----- a grouped query and its reference -----

  datatype GroupedSelect = GroupedSelect(keys: seq<Expr>, items: seq<Clause>, having: Option<Clause>, order: seq<Clause>)

  /** The clauses in the order they are extracted. */
  function ClausesOf(q: GroupedSelect): seq<Clause> {
    q.items + (if q.having.Some? then [q.having.value] else []) + q.order
  }

  /** What a clause means over a group, its columns read on `row`. */
  function ClauseMeaning(sem: Sem, rules: Rules, scope: Scope, c: Clause, group: seq<Row>, row: Row, outer: Env): Outcome {
    Meaning(sem, rules, scope, c.written, group, [Grouped(row, [], HandedValues(sem, c, group, outer))] + outer)
  }

  function ItemMeanings(sem: Sem, rules: Rules, scope: Scope, items: seq<Clause>, group: seq<Row>, row: Row, outer: Env): (outs: seq<Outcome>)
    ensures |outs| == |items|
    ensures forall i :: 0 <= i < |items| ==> outs[i] == ClauseMeaning(sem, rules, scope, items[i], group, row, outer)
  {
    seq(|items|, i requires 0 <= i < |items| => ClauseMeaning(sem, rules, scope, items[i], group, row, outer))
  }

  /** A group, and one of its rows. */
  datatype Group = Group(rows: seq<Row>, row: Row)

  function HavingMeaning(sem: Sem, rules: Rules, scope: Scope, q: GroupedSelect, group: Group, outer: Env): Outcome {
    if q.having.None? then Val(Truth(true))
    else ClauseMeaning(sem, rules, scope, q.having.value, group.rows, group.row, outer)
  }

  function HavingMeanings(sem: Sem, rules: Rules, scope: Scope, q: GroupedSelect, groups: seq<Group>, outer: Env): (outs: seq<Outcome>)
    ensures |outs| == |groups|
    ensures forall a :: 0 <= a < |groups| ==> outs[a] == HavingMeaning(sem, rules, scope, q, groups[a], outer)
  {
    seq(|groups|, a requires 0 <= a < |groups| => HavingMeaning(sem, rules, scope, q, groups[a], outer))
  }

  /** The select list over each group the `HAVING` is true of. */
  function SelectRows(sem: Sem, rules: Rules, scope: Scope, q: GroupedSelect, groups: seq<Group>, outer: Env): Rows {
    var tests := HavingMeanings(sem, rules, scope, q, groups, outer);
    if !AllValues(tests) then Fail
    else
      var kept := Keep(groups, tests);
      ProjectRows(seq(|kept|, k requires 0 <= k < |kept| =>
        ItemMeanings(sem, rules, scope, q.items, kept[k].rows, kept[k].row, outer)))
  }

  /** The plan of the query: `Project` over the `HAVING` over the `Aggregate`. */
  function GroupedPlan(input: Plan, g: Grouping, q: GroupedSelect, values: seq<Expr>, schema: Schema): Plan
    requires |values| == |ClausesOf(q)|
  {
    var aggregate := AggregateOver(input, g);
    var filtered := if q.having.Some? then FilterOver(aggregate, values[|q.items|]) else aggregate;
    ProjectOver(filtered, values[..|q.items|], schema)
  }

  /** A query the theorem is about: no key reads enclosing queries alone, no column the clauses
      name outside an aggregate is a column of a key read in another query, each clause binds, and
      a key under an operator of a clause is seen by it as a column. */
  ghost predicate Legal(rules: Rules, scope: Scope, q: GroupedSelect, keyed: ColumnBinding -> bool, named: ColumnBinding -> bool) {
    scope.slots == [] && Untwinned(keyed, named) && KeysRead(q.keys, keyed)
    && (forall i :: 0 <= i < |q.keys| ==> !OuterKey(q.keys[i]))
    && forall i :: 0 <= i < |ClausesOf(q)| ==> LegalClause(rules, scope, q.keys, ClausesOf(q)[i], named)
  }

  predicate LegalClause(rules: Rules, scope: Scope, keys: seq<Expr>, c: Clause, named: ColumnBinding -> bool) {
    Apt(rules, scope, keys, c.written) && HandedOwn(rules, c) && Names(scope, c.written, named) && Slotless(scope, c.written)
    && ViewSyn(rules, scope, c.written).Some?
  }

  // ----- every clause, on the row of every group -----

  /** The clauses of a query over one group: each computes on the row of the group what it
      means over the group. */
  lemma {:induction false} AboveAllMeans(s: Setting, cs: seq<Clause>, g: Grouping)
    requires s.Fits() && BareKeysOwn(s.grouping.keys) && Sound(s.rules, g) && Sound(s.rules, s.grouping)
    requires forall i :: 0 <= i < |cs| ==> LegalClause(s.rules, s.scope, s.grouping.keys, cs[i], s.named)
    requires var r := AboveAll(s.rules, s.scope, cs, g); r.Done? && Later(r.grouping, s.grouping)
    ensures var values := AboveAll(s.rules, s.scope, cs, g).value;
            forall i :: 0 <= i < |cs| ==>
              Eval(s.sem, values[i], [Plain(s.slots)] + s.outer)
              == ClauseMeaning(s.sem, s.rules, s.scope, cs[i], s.group, s.row, s.outer)
    decreases |cs|
  {
    if cs != [] {
      var c := cs[0];
      var head := Above(s.rules, s.scope, c, g);
      AboveGrows(s.rules, s.scope, c, g);
      AboveAllGrows(s.rules, s.scope, cs[1..], head.grouping);
      var tail := AboveAll(s.rules, s.scope, cs[1..], head.grouping);
      LaterTrans(head.grouping, tail.grouping, s.grouping);
      var handed := HandedValues(s.sem, c, s.group, s.outer);
      AboveMeans(s.(handed := handed), c, g);
      MeaningIgnoresSlots(s.sem, s.rules, s.scope, c.written, s.group, s.row, s.slots, handed, s.outer);
      AboveAllMeans(s, cs[1..], head.grouping);
    }
  }

  // ----- the plan -----

  /** Two lists that agree entry by entry agree once filtered alike. */
  lemma {:induction false} KeepMaps<T, U, X>(xs: seq<T>, ys: seq<U>, outs: seq<Outcome>, f: T -> X, h: U -> X)
    requires |xs| == |ys| == |outs| && forall i :: 0 <= i < |xs| ==> f(xs[i]) == h(ys[i])
    ensures |Keep(xs, outs)| == |Keep(ys, outs)|
    ensures forall k :: 0 <= k < |Keep(xs, outs)| ==> f(Keep(xs, outs)[k]) == h(Keep(ys, outs)[k])
    decreases |xs|
  {
    if xs != [] { KeepMaps(xs[1..], ys[1..], outs[1..], f, h); }
  }

  lemma {:induction false} KeepAll<T>(xs: seq<T>, outs: seq<Outcome>)
    requires |xs| == |outs| && forall i :: 0 <= i < |outs| ==> outs[i] == Val(Truth(true))
    ensures Keep(xs, outs) == xs
    decreases |xs|
  {
    if xs != [] { KeepAll(xs[1..], outs[1..]); }
  }

  /** `slots` are the rows of the `Aggregate` of `groups`: each computes its group. */
  predicate RowsOfGroups(sem: Sem, g: Grouping, groups: seq<Group>, slots: seq<Row>, outer: Env) {
    |slots| == |groups|
    && forall a :: 0 <= a < |groups| ==> GroupRow(sem, g, groups[a].rows, groups[a].row, outer, slots[a])
  }

  /** The groups of a query over the rows of its input, each with any of its rows; without a
      key, one group, empty when the input is, with any row at all. */
  predicate AreGroups(sem: Sem, keys: seq<Expr>, rows: seq<Row>, groups: seq<Group>, outer: Env) {
    var ks := KeyRows(sem, keys, rows, outer);
    ks.Some? && |groups| == |Groups(|keys|, ks.value)|
    && forall a :: 0 <= a < |groups| ==>
         groups[a].rows == Permuted(rows, Groups(|keys|, ks.value)[a])
         && (|keys| > 0 ==> exists x :: 0 <= x < |groups[a].rows| && groups[a].row == groups[a].rows[x])
  }

  lemma AggregatePlan(sem: Sem, g: Grouping, input: Plan, rows: seq<Row>, outer: Env)
    requires EvalPlan(sem, input, outer) == Rows(rows)
    ensures EvalPlan(sem, AggregateOver(input, g), outer)
            == AggregateRows(sem, |g.keys|, Heads(g.calls), AggregateCells(sem, g, rows, outer))
  {
    EvalUnary(sem, AggregateOver(input, g), outer);
  }

  lemma AggregatePlanRows(sem: Sem, g: Grouping, input: Plan, rows: seq<Row>, outer: Env)
    requires EvalPlan(sem, input, outer) == Rows(rows) && KeyRows(sem, g.keys, rows, outer).Some?
    ensures EvalPlan(sem, AggregateOver(input, g), outer)
            == ProjectRows(AllGroupOutcomes(sem, g, rows, outer, Groups(|g.keys|, KeyRows(sem, g.keys, rows, outer).value)))
  {
    AggregatePlan(sem, g, input, rows, outer);
    AggregateIsGroups(sem, g, rows, outer);
  }

  /** When the `Aggregate` succeeds, its rows are those of the groups. */
  lemma AggregateComputes(sem: Sem, g: Grouping, input: Plan, rows: seq<Row>, groups: seq<Group>, outer: Env)
    requires EvalPlan(sem, input, outer) == Rows(rows) && EvalPlan(sem, AggregateOver(input, g), outer).Rows?
    requires AreGroups(sem, g.keys, rows, groups, outer)
    ensures RowsOfGroups(sem, g, groups, EvalPlan(sem, AggregateOver(input, g), outer).rows, outer)
  {
    AggregatePlanRows(sem, g, input, rows, outer);
    var gs := Groups(|g.keys|, KeyRows(sem, g.keys, rows, outer).value);
    var outs := AllGroupOutcomes(sem, g, rows, outer, gs);
    var slots := ProjectRows(outs).rows;
    forall a | 0 <= a < |groups| ensures GroupRow(sem, g, groups[a].rows, groups[a].row, outer, slots[a]) {
      if |g.keys| > 0 {
        var x :| 0 <= x < |groups[a].rows| && groups[a].row == groups[a].rows[x];
        assert groups[a].row == rows[gs[a][x]];
      }
      assert AllValues(outs[a]) && slots[a] == ValuesOf(outs[a]);
      GroupOutcomesCompute(sem, g, rows, outer, gs[a], groups[a].row);
    }
  }

  /** Every aggregate of the query has a value over every group. */
  predicate AllComputed(sem: Sem, g: Grouping, groups: seq<Group>, outer: Env) {
    forall a, j :: 0 <= a < |groups| && 0 <= j < |g.calls| ==> CallValue(sem, g.calls[j], groups[a].rows, outer).Val?
  }

  lemma GroupIsComputed(sem: Sem, g: Grouping, rows: seq<Row>, group: seq<nat>, outer: Env)
    requires Below(group, |rows|) && (|g.keys| > 0 ==> group != []) && KeyRows(sem, g.keys, rows, outer).Some?
    ensures AllValues(GroupOutcomes(sem, g, rows, outer, group))
            <==> forall j :: 0 <= j < |g.calls| ==> CallValue(sem, g.calls[j], Permuted(rows, group), outer).Val?
  {
    if AllValues(GroupOutcomes(sem, g, rows, outer, group)) {
      forall j | 0 <= j < |g.calls| ensures CallValue(sem, g.calls[j], Permuted(rows, group), outer).Val? {
        GroupCallIs(sem, g, rows, outer, group, j);
      }
    } else {
      var i :| 0 <= i < |g.keys| + |g.calls| && GroupOutcomes(sem, g, rows, outer, group)[i].Error?;
      if i < |g.keys| { KeyHasValue(sem, g, rows, group, outer, i); }
      CallFails(sem, g, rows, group, outer, i, i - |g.keys|);
    }
  }

  lemma CallFails(sem: Sem, g: Grouping, rows: seq<Row>, group: seq<nat>, outer: Env, i: nat, j: nat)
    requires Below(group, |rows|) && (|g.keys| > 0 ==> group != []) && j < |g.calls| && i == |g.keys| + j
    requires GroupOutcomes(sem, g, rows, outer, group)[i].Error?
    ensures CallValue(sem, g.calls[j], Permuted(rows, group), outer).Error?
  {
    GroupCallIs(sem, g, rows, outer, group, j);
  }

  lemma KeyHasValue(sem: Sem, g: Grouping, rows: seq<Row>, group: seq<nat>, outer: Env, i: nat)
    requires Below(group, |rows|) && group != [] && i < |g.keys| && KeyRows(sem, g.keys, rows, outer).Some?
    ensures GroupOutcomes(sem, g, rows, outer, group)[i].Val?
  {
    var cells := AggregateCells(sem, g, rows, outer);
    var keyed := EvalOver(sem, g.keys, rows, outer);
    assert AllValues(keyed[group[0]]);
    assert cells[group[0]][..|g.keys|] == keyed[group[0]];
    assert GroupOutcomes(sem, g, rows, outer, group)[i] == cells[group[0]][..|g.keys|][i];
  }

  /** The `Aggregate` succeeds if and only if they all do. */
  lemma AggregateSucceeds(sem: Sem, g: Grouping, input: Plan, rows: seq<Row>, groups: seq<Group>, outer: Env)
    requires EvalPlan(sem, input, outer) == Rows(rows) && AreGroups(sem, g.keys, rows, groups, outer)
    ensures EvalPlan(sem, AggregateOver(input, g), outer).Rows? <==> AllComputed(sem, g, groups, outer)
  {
    AggregatePlanRows(sem, g, input, rows, outer);
    var gs := Groups(|g.keys|, KeyRows(sem, g.keys, rows, outer).value);
    var outs := AllGroupOutcomes(sem, g, rows, outer, gs);
    forall a | 0 <= a < |gs|
      ensures AllValues(outs[a]) <==> forall j :: 0 <= j < |g.calls| ==> CallValue(sem, g.calls[j], groups[a].rows, outer).Val?
    {
      GroupIsComputed(sem, g, rows, gs[a], outer);
    }
  }

  /** The input has rows and every key a value on each of them. */
  predicate KeysComputed(sem: Sem, keys: seq<Expr>, input: Plan, outer: Env) {
    var rows := EvalPlan(sem, input, outer);
    rows.Rows? && KeyRows(sem, keys, rows.rows, outer).Some?
  }

  lemma AggregateFails(sem: Sem, g: Grouping, input: Plan, outer: Env)
    requires !KeysComputed(sem, g.keys, input, outer)
    ensures EvalPlan(sem, AggregateOver(input, g), outer).Fail?
  {
    if EvalPlan(sem, input, outer).Rows? {
      AggregatePlan(sem, g, input, EvalPlan(sem, input, outer).rows, outer);
      AggregateIsGroups(sem, g, EvalPlan(sem, input, outer).rows, outer);
    } else {
      EvalUnary(sem, AggregateOver(input, g), outer);
    }
  }

  /** A grouped query, whole: when every key has a value on every row of the input and every
      aggregate one over every group, the plan produces the written select list over each group the
      written `HAVING` is true of, in order, with the aggregates of the query over the rows of the
      group and its other columns on any row of the group, and fails when one of those fails. When
      the input, a key or an aggregate fails the plan fails, be it for a group the `HAVING` drops. */
  lemma GroupedQueryMeans(sem: Sem, rules: Rules, scope: Scope, q: GroupedSelect, input: Plan, schema: Schema,
                          groups: seq<Group>, outer: Env, keyed: ColumnBinding -> bool, named: ColumnBinding -> bool)
    requires Legal(rules, scope, q, keyed, named) && AboveAll(rules, scope, ClausesOf(q), Grouping(q.keys, [], [])).Done?
    requires KeysComputed(sem, q.keys, input, outer) ==> AreGroups(sem, q.keys, EvalPlan(sem, input, outer).rows, groups, outer)
    ensures var above := AboveAll(rules, scope, ClausesOf(q), Grouping(q.keys, [], []));
            EvalPlan(sem, GroupedPlan(input, above.grouping, q, above.value, schema), outer)
            == if KeysComputed(sem, q.keys, input, outer) && AllComputed(sem, above.grouping, groups, outer)
               then SelectRows(sem, rules, scope, q, groups, outer) else Fail
  {
    var above := AboveAll(rules, scope, ClausesOf(q), Grouping(q.keys, [], []));
    AboveAllGrows(rules, scope, ClausesOf(q), Grouping(q.keys, [], []));
    if KeysComputed(sem, q.keys, input, outer) {
      AggregateSucceeds(sem, above.grouping, input, EvalPlan(sem, input, outer).rows, groups, outer);
    } else {
      AggregateFails(sem, above.grouping, input, outer);
    }
    if EvalPlan(sem, AggregateOver(input, above.grouping), outer).Rows? {
      ComputedQueryMeans(sem, rules, scope, q, input, schema, EvalPlan(sem, input, outer).rows, groups, outer, keyed, named);
    } else {
      GroupedPlanFails(input, above.grouping, q, above.value, schema, sem, outer);
    }
  }

  lemma GroupedPlanFails(input: Plan, g: Grouping, q: GroupedSelect, values: seq<Expr>, schema: Schema, sem: Sem, outer: Env)
    requires |values| == |ClausesOf(q)| && EvalPlan(sem, AggregateOver(input, g), outer).Fail?
    ensures EvalPlan(sem, GroupedPlan(input, g, q, values, schema), outer).Fail?
  {
    if q.having.Some? { EvalUnary(sem, FilterOver(AggregateOver(input, g), values[|q.items|]), outer); }
    EvalUnary(sem, GroupedPlan(input, g, q, values, schema), outer);
  }

  lemma ComputedQueryMeans(sem: Sem, rules: Rules, scope: Scope, q: GroupedSelect, input: Plan, schema: Schema,
                           rows: seq<Row>, groups: seq<Group>, outer: Env,
                           keyed: ColumnBinding -> bool, named: ColumnBinding -> bool)
    requires Legal(rules, scope, q, keyed, named) && AboveAll(rules, scope, ClausesOf(q), Grouping(q.keys, [], [])).Done?
    requires EvalPlan(sem, input, outer) == Rows(rows) && AreGroups(sem, q.keys, rows, groups, outer)
    requires EvalPlan(sem, AggregateOver(input, AboveAll(rules, scope, ClausesOf(q), Grouping(q.keys, [], [])).grouping), outer).Rows?
    ensures var above := AboveAll(rules, scope, ClausesOf(q), Grouping(q.keys, [], []));
            EvalPlan(sem, GroupedPlan(input, above.grouping, q, above.value, schema), outer)
            == SelectRows(sem, rules, scope, q, groups, outer)
  {
    var above := AboveAll(rules, scope, ClausesOf(q), Grouping(q.keys, [], []));
    var g, values := above.grouping, above.value;
    AboveAllGrows(rules, scope, ClausesOf(q), Grouping(q.keys, [], []));
    AcceptedKeysOwn(q.keys);
    AggregateComputes(sem, g, input, rows, groups, outer);
    var slots := EvalPlan(sem, AggregateOver(input, g), outer).rows;
    forall a | 0 <= a < |groups| ensures Computed(sem, rules, scope, q, values, groups[a], slots[a], outer) {
      var s := Setting(sem, rules, scope, g, keyed, named, groups[a].rows, groups[a].row, slots[a], [], outer);
      AboveAllMeans(s, ClausesOf(q), Grouping(q.keys, [], []));
      ComputedFrom(sem, rules, scope, q, values, groups[a], slots[a], outer);
    }
    PlanOfComputed(sem, rules, scope, q, input, g, values, schema, groups, slots, outer);
  }

  /** The values of the clauses on the row of a group are their meanings over it. */
  predicate Computed(sem: Sem, rules: Rules, scope: Scope, q: GroupedSelect, values: seq<Expr>, group: Group, slots: Row, outer: Env) {
    |values| == |ClausesOf(q)|
    && EvalAll(sem, values[..|q.items|], [Plain(slots)] + outer)
       == ItemMeanings(sem, rules, scope, q.items, group.rows, group.row, outer)
    && (q.having.Some? ==>
          Eval(sem, values[|q.items|], [Plain(slots)] + outer) == HavingMeaning(sem, rules, scope, q, group, outer))
  }

  lemma ComputedFrom(sem: Sem, rules: Rules, scope: Scope, q: GroupedSelect, values: seq<Expr>, group: Group, slots: Row, outer: Env)
    requires |values| == |ClausesOf(q)|
    requires forall i :: 0 <= i < |values| ==>
               Eval(sem, values[i], [Plain(slots)] + outer)
               == ClauseMeaning(sem, rules, scope, ClausesOf(q)[i], group.rows, group.row, outer)
    ensures Computed(sem, rules, scope, q, values, group, slots, outer)
  {
    forall i | 0 <= i < |q.items|
      ensures Eval(sem, values[i], [Plain(slots)] + outer)
              == ClauseMeaning(sem, rules, scope, q.items[i], group.rows, group.row, outer)
    {
      assert ClausesOf(q)[i] == q.items[i];
    }
    if q.having.Some? { assert ClausesOf(q)[|q.items|] == q.having.value; }
  }

  /** The `HAVING` filters the rows of the `Aggregate`. */
  lemma FilterOfComputed(sem: Sem, rules: Rules, scope: Scope, q: GroupedSelect, input: Plan, g: Grouping, values: seq<Expr>,
                         groups: seq<Group>, slots: seq<Row>, outer: Env)
    requires EvalPlan(sem, AggregateOver(input, g), outer) == Rows(slots) && |slots| == |groups|
    requires forall a :: 0 <= a < |groups| ==> Computed(sem, rules, scope, q, values, groups[a], slots[a], outer)
    requires |values| == |ClausesOf(q)| && q.having.Some?
    ensures var tests := HavingMeanings(sem, rules, scope, q, groups, outer);
            EvalPlan(sem, FilterOver(AggregateOver(input, g), values[|q.items|]), outer)
            == if AllValues(tests) then Rows(Keep(slots, tests)) else Fail
  {
    FilterIs(sem, AggregateOver(input, g), values[|q.items|], slots, outer);
    var tests := HavingMeanings(sem, rules, scope, q, groups, outer);
    forall a | 0 <= a < |slots| ensures Eval(sem, values[|q.items|], [Plain(slots[a])] + outer) == tests[a] {
      assert Computed(sem, rules, scope, q, values, groups[a], slots[a], outer);
    }
    assert TestsOf(sem, values[|q.items|], slots, outer) == tests;
  }

  function TestsOf(sem: Sem, test: Expr, rows: seq<Row>, outer: Env): (outs: seq<Outcome>)
    ensures |outs| == |rows|
    ensures forall i :: 0 <= i < |rows| ==> outs[i] == Eval(sem, test, [Plain(rows[i])] + outer)
  {
    seq(|rows|, i requires 0 <= i < |rows| => Eval(sem, test, [Plain(rows[i])] + outer))
  }

  lemma FilterIs(sem: Sem, plan: Plan, test: Expr, rows: seq<Row>, outer: Env)
    requires EvalPlan(sem, plan, outer) == Rows(rows)
    ensures var tests := TestsOf(sem, test, rows, outer);
            EvalPlan(sem, FilterOver(plan, test), outer) == if AllValues(tests) then Rows(Keep(rows, tests)) else Fail
  {
    EvalUnary(sem, FilterOver(plan, test), outer);
    assert FirstCell(EvalOver(sem, [test], rows, outer)) == TestsOf(sem, test, rows, outer);
  }

  lemma ItemsOfComputed(sem: Sem, rules: Rules, scope: Scope, q: GroupedSelect, values: seq<Expr>, groups: seq<Group>, slots: seq<Row>,
                        tests: seq<Outcome>, outer: Env)
    requires |slots| == |groups| == |tests| && |values| == |ClausesOf(q)|
    requires forall a :: 0 <= a < |groups| ==> Computed(sem, rules, scope, q, values, groups[a], slots[a], outer)
    ensures var kept := Keep(groups, tests);
            EvalOver(sem, values[..|q.items|], Keep(slots, tests), outer)
            == seq(|kept|, k requires 0 <= k < |kept| => ItemMeanings(sem, rules, scope, q.items, kept[k].rows, kept[k].row, outer))
  {
    var items := values[..|q.items|];
    var onSlots: Row -> seq<Outcome> := (row: Row) => EvalAll(sem, items, [Plain(row)] + outer);
    var onGroup: Group -> seq<Outcome> := (group: Group) => ItemMeanings(sem, rules, scope, q.items, group.rows, group.row, outer);
    forall a | 0 <= a < |groups| ensures onSlots(slots[a]) == onGroup(groups[a]) {
      assert Computed(sem, rules, scope, q, values, groups[a], slots[a], outer);
    }
    KeepMaps(slots, groups, tests, onSlots, onGroup);
    var kept := Keep(groups, tests);
    assert forall k :: 0 <= k < |kept| ==> onSlots(Keep(slots, tests)[k]) == onGroup(kept[k]);
  }

  lemma PlanOfComputed(sem: Sem, rules: Rules, scope: Scope, q: GroupedSelect, input: Plan, g: Grouping, values: seq<Expr>,
                       schema: Schema, groups: seq<Group>, slots: seq<Row>, outer: Env)
    requires EvalPlan(sem, AggregateOver(input, g), outer) == Rows(slots) && |slots| == |groups|
    requires |values| == |ClausesOf(q)|
    requires forall a :: 0 <= a < |groups| ==> Computed(sem, rules, scope, q, values, groups[a], slots[a], outer)
    ensures EvalPlan(sem, GroupedPlan(input, g, q, values, schema), outer) == SelectRows(sem, rules, scope, q, groups, outer)
  {
    var tests := HavingMeanings(sem, rules, scope, q, groups, outer);
    EvalUnary(sem, GroupedPlan(input, g, q, values, schema), outer);
    if q.having.Some? {
      FilterOfComputed(sem, rules, scope, q, input, g, values, groups, slots, outer);
    } else {
      KeepAll(slots, tests);
    }
    if AllValues(tests) { ItemsOfComputed(sem, rules, scope, q, values, groups, slots, tests, outer); }
  }
}
