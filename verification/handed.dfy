/** An aggregate a nested query writes over the columns of an enclosing one: the call handed over,
    bound by the query it belongs to, is the call that was written. */
module HandedOver {
  import opened Options
  import opened SqlTypes
  import opened Bound
  import opened Evaluation
  import opened Relational
  import opened Evaluator
  import opened Renaming
  import opened Syntax
  import opened Grouping
  import opened Slots
  import opened Extraction
  import opened GroupedQuery
  import Scopes

  /** The aggregates nested queries handed over to a query, as each is met. */
  class OuterAggregates {
    var calls: seq<Syn>

    constructor ()
      ensures calls == []
    {
      calls := [];
    }
  }

  datatype Handing = Reference(value: Expr) | CallRefused | AggregateInWhere

  /** What collects the aggregates of the query `level` queries up, if anything does: a `WHERE`, an
      `ON`, an `UPDATE` collect none. */
  function CollectorAt(collectors: seq<OuterAggregates?>, level: nat): OuterAggregates? {
    if level < |collectors| then collectors[level] else null
  }

  /** `bind_outer_aggregate`: the errors of the call come first, then the refusal of a query that
      takes no aggregate; otherwise the call goes last among those of its query, and what comes
      back is what the nested query binds it to. */
  method BindOuterAggregate(rules: Rules, scope: Scope, e: Syn, level: nat, collectors: seq<OuterAggregates?>) returns (r: Handing)
    requires e.Call?
    modifies if CollectorAt(collectors, level) != null then {CollectorAt(collectors, level)} else {}
    ensures r.CallRefused? <==> BindCall(rules, scope, e).None?
    ensures r.AggregateInWhere? <==> BindCall(rules, scope, e).Some? && CollectorAt(collectors, level) == null
    ensures CollectorAt(collectors, level) != null ==>
              var target := CollectorAt(collectors, level);
              target.calls == old(target.calls) + (if r.Reference? then [e] else [])
              && (r.Reference? ==>
                    var ty := BindCall(rules, scope, e).value.1;
                    r.value == ColumnRef(HandedColumn(|old(target.calls)|, ty, level), ty)
                    && (CallLevel(rules, scope, e) == OuterBy(level) && e.at == |old(target.calls)| ==> Bind(rules, scope, e) == Some(r.value)))
  {
    match BindCall(rules, scope, e)
    case None => r := CallRefused;
    case Some((_, ty)) =>
      var target := CollectorAt(collectors, level);
      if target == null {
        r := AggregateInWhere;
      } else {
        target.calls := target.calls + [e];
        r := Reference(ColumnRef(HandedColumn(|target.calls| - 1, ty, level), ty));
      }
  }

  /** The calls handed over, bound by the query they belong to. */
  function Entries(rules: Rules, owner: Scope, calls: seq<Syn>): (entries: seq<Option<(AggCall, TypeInfo)>>)
    requires forall i :: 0 <= i < |calls| ==> calls[i].Call?
    ensures |entries| == |calls|
    ensures forall i :: 0 <= i < |calls| ==> entries[i] == BindCall(rules, owner, calls[i])
  {
    seq(|calls|, i requires 0 <= i < |calls| => BindCall(rules, owner, calls[i]))
  }

  // ----- a name read from `n` queries further out -----

  function Lower(n: nat): Renaming {
    (c: ColumnBinding) => c.(depth := if c.depth >= n then c.depth - n else c.depth)
  }

  function AtDepth(n: nat): ColumnBinding -> bool {
    (c: ColumnBinding) => c.depth == n
  }

  /** A name that reaches, from a nested query, a column `n` queries up reaches it from there. */
  predicate OwnedBy(nested: Scope, owner: Scope, n: nat) {
    nested.slots == [] && owner.slots == []
    && forall s :: s in nested.names && nested.names[s].depth == n ==> s in owner.names && owner.names[s] == Lower(n)(nested.names[s])
  }

  /** The names of a query, each text read as a column name with or without a qualifier, in the
      chain of the queries around it. */
  function ScopeFrom(levels: seq<seq<Scopes.Source>>, texts: set<string>, reading: string -> (Option<Scopes.Qualifier>, string)): Scope {
    Scope(map s | s in texts && Scopes.ResolveName(levels, reading(s).0, reading(s).1).Reached?
            :: Scopes.ResolveName(levels, reading(s).0, reading(s).1).column, [])
  }

  /** Lexical resolution is such: what a nested query reads `n` levels up the query `n` up reads as
      its own, as long as a depth is held exactly. */
  lemma NestedNamesAreOwned(levels: seq<seq<Scopes.Source>>, n: nat, texts: set<string>, reading: string -> (Option<Scopes.Qualifier>, string))
    requires n < |levels| && (n < 255 || |levels| <= 256)
    ensures OwnedBy(ScopeFrom(levels, texts, reading), ScopeFrom(levels[n..], texts, reading), n)
  {
    var nested, owner := ScopeFrom(levels, texts, reading), ScopeFrom(levels[n..], texts, reading);
    forall s | s in nested.names && nested.names[s].depth == n
      ensures s in owner.names && owner.names[s] == Lower(n)(nested.names[s])
    {
      var (q, name) := reading(s);
      assert Scopes.Innermost(levels, q, name) == n;
      assert levels[n..][0] == levels[n];
      Scopes.InnermostIs(levels[n..], q, name, 0);
    }
  }

  lemma {:induction false} DepthsRead(e: Expr, n: nat)
    requires QueryFree(e) && forall i :: 0 <= i < |Depths(e)| ==> Depths(e)[i] == n
    ensures Reads(e, 0, AtDepth(n))
    decreases e, 0
  {
    match e
    case Op(_, args, _) =>
      assert Depths(e) == DepthsAll(args);
      AllDepthsRead(args, n);
    case ColumnRef(c, _) => assert Depths(e)[0] == c.depth && AtLevel(c, 0) == c;
    case _ =>
  }

  lemma {:induction false} AllDepthsRead(es: seq<Expr>, n: nat)
    requires forall i :: 0 <= i < |es| ==> QueryFree(es[i])
    requires forall i :: 0 <= i < |DepthsAll(es)| ==> DepthsAll(es)[i] == n
    ensures ReadsAll(es, 0, AtDepth(n))
    decreases es, 0
  {
    if es != [] {
      var d, ds := Depths(es[0]), DepthsAll(es[1..]);
      assert forall i :: 0 <= i < |d| ==> d[i] == DepthsAll(es)[i];
      assert forall i :: 0 <= i < |ds| ==> ds[i] == DepthsAll(es)[|d| + i];
      DepthsRead(es[0], n);
      AllDepthsRead(es[1..], n);
      forall i | 0 <= i < |es| ensures Reads(es[i], 0, AtDepth(n)) { assert i > 0 ==> es[i] == es[1..][i - 1]; }
    }
  }

  lemma {:induction false} FillParts(t: Template, kids: seq<Expr>, q: ColumnBinding -> bool, i: nat)
    requires TemplateOk(t, |kids|) && i < |kids| && Mentions(t, i) && QueryFree(Fill(t, kids)) && Reads(Fill(t, kids), 0, q)
    ensures QueryFree(kids[i]) && Reads(kids[i], 0, q)
  {
    if t.Build? {
      var k :| 0 <= k < |t.args| && Mentions(t.args[k], i);
      assert FillAll(t.args, kids)[k] == Fill(t.args[k], kids);
      FillParts(t.args[k], kids, q, i);
    }
  }

  lemma {:induction false} FillRenamed(t: Template, kids: seq<Expr>, g: Renaming)
    requires TemplateOk(t, |kids|)
    ensures Fill(t, RenameAll(kids, 0, g)) == Rename(Fill(t, kids), 0, g)
  {
    if t.Build? {
      forall k | 0 <= k < |t.args| ensures Fill(t.args[k], RenameAll(kids, 0, g)) == Rename(Fill(t.args[k], kids), 0, g) {
        FillRenamed(t.args[k], kids, g);
      }
      assert FillAll(t.args, RenameAll(kids, 0, g)) == RenameAll(FillAll(t.args, kids), 0, g);
    }
  }

  /** A rule sees a renamed operand as it saw the operand. */
  lemma {:induction false} RenamedIsSeen(rules: Rules, e: Expr, g: Renaming)
    requires QueryFree(e)
    ensures ViewOf(rules, Rename(e, 0, g)) == ViewOf(rules, e)
    ensures ColumnFree(e) ==> Rename(e, 0, g) == e
  {
    if e.Op? {
      forall i | 0 <= i < |e.args|
        ensures ViewOf(rules, Rename(e.args[i], 0, g)) == ViewOf(rules, e.args[i])
        ensures ColumnFree(e.args[i]) ==> Rename(e.args[i], 0, g) == e.args[i]
      {
        RenamedIsSeen(rules, e.args[i], g);
      }
      var args := RenameAll(e.args, 0, g);
      assert LabelsOf(rules, args) == LabelsOf(rules, e.args);
      assert ColumnFree(Rename(e, 0, g)) <==> ColumnFree(e) by {
        assert forall i :: 0 <= i < |args| ==> (ViewOf(rules, args[i]).constant.Some? <==> ViewOf(rules, e.args[i]).constant.Some?);
      }
      if ColumnFree(e) { assert args == e.args; }
    }
  }

  /** What binds in a nested query to columns of one enclosing query alone binds there, to the same
      columns. */
  lemma {:induction false} BindLowered(rules: Rules, nested: Scope, owner: Scope, n: nat, e: Syn)
    requires OwnedBy(nested, owner, n) && !HoldsCall(e) && !HoldsQuery(e) && Bind(rules, nested, e).Some?
    requires QueryFree(Bind(rules, nested, e).value) && Reads(Bind(rules, nested, e).value, 0, AtDepth(n))
    ensures Bind(rules, owner, e) == Some(Rename(Bind(rules, nested, e).value, 0, Lower(n)))
    decreases e
  {
    match e
    case Nested(inner) => BindLowered(rules, nested, owner, n, inner);
    case Plus(inner) => BindLowered(rules, nested, owner, n, inner);
    case Ref(name) =>
      var c := Resolve(nested, name).value;
      assert AtLevel(c, 0) == c && Under(Lower(n)(c), 0) == Lower(n)(c);
    case Node(form, kids) => NodeLowered(rules, nested, owner, n, e);
    case _ =>
  }

  lemma {:induction false} NodeLowered(rules: Rules, nested: Scope, owner: Scope, n: nat, e: Syn)
    requires OwnedBy(nested, owner, n) && e.Node? && !HoldsCall(e) && !HoldsQuery(e) && Bind(rules, nested, e).Some?
    requires QueryFree(Bind(rules, nested, e).value) && Reads(Bind(rules, nested, e).value, 0, AtDepth(n))
    ensures Bind(rules, owner, e) == Some(Rename(Bind(rules, nested, e).value, 0, Lower(n)))
    decreases e, 0
  {
    var bound := BindAll(rules, nested, e.kids).value;
    var t := NodeTemplate(rules, e.form, ViewsOf(rules, bound)).value;
    forall i | 0 <= i < |e.kids|
      ensures Bind(rules, owner, e.kids[i]) == Some(Rename(bound[i], 0, Lower(n))) && ViewOf(rules, Rename(bound[i], 0, Lower(n))) == ViewOf(rules, bound[i])
    {
      FillParts(t, bound, AtDepth(n), i);
      BindLowered(rules, nested, owner, n, e.kids[i]);
      RenamedIsSeen(rules, bound[i], Lower(n));
    }
    var lowered := RenameAll(bound, 0, Lower(n));
    assert BindAll(rules, owner, e.kids).value == lowered;
    assert ViewsOf(rules, lowered) == ViewsOf(rules, bound);
    FillRenamed(t, bound, Lower(n));
  }

  lemma {:induction false} BoundQueryFree(rules: Rules, scope: Scope, e: Syn)
    requires !HoldsCall(e) && !HoldsQuery(e) && Bind(rules, scope, e).Some?
    ensures QueryFree(Bind(rules, scope, e).value)
  {
    match e
    case Nested(inner) => BoundQueryFree(rules, scope, inner);
    case Plus(inner) => BoundQueryFree(rules, scope, inner);
    case Node(form, kids) =>
      var bound := BindAll(rules, scope, kids).value;
      forall i | 0 <= i < |kids| ensures QueryFree(bound[i]) { BoundQueryFree(rules, scope, kids[i]); }
      FillQueryFree(NodeTemplate(rules, form, ViewsOf(rules, bound)).value, bound);
    case _ =>
  }

  lemma {:induction false} FillQueryFree(t: Template, kids: seq<Expr>)
    requires TemplateOk(t, |kids|) && forall i :: 0 <= i < |kids| ==> QueryFree(kids[i])
    ensures QueryFree(Fill(t, kids))
  {
    if t.Build? {
      forall k | 0 <= k < |t.args| ensures QueryFree(FillAll(t.args, kids)[k]) { FillQueryFree(t.args[k], kids); }
    }
  }

  /** The argument of a call that belongs to the query `n` up. */
  lemma OuterArgument(rules: Rules, nested: Scope, e: Syn, n: nat)
    requires e.Call? && CallLevel(rules, nested, e) == OuterBy(n) && BindCall(rules, nested, e).Some?
    ensures !e.head.star && |e.args| == 1 && !HoldsCall(e.args[0]) && !HoldsQuery(e.args[0]) && n > 0
    ensures var arg := BindCall(rules, nested, e).value.0.arg;
            Bind(rules, nested, e.args[0]) == Some(arg) && QueryFree(arg) && Reads(arg, 0, AtDepth(n))
  {
    var args := BindAll(rules, nested, e.args).value;
    BoundQueryFree(rules, nested, e.args[0]);
    assert args == [args[0]] && DepthsAll(args) == Depths(args[0]) + DepthsAll(args[1..]) == Depths(args[0]);
    DepthsRead(args[0], n);
  }

  /** The entry the owner makes of a call handed over. */
  lemma EntryIsLowered(rules: Rules, nested: Scope, owner: Scope, e: Syn, n: nat)
    requires OwnedBy(nested, owner, n) && e.Call? && CallLevel(rules, nested, e) == OuterBy(n) && BindCall(rules, nested, e).Some?
    ensures var (call, ty) := BindCall(rules, nested, e).value;
            BindCall(rules, owner, e) == Some((AggCall(call.head, Rename(call.arg, 0, Lower(n))), ty))
            && CallLevel(rules, owner, e) == Own && Reads(call.arg, 0, AtDepth(n))
    ensures OwnCall(rules, BindCall(rules, owner, e).value.0, BindCall(rules, owner, e).value.1)
  {
    OuterArgument(rules, nested, e, n);
    var call := BindCall(rules, nested, e).value.0;
    BindLowered(rules, nested, owner, n, e.args[0]);
    var lowered := Rename(call.arg, 0, Lower(n));
    assert BindAll(rules, owner, e.args).value == [lowered];
    assert lowered.ty == call.arg.ty;
    LoweredIsOwn(call.arg, n);
    OwnLevel(lowered);
    BoundCallIsOwn(rules, owner, e);
  }

  /** The entry the owner makes of a call handed over is that call: it binds there as an aggregate of
      that query, of the same type, and on every row of that query its argument is what the nested
      query read in the written one. */
  lemma HandedCallIsItsEntry(sem: Sem, rules: Rules, nested: Scope, owner: Scope, e: Syn, inner: Env, outer: Env)
    requires OwnedBy(nested, owner, |inner|) && e.Call? && CallLevel(rules, nested, e) == OuterBy(|inner|)
    requires BindCall(rules, nested, e).Some?
    ensures var (call, ty) := BindCall(rules, nested, e).value;
            CallLevel(rules, owner, e) == Own && BindCall(rules, owner, e).Some?
            && var (entry, type_) := BindCall(rules, owner, e).value;
               entry.head == call.head && type_ == ty && OwnCall(rules, entry, type_)
               && forall row :: Eval(sem, call.arg, inner + ([Plain(row)] + outer)) == Eval(sem, entry.arg, [Plain(row)] + outer)
  {
    EntryIsLowered(rules, nested, owner, e, |inner|);
    var call := BindCall(rules, nested, e).value.0;
    var lowered := Rename(call.arg, 0, Lower(|inner|));
    forall row ensures Eval(sem, call.arg, inner + ([Plain(row)] + outer)) == Eval(sem, lowered, [Plain(row)] + outer) {
      LoweredEval(sem, call.arg, inner, [Plain(row)] + outer);
    }
  }

  lemma LoweredIsOwn(e: Expr, n: nat)
    requires QueryFree(e) && Reads(e, 0, AtDepth(n))
    ensures QueryFree(Rename(e, 0, Lower(n))) && Reads(Rename(e, 0, Lower(n)), 0, IsOwn)
  {
    RenameReads(e, 0, AtDepth(n), Lower(n), IsOwn);
    RenamedQueryFree(e, Lower(n));
  }

  lemma {:induction false} RenamedQueryFree(e: Expr, g: Renaming)
    requires QueryFree(e)
    ensures QueryFree(Rename(e, 0, g))
  {
    if e.Op? {
      forall i | 0 <= i < |e.args| ensures QueryFree(RenameAll(e.args, 0, g)[i]) { RenamedQueryFree(e.args[i], g); }
    }
  }

  lemma {:induction false} OwnDepthsBack(e: Expr, i: nat)
    requires QueryFree(e) && Reads(e, 0, IsOwn) && i < |Depths(e)|
    ensures Depths(e)[i] == 0
    decreases e, 0
  {
    if e.Op? { AllOwnDepthsBack(e.args, i); } else { assert AtLevel(e.col, 0) == e.col; }
  }

  lemma {:induction false} AllOwnDepthsBack(es: seq<Expr>, i: nat)
    requires (forall k :: 0 <= k < |es| ==> QueryFree(es[k]) && Reads(es[k], 0, IsOwn)) && i < |DepthsAll(es)|
    ensures DepthsAll(es)[i] == 0
    decreases es, 0
  {
    if i < |Depths(es[0])| { OwnDepthsBack(es[0], i); } else { AllOwnDepthsBack(es[1..], i - |Depths(es[0])|); }
  }

  lemma OwnLevel(e: Expr)
    requires QueryFree(e) && Reads(e, 0, IsOwn)
    ensures LevelOf(DepthsAll([e])) == Own
  {
    forall i | 0 <= i < |DepthsAll([e])| ensures DepthsAll([e])[i] == 0 { AllOwnDepthsBack([e], i); }
  }

  lemma LoweredEval(sem: Sem, e: Expr, inner: Env, env: Env)
    requires Reads(e, 0, AtDepth(|inner|))
    ensures Eval(sem, e, inner + env) == Eval(sem, Rename(e, 0, Lower(|inner|)), env)
  {
    var n := |inner|;
    forall c | AtDepth(n)(c) ensures Lookup(inner + env, c) == Lookup(env, Lower(n)(c)) {
      if |env| > 0 { assert (inner + env)[n] == env[0]; }
    }
    RenameEval(sem, e, 0, AtDepth(n), Lower(n), [], inner + env, env);
    assert [] + (inner + env) == inner + env && [] + env == env;
  }

  /** Whatever nested queries handed them over, the entries of the calls are aggregates of their
      query: what the theorems on a clause ask of the aggregates handed to it. */
  lemma EntriesAreOwn(sem: Sem, rules: Rules, owner: Scope, written: Syn, calls: seq<Syn>, nested: seq<Scope>, levels: seq<nat>)
    requires |calls| == |nested| == |levels|
    requires forall i :: 0 <= i < |calls| ==>
               OwnedBy(nested[i], owner, levels[i]) && calls[i].Call? && CallLevel(rules, nested[i], calls[i]) == OuterBy(levels[i])
               && BindCall(rules, nested[i], calls[i]).Some?
    ensures HandedOwn(rules, Clause(written, Entries(rules, owner, calls)))
    ensures forall i :: 0 <= i < |calls| ==> Entries(rules, owner, calls)[i].Some?
  {
    forall i | 0 <= i < |calls|
      ensures var entry := BindCall(rules, owner, calls[i]); entry.Some? && OwnCall(rules, entry.value.0, entry.value.1)
    {
      var inner: Env := seq(levels[i], _ => Plain([]));
      HandedCallIsItsEntry(sem, rules, nested[i], owner, calls[i], inner, []);
    }
  }

  // ----- from the text of the nested query to the row of the `Aggregate` -----

  /** The value of an aggregate a nested query writes: its argument as the nested query reads it, on
      each row of the group. */
  function WrittenValue(sem: Sem, call: AggCall, group: seq<Row>, inner: Env, outer: Env): Outcome {
    ApplyCall(sem, call.head, seq(|group|, k requires 0 <= k < |group| => Eval(sem, call.arg, inner + ([Plain(group[k])] + outer))))
  }

  lemma EntryHasWrittenValue(sem: Sem, rules: Rules, nested: Scope, owner: Scope, e: Syn, group: seq<Row>, inner: Env, outer: Env)
    requires OwnedBy(nested, owner, |inner|) && e.Call? && CallLevel(rules, nested, e) == OuterBy(|inner|)
    requires BindCall(rules, nested, e).Some?
    ensures BindCall(rules, owner, e).Some?
    ensures CallValue(sem, BindCall(rules, owner, e).value.0, group, outer)
         == WrittenValue(sem, BindCall(rules, nested, e).value.0, group, inner, outer)
  {
    HandedCallIsItsEntry(sem, rules, nested, owner, e, inner, outer);
    var call, entry := BindCall(rules, nested, e).value.0, BindCall(rules, owner, e).value.0;
    assert ArgumentOver(sem, entry.arg, group, outer)
        == seq(|group|, k requires 0 <= k < |group| => Eval(sem, call.arg, inner + ([Plain(group[k])] + outer)));
  }

  /** In the frame of a group, what the nested query binds the call to reads that value. */
  lemma ReferenceReadsHanded(s: Setting, nested: Scope, e: Syn, inner: Env)
    requires e.Call? && CallLevel(s.rules, nested, e) == OuterBy(|inner|) && BindCall(s.rules, nested, e).Some? && e.at < |s.handed|
    ensures Bind(s.rules, nested, e).Some? && Eval(s.sem, Bind(s.rules, nested, e).value, inner + s.Env()) == s.handed[e.at]
  {
    assert (inner + s.Env())[|inner|] == s.Env()[0];
  }

  /** An aggregate over the columns of an enclosing query, whole: the call of a nested query, handed
      over, bound by the query it belongs to, made a column of its `Aggregate` and read back in the
      nested query, is the aggregate that was written over the rows of the group. The names are
      those of the chain of queries, the nested query being `|inner|` levels in. */
  lemma NestedAggregateMeans(s: Setting, levels: seq<seq<Scopes.Source>>, texts: set<string>,
                             reading: string -> (Option<Scopes.Qualifier>, string), calls: seq<Syn>, i: nat,
                             inner: Env, g: Grouping, r: Resolution)
    requires |inner| < |levels| && (|inner| < 255 || |levels| <= 256)
    requires s.Fits() && s.scope == ScopeFrom(levels[|inner|..], texts, reading)
    requires i < |calls| && (forall k :: 0 <= k < |calls| ==> calls[k].Call?) && calls[i].at == i
    requires var nested := ScopeFrom(levels, texts, reading);
             CallLevel(s.rules, nested, calls[i]) == OuterBy(|inner|) && BindCall(s.rules, nested, calls[i]).Some?
    requires r.handed == Entries(s.rules, s.scope, calls) && Resolves(s, r) && Ready(s.rules, g, r) && Sound(s.rules, s.grouping)
    requires var b := Bind(s.rules, ScopeFrom(levels, texts, reading), calls[i]);
             b.Some? && var o := ResolveExpr(b.value, |inner|, g, r); o.Ok? ==> Later(o.grouping, s.grouping)
    ensures var nested := ScopeFrom(levels, texts, reading);
            var o := ResolveExpr(Bind(s.rules, nested, calls[i]).value, |inner|, g, r);
            o.Ok? && Eval(s.sem, o.value, inner + ([Plain(s.slots)] + s.outer))
                     == WrittenValue(s.sem, BindCall(s.rules, nested, calls[i]).value.0, s.group, inner, s.outer)
  {
    var nested, e := ScopeFrom(levels, texts, reading), calls[i];
    NestedNamesAreOwned(levels, |inner|, texts, reading);
    EntryHasWrittenValue(s.sem, s.rules, nested, s.scope, e, s.group, inner, s.outer);
    ReferenceReadsHanded(s, nested, e, inner);
    ResolvedReference(s, Bind(s.rules, nested, e).value, i, inner, g, r);
  }

  /** A reference to an aggregate handed over resolves to its column. */
  lemma ResolvedReference(s: Setting, e: Expr, at: nat, inner: Env, g: Grouping, r: Resolution)
    requires s.Fits() && e.ColumnRef? && e.col.column.Handed? && e.col.index == at && e.col.depth == |inner|
    requires at < |r.handed| && r.handed[at].Some? && Resolves(s, r) && Ready(s.rules, g, r) && Sound(s.rules, s.grouping)
    requires var o := ResolveExpr(e, |inner|, g, r); o.Ok? ==> Later(o.grouping, s.grouping)
    ensures var o := ResolveExpr(e, |inner|, g, r);
            o.Ok? && Eval(s.sem, o.value, inner + ([Plain(s.slots)] + s.outer)) == Eval(s.sem, e, inner + s.Env())
  {
    var o := ResolveExpr(e, |inner|, g, r);
    ResolveIsRename(s.rules, e, |inner|, g, r, o.grouping, o.resolution);
    LaterTrans(g, o.grouping, s.grouping);
    StaysReady(s.rules, g, r, s.grouping);
    StaysReady(s.rules, o.grouping, o.resolution, s.grouping);
    ResolveMeans(s, e, inner, g, r);
  }
}
