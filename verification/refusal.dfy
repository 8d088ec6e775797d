/** A column outside the keys is refused exactly: an expression is extracted if and only if each
    column written in it is under an aggregate or in a subexpression that is a key, and the
    refusal names the first one that is not, in written order. */
module Refusals {
  import opened Options
  import opened Bound
  import opened Syntax
  import opened Grouping
  import opened Slots
  import opened Extraction

  /** An aggregate call, or a subexpression that is a key. */
  predicate Covers(rules: Rules, scope: Scope, keys: seq<Expr>, e: Syn) {
    e.Call? || (Bind(rules, scope, e).Some? && KeyIndex(keys, Bind(rules, scope, e).value).Some?)
  }

  /** `path` leads from `e` to a column with nothing on the way, the column included, that is an
      aggregate or a key. */
  predicate Uncovered(rules: Rules, scope: Scope, keys: seq<Expr>, e: Syn, path: seq<nat>)
    decreases |path|
  {
    !Covers(rules, scope, keys, e)
    && if path == [] then e.Ref? else UncoveredIn(rules, scope, keys, Kids(e), path)
  }

  predicate UncoveredIn(rules: Rules, scope: Scope, keys: seq<Expr>, es: seq<Syn>, path: seq<nat>)
    decreases |path|, 0
  {
    path != [] && path[0] < |es| && Uncovered(rules, scope, keys, es[path[0]], path[1..])
  }

  /** The column `path` leads to. */
  function ColumnAt(scope: Scope, e: Syn, path: seq<nat>): Option<ColumnBinding>
    decreases |path|
  {
    if path == [] then if e.Ref? then Resolve(scope, e.name) else None
    else ColumnIn(scope, Kids(e), path)
  }

  function ColumnIn(scope: Scope, es: seq<Syn>, path: seq<nat>): Option<ColumnBinding>
    requires path != []
    decreases |path|, 0
  {
    if path[0] < |es| then ColumnAt(scope, es[path[0]], path[1..]) else None
  }

  /** Written order: the first place two paths part decides. */
  predicate Before(p: seq<nat>, q: seq<nat>) {
    p != [] && q != [] && (p[0] < q[0] || (p[0] == q[0] && Before(p[1..], q[1..])))
  }

  /** `path` leads to the first uncovered column, `c`. */
  ghost predicate First(rules: Rules, scope: Scope, keys: seq<Expr>, e: Syn, path: seq<nat>, c: ColumnBinding) {
    Uncovered(rules, scope, keys, e, path) && ColumnAt(scope, e, path) == Some(c)
    && forall q :: Uncovered(rules, scope, keys, e, q) && q != path ==> Before(path, q)
  }

  ghost predicate FirstIn(rules: Rules, scope: Scope, keys: seq<Expr>, es: seq<Syn>, path: seq<nat>, c: ColumnBinding) {
    UncoveredIn(rules, scope, keys, es, path) && ColumnIn(scope, es, path) == Some(c)
    && forall q :: UncoveredIn(rules, scope, keys, es, q) && q != path ==> Before(path, q)
  }

  /** The columns are those of this query, and so are the aggregates, none under another. */
  predicate OwnOnly(rules: Rules, scope: Scope, e: Syn) {
    match e
    case Ref(name) => Resolve(scope, name).Some? ==> Resolve(scope, name).value.depth == 0
    case Call(_, args, _) =>
      CallLevel(rules, scope, e) == Own && forall i :: 0 <= i < |args| ==> !HoldsCall(args[i])
    case Nested(inner) => OwnOnly(rules, scope, inner)
    case Plus(inner) => OwnOnly(rules, scope, inner)
    case Node(_, kids) => forall i :: 0 <= i < |kids| ==> OwnOnly(rules, scope, kids[i])
    case Query(_, tested, _, _) => forall i :: 0 <= i < |tested| ==> OwnOnly(rules, scope, tested[i])
    case _ => true
  }

  // ----- what binds -----

  lemma {:induction false} BindsWhole(rules: Rules, scope: Scope, e: Syn)
    requires ViewSyn(rules, scope, e).Some? && !HoldsCall(e)
    ensures Bind(rules, scope, e).Some? && ViewSyn(rules, scope, e) == Some(ViewOf(rules, Bind(rules, scope, e).value))
  {
    match e
    case Nested(inner) => BindsWhole(rules, scope, inner);
    case Plus(inner) => BindsWhole(rules, scope, inner);
    case Node(_, kids) =>
      forall i | 0 <= i < |kids|
        ensures Bind(rules, scope, kids[i]).Some? && ViewSyn(rules, scope, kids[i]) == Some(ViewOf(rules, Bind(rules, scope, kids[i]).value))
      {
        BindsWhole(rules, scope, kids[i]);
      }
      var bound := BindAll(rules, scope, kids).value;
      assert ViewSyns(rules, scope, kids).value == ViewsOf(rules, bound);
      NodeViewIs(rules, NodeTemplate(rules, e.form, ViewsOf(rules, bound)).value, bound);
    case Query(_, tested, _, _) =>
      forall i | 0 <= i < |tested| ensures Bind(rules, scope, tested[i]).Some? { BindsWhole(rules, scope, tested[i]); }
    case _ =>
  }

  lemma {:induction false} OwnCallsDoNotBind(rules: Rules, scope: Scope, e: Syn)
    requires OwnOnly(rules, scope, e) && HoldsCall(e)
    ensures Bind(rules, scope, e).None?
  {
    match e
    case Nested(inner) => OwnCallsDoNotBind(rules, scope, inner);
    case Plus(inner) => OwnCallsDoNotBind(rules, scope, inner);
    case Node(_, kids) =>
      var i :| 0 <= i < |kids| && HoldsCall(kids[i]);
      OwnCallsDoNotBind(rules, scope, kids[i]);
    case Query(_, tested, _, _) =>
      var i :| 0 <= i < |tested| && HoldsCall(tested[i]);
      OwnCallsDoNotBind(rules, scope, tested[i]);
    case Call(_, _, _) =>
  }

  /** What holds an aggregate or a nested query is no key. */
  lemma NotAKey(rules: Rules, scope: Scope, keys: seq<Expr>, e: Syn)
    requires OwnOnly(rules, scope, e) && !e.Call? && (HoldsCall(e) || HoldsQuery(e))
    ensures !Covers(rules, scope, keys, e)
  {
    if HoldsCall(e) {
      OwnCallsDoNotBind(rules, scope, e);
    } else if Bind(rules, scope, e).Some? {
      var bound := Bind(rules, scope, e).value;
      BindKeepsQueries(rules, scope, e);
      var k := KeyIndex(keys, bound);
      if k.Some? { SameIsQueryFree(keys[k.value], bound); }
    }
  }

  /** A bare column in parentheses or after a `+` is refused as the column itself. */
  lemma {:induction false} BareRefused(rules: Rules, scope: Scope, e: Syn, g: Grouping, c: ColumnBinding)
    requires !HoldsCall(e) && !HoldsQuery(e) && OwnOnly(rules, scope, e)
    requires Bind(rules, scope, e).Some? && Bind(rules, scope, e).value.ColumnRef? && Bind(rules, scope, e).value.col == c
    requires KeyIndex(g.keys, Bind(rules, scope, e).value).None?
    ensures c.depth == 0 && Rewrite(rules, scope, e, g) == Refused(Outside(c))
  {
    if e.Nested? || e.Plus? { BareRefused(rules, scope, e.inner, g, c); }
  }

  // ----- the theorem -----

  /** What a refusal, or an acceptance, of `e` says. */
  ghost predicate Exact<T(!new)>(rules: Rules, scope: Scope, keys: seq<Expr>, e: Syn, r: Extracted<T>) {
    if r.Done? then forall path :: !Uncovered(rules, scope, keys, e, path)
    else exists path, c :: First(rules, scope, keys, e, path, c) && r.why == Outside(c)
  }

  ghost predicate ExactIn<T(!new)>(rules: Rules, scope: Scope, keys: seq<Expr>, es: seq<Syn>, r: Extracted<T>) {
    if r.Done? then forall path :: !UncoveredIn(rules, scope, keys, es, path)
    else exists path, c :: FirstIn(rules, scope, keys, es, path, c) && r.why == Outside(c)
  }

  /** A node that is no aggregate and no key is exact when its children are. */
  lemma ThroughKids<T(!new), U(!new)>(rules: Rules, scope: Scope, keys: seq<Expr>, e: Syn, inner: Extracted<T>, r: Extracted<U>)
    requires !Covers(rules, scope, keys, e) && !e.Ref? && ExactIn(rules, scope, keys, Kids(e), inner)
    requires r.Done? == inner.Done? && (r.Refused? ==> r.why == inner.why)
    ensures Exact(rules, scope, keys, e, r)
  {
    if r.Refused? {
      var path, c :| FirstIn(rules, scope, keys, Kids(e), path, c) && inner.why == Outside(c);
      assert First(rules, scope, keys, e, path, c);
    }
  }

  /** One child. */
  lemma OneKid<T(!new), U(!new)>(rules: Rules, scope: Scope, keys: seq<Expr>, kid: Syn, inner: Extracted<T>, r: Extracted<U>)
    requires Exact(rules, scope, keys, kid, inner)
    requires r.Done? == inner.Done? && (r.Refused? ==> r.why == inner.why)
    ensures ExactIn(rules, scope, keys, [kid], r)
  {
    if r.Refused? {
      var path, c :| First(rules, scope, keys, kid, path, c) && inner.why == Outside(c);
      assert FirstIn(rules, scope, keys, [kid], [0] + path, c) by {
        assert ([0] + path)[1..] == path;
        forall q | UncoveredIn(rules, scope, keys, [kid], q) && q != [0] + path ensures Before([0] + path, q) {
          assert q == [0] + q[1..];
          assert Uncovered(rules, scope, keys, kid, q[1..]);
        }
      }
    }
  }

  /** The refusal is exact. For an expression that binds, whose columns and aggregates are those
      of this query and that nests no aggregate: it is extracted if and only if no column of it
      is uncovered, and a refusal names the first that is. */
  lemma {:induction false} RefusalIsExact(rules: Rules, scope: Scope, e: Syn, g: Grouping)
    requires Sound(rules, g) && ViewSyn(rules, scope, e).Some? && OwnOnly(rules, scope, e)
    ensures Exact(rules, scope, g.keys, e, Rewrite(rules, scope, e, g))
    decreases e, 1
  {
    var r := Rewrite(rules, scope, e, g);
    if e.Nested? {
      RefusalIsExact(rules, scope, e.inner, g);
      OneKid(rules, scope, g.keys, e.inner, Rewrite(rules, scope, e.inner, g), r);
      if !Covers(rules, scope, g.keys, e) { ThroughKids(rules, scope, g.keys, e, r, r); }
    } else if e.Lit? || e.Var? {
      assert Kids(e) == [];
    } else if e.Ref? {
      if r.Refused? { assert First(rules, scope, g.keys, e, [], r.why.col); }
    } else if !e.Call? {
      if HoldsCall(e) || HoldsQuery(e) {
        NotAKey(rules, scope, g.keys, e);
        ChildrenExact(rules, scope, e, g);
        ThroughKids(rules, scope, g.keys, e, RewriteChildren(rules, scope, e, g), r);
      } else {
        BindsWhole(rules, scope, e);
        if !Covers(rules, scope, g.keys, e) {
          ChildrenExact(rules, scope, e, g);
          var bound := Bind(rules, scope, e).value;
          if bound.ColumnRef? { BareRefused(rules, scope, e.inner, g, bound.col); }
          ThroughKids(rules, scope, g.keys, e, RewriteChildren(rules, scope, e, g), r);
        }
      }
    }
  }

  lemma {:induction false} ChildrenExact(rules: Rules, scope: Scope, e: Syn, g: Grouping)
    requires Sound(rules, g) && ViewSyn(rules, scope, e).Some? && OwnOnly(rules, scope, e) && (e.Plus? || e.Node? || e.Query?)
    ensures ExactIn(rules, scope, g.keys, Kids(e), RewriteChildren(rules, scope, e, g))
    decreases e, 0
  {
    match e
    case Plus(inner) =>
      RefusalIsExact(rules, scope, inner, g);
      OneKid(rules, scope, g.keys, inner, Rewrite(rules, scope, inner, g), RewriteChildren(rules, scope, e, g));
    case Node(_, kids) => AllExact(rules, scope, kids, g);
    case Query(_, tested, _, _) => AllExact(rules, scope, tested, g);
  }

  /** A path through the tail of a list, from the list. */
  function Next(path: seq<nat>): seq<nat>
    requires path != []
  {
    [path[0] + 1] + path[1..]
  }

  lemma NextIn(rules: Rules, scope: Scope, keys: seq<Expr>, es: seq<Syn>, path: seq<nat>)
    requires es != [] && path != []
    ensures UncoveredIn(rules, scope, keys, es, Next(path)) == UncoveredIn(rules, scope, keys, es[1..], path)
    ensures ColumnIn(scope, es, Next(path)) == ColumnIn(scope, es[1..], path)
  {
    assert Next(path)[1..] == path[1..];
  }

  lemma {:induction false} AllExact(rules: Rules, scope: Scope, es: seq<Syn>, g: Grouping)
    requires Sound(rules, g)
    requires forall i :: 0 <= i < |es| ==> ViewSyn(rules, scope, es[i]).Some? && OwnOnly(rules, scope, es[i])
    ensures ExactIn(rules, scope, g.keys, es, RewriteAll(rules, scope, es, g))
    decreases es, 0
  {
    if es != [] {
      RefusalIsExact(rules, scope, es[0], g);
      RewriteGrows(rules, scope, es[0], g);
      var head := Rewrite(rules, scope, es[0], g);
      if head.Done? {
        AllExact(rules, scope, es[1..], head.grouping);
        TailExact(rules, scope, g.keys, es, RewriteAll(rules, scope, es[1..], head.grouping), RewriteAll(rules, scope, es, g));
      } else {
        HeadExact(rules, scope, g.keys, es, head, RewriteAll(rules, scope, es, g));
      }
    }
  }

  lemma HeadExact<T(!new), U(!new)>(rules: Rules, scope: Scope, keys: seq<Expr>, es: seq<Syn>, head: Extracted<T>, r: Extracted<U>)
    requires es != [] && head.Refused? && r.Refused? && r.why == head.why && Exact(rules, scope, keys, es[0], head)
    ensures ExactIn(rules, scope, keys, es, r)
  {
    var path, c :| First(rules, scope, keys, es[0], path, c) && head.why == Outside(c);
    var found := [0] + path;
    assert found[1..] == path;
    forall q | UncoveredIn(rules, scope, keys, es, q) && q != found ensures Before(found, q) {
      if q[0] == 0 { assert q == [0] + q[1..]; }
    }
    assert FirstIn(rules, scope, keys, es, found, c);
  }

  lemma TailExact<T(!new), U(!new)>(rules: Rules, scope: Scope, keys: seq<Expr>, es: seq<Syn>, tail: Extracted<T>, r: Extracted<U>)
    requires es != [] && (forall path :: !Uncovered(rules, scope, keys, es[0], path))
    requires ExactIn(rules, scope, keys, es[1..], tail) && r.Done? == tail.Done? && (r.Refused? ==> r.why == tail.why)
    ensures ExactIn(rules, scope, keys, es, r)
  {
    forall q | UncoveredIn(rules, scope, keys, es, q)
      ensures q[0] > 0 && UncoveredIn(rules, scope, keys, es[1..], [q[0] - 1] + q[1..]) && q == Next([q[0] - 1] + q[1..])
    {
      assert !Uncovered(rules, scope, keys, es[0], q[1..]);
      NextIn(rules, scope, keys, es, [q[0] - 1] + q[1..]);
    }
    if r.Refused? {
      var path, c :| FirstIn(rules, scope, keys, es[1..], path, c) && tail.why == Outside(c);
      NextIn(rules, scope, keys, es, path);
      assert FirstIn(rules, scope, keys, es, Next(path), c);
    }
  }
}
