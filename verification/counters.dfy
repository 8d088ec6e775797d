/** The counters of the binder: how deep an expression is being bound, how many `WHILE` statements
    are being bound around a statement, and whether jumps are left to the program. */
module Counters {
  import opened Options

  datatype Fault = Fault(number: nat, state: nat)

  /** An expression: a variable, or operands under a node that may answer an error of its own. */
  datatype Term = Variable(name: string) | Node(kids: seq<Term>, fault: Option<Fault>)

  datatype Condition = Condition(term: Term, isPredicate: bool)

  /** A variable name stands for the key it is found under. */
  datatype Item = Item(name: string, init: Option<Term>)

  /** A statement; a simple one has the expressions it binds and the answer of its own binding. The
      branches of an `IF` are its `THEN`, then its `ELSE` if it has one. */
  datatype Statement =
    | Simple(terms: seq<Term>, fault: Option<Fault>)
    | Declare(items: seq<Item>)
    | If(condition: Condition, branches: seq<Statement>)
    | While(condition: Condition, body: Statement)
    | Block(statements: seq<Statement>)
    | Break
    | Continue

  datatype BoundStatement =
    | BoundSimple
    | Declared(names: seq<string>)
    | BoundIf(branches: seq<BoundStatement>)
    | BoundWhile(body: BoundStatement)
    | BoundBlock(statements: seq<BoundStatement>)
    | BoundBreak
    | BoundContinue
    | Deferred(statement: Statement)

  datatype Result<T> = Ok(value: T) | Err(fault: Fault)

  const MAX_BIND_DEPTH := 830
  const STACK_LIMIT := Fault(8631, 1)

  // ----- what is answered -----

  /** The error binding an expression answers, `depth` levels down. */
  function TermFault(t: Term, scope: set<string>, depth: nat): Option<Fault>
    decreases t
  {
    if depth + 1 > MAX_BIND_DEPTH then Some(STACK_LIMIT)
    else
      match t
      case Variable(name) => if name in scope then None else Some(Fault(137, 2))
      case Node(kids, fault) => var first := TermsFault(kids, scope, depth + 1); if first.Some? then first else fault
  }

  /** The first error of several expressions. */
  function TermsFault(terms: seq<Term>, scope: set<string>, depth: nat): Option<Fault>
    decreases terms
  {
    if terms == [] then None
    else var first := TermFault(terms[0], scope, depth); if first.Some? then first else TermsFault(terms[1..], scope, depth)
  }

  function ConditionFault(c: Condition, scope: set<string>, depth: nat): Option<Fault> {
    var fault := TermFault(c.term, scope, depth);
    if fault.Some? then fault else if c.isPredicate then None else Some(Fault(4145, 1))
  }

  /** The names the items declare, after those of `before`. */
  function ItemsOf(items: seq<Item>, before: seq<string>, scope: set<string>, depth: nat): Result<seq<string>> {
    if items == [] then Ok(before)
    else if items[0].name in scope || items[0].name in before then Err(Fault(134, 1))
    else
      var fault := if items[0].init.Some? then TermFault(items[0].init.value, scope, depth) else None;
      if fault.Some? then Err(fault.value) else ItemsOf(items[1..], before + [items[0].name], scope, depth)
  }

  /** `BOUND_WHEN_REACHED`: the errors a nested statement waits with until it is reached. */
  predicate BoundWhenReached(f: Fault) {
    f.number == 208 || f.number == 1088 || f.number == 4902
    || f == Fault(2705, 4) || f == Fault(2714, 5) || f == Fault(2714, 6)
  }

  /** The names a bound statement declares, in written order; a deferred one declares none. */
  function Held(b: BoundStatement): seq<string>
    decreases b
  {
    match b
    case Declared(names) => names
    case BoundIf(branches) => HeldByAll(branches)
    case BoundWhile(body) => Held(body)
    case BoundBlock(statements) => HeldByAll(statements)
    case _ => []
  }

  function HeldByAll(bs: seq<BoundStatement>): seq<string>
    decreases bs
  {
    if bs == [] then [] else Held(bs[0]) + HeldByAll(bs[1..])
  }

  /** Names entered one by one; `None` at one already there. */
  function Entered(names: seq<string>, earlier: set<string>): Option<set<string>> {
    if names == [] then Some(earlier)
    else if names[0] in earlier then None
    else Entered(names[1..], earlier + {names[0]})
  }

  /** What a statement is bound against: the variables in scope, whether a `WHILE` is being bound
      around it, whether jumps are left to the program, and the depth. */
  datatype Around = Around(scope: set<string>, inLoop: bool, jumpsLeft: bool, depth: nat)

  /** What binding a statement answers. */
  function BindOf(s: Statement, a: Around): Result<BoundStatement>
    decreases s, 1
  {
    match s
    case Simple(terms, fault) =>
      var first := TermsFault(terms, a.scope, a.depth);
      if first.Some? then Err(first.value) else if fault.Some? then Err(fault.value) else Ok(BoundSimple)
    case Declare(items) =>
      var names := ItemsOf(items, [], a.scope, a.depth);
      if names.Ok? then Ok(Declared(names.value)) else Err(names.fault)
    case If(condition, branches) =>
      var fault := ConditionFault(condition, a.scope, a.depth);
      if fault.Some? then Err(fault.value)
      else var bound := BindAll(branches, {}, a); if bound.Ok? then Ok(BoundIf(bound.value)) else Err(bound.fault)
    case While(condition, body) =>
      var fault := ConditionFault(condition, a.scope, a.depth);
      if fault.Some? then Err(fault.value)
      else var bound := NestedOf(body, a.(inLoop := true)); if bound.Ok? then Ok(BoundWhile(bound.value)) else Err(bound.fault)
    case Block(statements) =>
      var bound := BindAll(statements, {}, a);
      if bound.Ok? then Ok(BoundBlock(bound.value)) else Err(bound.fault)
    case Break => if a.jumpsLeft || a.inLoop then Ok(BoundBreak) else Err(Fault(135, 1))
    case Continue => if a.jumpsLeft || a.inLoop then Ok(BoundContinue) else Err(Fault(136, 1))
  }

  /** `bind_nested`. */
  function NestedOf(s: Statement, a: Around): Result<BoundStatement>
    decreases s, 2
  {
    var r := BindOf(s, a);
    if r.Err? && BoundWhenReached(r.fault) then Ok(Deferred(s)) else r
  }

  /** Statements bound in written order, each against what those before it declared, then `a`. */
  function BindAll(ss: seq<Statement>, earlier: set<string>, a: Around): Result<seq<BoundStatement>>
    decreases ss, 0
  {
    if ss == [] then Ok([])
    else
      var first := NestedOf(ss[0], a.(scope := a.scope + earlier));
      if first.Err? then Err(first.fault)
      else
        var entered := Entered(Held(first.value), earlier);
        if entered.None? then Err(Fault(134, 1))
        else
          var rest := BindAll(ss[1..], entered.value, a);
          if rest.Err? then rest else Ok([first.value] + rest.value)
  }

  // ----- the binder -----

  /** `DeclaredEarlier`, with the variables it has taken in. */
  class DeclaredEarlier {
    const outer: set<string>
    var earlier: set<string>

    constructor (outer: set<string>)
      ensures this.outer == outer && earlier == {}
    {
      this.outer, earlier := outer, {};
    }

    method DeclareNames(names: seq<string>) returns (ok: bool)
      modifies this
      ensures ok == Entered(names, old(earlier)).Some?
      ensures ok ==> earlier == Entered(names, old(earlier)).value
    {
      for i := 0 to |names|
        invariant Entered(names, old(earlier)) == Entered(names[i..], earlier)
      {
        if names[i] in earlier { return false; }
        earlier := earlier + {names[i]};
      }
      return true;
    }

    /** `BatchVariables::declare_held_by`. */
    method DeclareHeldBy(b: BoundStatement) returns (ok: bool)
      modifies this
      ensures ok == Entered(Held(b), old(earlier)).Some?
      ensures ok ==> earlier == Entered(Held(b), old(earlier)).value
      decreases b
    {
      match b
      case Declared(names) => ok := DeclareNames(names);
      case BoundIf(branches) => ok := DeclareHeldByAll(branches);
      case BoundWhile(body) => ok := DeclareHeldBy(body);
      case BoundBlock(statements) => ok := DeclareHeldByAll(statements);
      case _ => ok := true;
    }

    method DeclareHeldByAll(bs: seq<BoundStatement>) returns (ok: bool)
      modifies this
      ensures ok == Entered(HeldByAll(bs), old(earlier)).Some?
      ensures ok ==> earlier == Entered(HeldByAll(bs), old(earlier)).value
      decreases bs
    {
      for i := 0 to |bs|
        invariant Entered(HeldByAll(bs), old(earlier)) == Entered(HeldByAll(bs[i..]), earlier)
      {
        EnteredTogether(Held(bs[i]), HeldByAll(bs[i + 1..]), earlier);
        assert HeldByAll(bs[i..]) == Held(bs[i]) + HeldByAll(bs[i + 1..]);
        ok := DeclareHeldBy(bs[i]);
        if !ok { return; }
      }
      ok := true;
    }
  }

  lemma {:induction false} EnteredTogether(a: seq<string>, b: seq<string>, earlier: set<string>)
    ensures Entered(a + b, earlier)
         == (var first := Entered(a, earlier); if first.None? then None else Entered(b, first.value))
    decreases |a|
  {
    if a == [] {
      assert a + b == b;
    } else {
      assert (a + b)[1..] == a[1..] + b;
      if a[0] !in earlier { EnteredTogether(a[1..], b, earlier + {a[0]}); }
    }
  }

  /** A subtraction that stops at zero. */
  function OneLess(n: nat): nat {
    if n > 0 then n - 1 else 0
  }

  /** The state of the thread that binds. */
  class Binder {
    var depth: nat
    var whiles: nat
    var jumpsLeft: bool

    constructor ()
      ensures depth == 0 && whiles == 0 && !jumpsLeft
    {
      depth, whiles, jumpsLeft := 0, 0, false;
    }

    function Here(scope: set<string>): Around
      reads this
    {
      Around(scope, whiles > 0, jumpsLeft, depth)
    }

    /** `enter`. */
    method Enter() returns (ok: bool)
      modifies this`depth
      ensures ok <==> old(depth) + 1 <= MAX_BIND_DEPTH
      ensures depth == if ok then old(depth) + 1 else old(depth)
    {
      if depth + 1 > MAX_BIND_DEPTH { return false; }
      depth := depth + 1;
      return true;
    }

    /** Dropping the guard. */
    method Leave()
      modifies this`depth
      ensures depth == OneLess(old(depth))
    {
      depth := OneLess(depth);
    }

    /** `bind_expr`, its guard dropped on every way out. */
    method BindExpr(t: Term, scope: set<string>) returns (fault: Option<Fault>)
      modifies this`depth
      ensures depth == old(depth) && fault == TermFault(t, scope, depth)
      decreases t
    {
      var entered := Enter();
      if !entered { return Some(STACK_LIMIT); }
      match t
      case Variable(name) =>
        fault := if name in scope then None else Some(Fault(137, 2));
        Leave();
      case Node(kids, own) =>
        fault := BindTerms(kids, scope);
        if fault.None? { fault := own; }
        Leave();
    }

    method BindTerms(terms: seq<Term>, scope: set<string>) returns (fault: Option<Fault>)
      modifies this`depth
      ensures depth == old(depth) && fault == TermsFault(terms, scope, depth)
      decreases terms
    {
      for i := 0 to |terms|
        invariant depth == old(depth) && TermsFault(terms, scope, depth) == TermsFault(terms[i..], scope, depth)
      {
        fault := BindExpr(terms[i], scope);
        if fault.Some? { return; }
      }
      return None;
    }

    /** `bind_condition`. */
    method BindCondition(c: Condition, scope: set<string>) returns (fault: Option<Fault>)
      modifies this`depth
      ensures depth == old(depth) && fault == ConditionFault(c, scope, depth)
    {
      fault := BindExpr(c.term, scope);
      if fault.None? && !c.isPredicate { fault := Some(Fault(4145, 1)); }
    }

    /** `bind_declare`. */
    method BindDeclare(items: seq<Item>, scope: set<string>) returns (r: Result<seq<string>>)
      modifies this`depth
      ensures depth == old(depth) && r == ItemsOf(items, [], scope, depth)
    {
      var names: seq<string> := [];
      for i := 0 to |items|
        invariant depth == old(depth) && ItemsOf(items, [], scope, depth) == ItemsOf(items[i..], names, scope, depth)
      {
        if items[i].name in scope || items[i].name in names { return Err(Fault(134, 1)); }
        if items[i].init.Some? {
          var fault := BindExpr(items[i].init.value, scope);
          if fault.Some? { return Err(fault.value); }
        }
        names := names + [items[i].name];
      }
      return Ok(names);
    }

    /** `bind`, its control-of-flow arms. The counters and the flag come back as they were, on
        success and on every error. */
    method Bind(s: Statement, scope: set<string>) returns (r: Result<BoundStatement>)
      modifies this
      ensures depth == old(depth) && whiles == old(whiles) && jumpsLeft == old(jumpsLeft)
      ensures r == BindOf(s, Here(scope))
      decreases s, 1
    {
      match s
      case Simple(terms, fault) =>
        var first := BindTerms(terms, scope);
        r := if first.Some? then Err(first.value) else if fault.Some? then Err(fault.value) else Ok(BoundSimple);
      case Declare(items) =>
        var names := BindDeclare(items, scope);
        r := if names.Ok? then Ok(Declared(names.value)) else Err(names.fault);
      case If(condition, branches) =>
        var fault := BindCondition(condition, scope);
        if fault.Some? { return Err(fault.value); }
        var bound := BindEach(branches, scope);
        r := if bound.Ok? then Ok(BoundIf(bound.value)) else Err(bound.fault);
      case While(condition, body) =>
        var fault := BindCondition(condition, scope);
        if fault.Some? { return Err(fault.value); }
        whiles := whiles + 1;
        var bound := BindNested(body, scope);
        whiles := OneLess(whiles);
        r := if bound.Ok? then Ok(BoundWhile(bound.value)) else Err(bound.fault);
      case Block(statements) =>
        var bound := BindEach(statements, scope);
        r := if bound.Ok? then Ok(BoundBlock(bound.value)) else Err(bound.fault);
      case Break => r := if jumpsLeft || whiles > 0 then Ok(BoundBreak) else Err(Fault(135, 1));
      case Continue => r := if jumpsLeft || whiles > 0 then Ok(BoundContinue) else Err(Fault(136, 1));
    }

    /** `bind_nested`. */
    method BindNested(s: Statement, scope: set<string>) returns (r: Result<BoundStatement>)
      modifies this
      ensures depth == old(depth) && whiles == old(whiles) && jumpsLeft == old(jumpsLeft)
      ensures r == NestedOf(s, Here(scope))
      decreases s, 2
    {
      r := Bind(s, scope);
      if r.Err? && BoundWhenReached(r.fault) { r := Ok(Deferred(s)); }
    }

    /** The statements of an `IF` or of a block. */
    method BindEach(ss: seq<Statement>, scope: set<string>) returns (r: Result<seq<BoundStatement>>)
      modifies this
      ensures depth == old(depth) && whiles == old(whiles) && jumpsLeft == old(jumpsLeft)
      ensures r == BindAll(ss, {}, Here(scope))
      decreases ss, 0
    {
      var declared := new DeclaredEarlier(scope);
      var bound: seq<BoundStatement> := [];
      ghost var a := Here(scope);
      PrependNothing(BindAll(ss, {}, a));
      for i := 0 to |ss|
        invariant depth == old(depth) && whiles == old(whiles) && jumpsLeft == old(jumpsLeft)
        invariant declared.outer == scope && fresh(declared) && Here(scope) == a
        invariant BindAll(ss, {}, a) == Prepended(bound, BindAll(ss[i..], declared.earlier, a))
      {
        assert ss[i..][1..] == ss[i + 1..];
        var next := BindNested(ss[i], declared.outer + declared.earlier);
        if next.Err? { return Err(next.fault); }
        var ok := declared.DeclareHeldBy(next.value);
        if !ok { return Err(Fault(134, 1)); }
        PrependOne(bound, next.value, BindAll(ss[i + 1..], declared.earlier, a));
        bound := bound + [next.value];
      }
      assert bound + [] == bound;
      r := Ok(bound);
    }

    /** `DeferredStatement::bind`. */
    method BindDeferred(s: Statement, scope: set<string>) returns (r: Result<BoundStatement>)
      modifies this
      ensures depth == old(depth) && whiles == old(whiles) && jumpsLeft == old(jumpsLeft)
      ensures r == BindOf(s, Here(scope).(jumpsLeft := true))
    {
      var before := jumpsLeft;
      jumpsLeft := true;
      r := Bind(s, scope);
      jumpsLeft := before;
    }
  }

  function Prepended<T>(front: seq<T>, r: Result<seq<T>>): Result<seq<T>> {
    if r.Ok? then Ok(front + r.value) else r
  }

  lemma PrependNothing<T>(r: Result<seq<T>>)
    ensures Prepended([], r) == r
  {
    if r.Ok? { assert [] + r.value == r.value; }
  }

  lemma PrependOne<T>(front: seq<T>, next: T, r: Result<seq<T>>)
    ensures Prepended(front + [next], r) == Prepended(front, Prepended([next], r))
  {
    if r.Ok? { assert front + [next] + r.value == front + ([next] + r.value); }
  }

  // ----- the depth is exact -----

  function Max(a: nat, b: nat): nat {
    if a < b then b else a
  }

  function Height(t: Term): nat
    decreases t
  {
    1 + if t.Node? then HeightOfAll(t.kids) else 0
  }

  function HeightOfAll(ts: seq<Term>): nat
    decreases ts
  {
    if ts == [] then 0 else Max(Height(ts[0]), HeightOfAll(ts[1..]))
  }

  /** An expression with no error but, perhaps, its depth. */
  predicate Bindable(t: Term, scope: set<string>)
    decreases t
  {
    match t
    case Variable(name) => name in scope
    case Node(kids, fault) => fault.None? && forall i :: 0 <= i < |kids| ==> Bindable(kids[i], scope)
  }

  /** An expression that has no error of its own is refused exactly when it is higher than the levels
      left, and then for its depth. */
  lemma {:induction false} DepthIsExact(t: Term, scope: set<string>, depth: nat)
    requires Bindable(t, scope) && depth <= MAX_BIND_DEPTH
    ensures TermFault(t, scope, depth) == if Height(t) > MAX_BIND_DEPTH - depth then Some(STACK_LIMIT) else None
    decreases t
  {
    if t.Node? && depth < MAX_BIND_DEPTH { DepthOfAll(t.kids, scope, depth + 1); }
  }

  lemma {:induction false} DepthOfAll(ts: seq<Term>, scope: set<string>, depth: nat)
    requires (forall i :: 0 <= i < |ts| ==> Bindable(ts[i], scope)) && depth <= MAX_BIND_DEPTH
    ensures TermsFault(ts, scope, depth) == if HeightOfAll(ts) > MAX_BIND_DEPTH - depth then Some(STACK_LIMIT) else None
    decreases ts
  {
    if ts != [] {
      DepthIsExact(ts[0], scope, depth);
      DepthOfAll(ts[1..], scope, depth);
    }
  }

  // ----- jumps -----

  /** Every jump outside a deferred statement is under a `WHILE`, or `inLoop` says one is around. */
  predicate Enclosed(b: BoundStatement, inLoop: bool)
    decreases b
  {
    match b
    case BoundBreak => inLoop
    case BoundContinue => inLoop
    case BoundIf(branches) => forall i :: 0 <= i < |branches| ==> Enclosed(branches[i], inLoop)
    case BoundWhile(body) => Enclosed(body, true)
    case BoundBlock(statements) => forall i :: 0 <= i < |statements| ==> Enclosed(statements[i], inLoop)
    case _ => true
  }

  predicate AllEnclosed(bs: seq<BoundStatement>, inLoop: bool) {
    forall i :: 0 <= i < |bs| ==> Enclosed(bs[i], inLoop)
  }

  predicate JumpFault(f: Fault) {
    f == Fault(135, 1) || f == Fault(136, 1)
  }

  /** How an answer with the flag up and one with it down compare: the same tree when its jumps are
      enclosed, 135 or 136 when one is not; the same error, or a jump before it. */
  predicate Compared(up: Result<BoundStatement>, down: Result<BoundStatement>, inLoop: bool) {
    match up
    case Ok(b) => if Enclosed(b, inLoop) then down == up else down.Err? && JumpFault(down.fault)
    case Err(f) => down == up || (down.Err? && JumpFault(down.fault) && !BoundWhenReached(f))
  }

  predicate AllCompared(up: Result<seq<BoundStatement>>, down: Result<seq<BoundStatement>>, inLoop: bool) {
    match up
    case Ok(bs) => if AllEnclosed(bs, inLoop) then down == up else down.Err? && JumpFault(down.fault)
    case Err(f) => !BoundWhenReached(f) && (down == up || (down.Err? && JumpFault(down.fault)))
  }

  /** A statement that binds with its jumps left to the program binds without, and to the same tree,
      exactly when each of its jumps outside a deferred statement is under a `WHILE`; otherwise the
      answer is 135 or 136. */
  lemma {:induction false} JumpsAreExact(s: Statement, a: Around)
    ensures Compared(BindOf(s, a.(jumpsLeft := true)), BindOf(s, a.(jumpsLeft := false)), a.inLoop)
    decreases s, 1
  {
    match s {
      case If(condition, branches) => AllJumpsExact(branches, {}, a);
      case While(condition, body) => NestedJumpsExact(body, a.(inLoop := true), a);
      case Block(statements) => AllJumpsExact(statements, {}, a);
      case _ =>
    }
  }

  lemma {:induction false} NestedJumpsExact(s: Statement, a: Around, outer: Around)
    requires a == outer.(inLoop := a.inLoop, scope := a.scope)
    ensures var up := NestedOf(s, outer.(jumpsLeft := true, inLoop := a.inLoop, scope := a.scope));
            Compared(up, NestedOf(s, outer.(jumpsLeft := false, inLoop := a.inLoop, scope := a.scope)), a.inLoop)
            && (up.Err? ==> !BoundWhenReached(up.fault))
    decreases s, 2
  {
    JumpsAreExact(s, a);
  }

  lemma {:induction false} AllJumpsExact(ss: seq<Statement>, earlier: set<string>, a: Around)
    ensures AllCompared(BindAll(ss, earlier, a.(jumpsLeft := true)), BindAll(ss, earlier, a.(jumpsLeft := false)), a.inLoop)
    decreases ss, 0
  {
    if ss != [] {
      var here := a.(scope := a.scope + earlier);
      NestedJumpsExact(ss[0], here, a);
      var up := NestedOf(ss[0], here.(jumpsLeft := true));
      if up.Ok? && Entered(Held(up.value), earlier).Some? {
        AllJumpsExact(ss[1..], Entered(Held(up.value), earlier).value, a);
        var rest := BindAll(ss[1..], Entered(Held(up.value), earlier).value, a.(jumpsLeft := true));
        if rest.Ok? { EnclosedTogether(up.value, rest.value, a.inLoop); }
      }
    }
  }

  lemma EnclosedTogether(b: BoundStatement, rest: seq<BoundStatement>, inLoop: bool)
    ensures AllEnclosed([b] + rest, inLoop) <==> Enclosed(b, inLoop) && AllEnclosed(rest, inLoop)
  {
    assert ([b] + rest)[0] == b;
    assert forall i :: 0 <= i < |rest| ==> ([b] + rest)[i + 1] == rest[i];
  }

  /** In a tree bound with the counter at zero and the flag down, every jump outside a deferred
      statement is under a `WHILE`. */
  lemma BoundJumpsAreEnclosed(s: Statement, a: Around)
    requires !a.jumpsLeft && !a.inLoop && BindOf(s, a).Ok?
    ensures Enclosed(BindOf(s, a).value, false)
  {
    JumpsAreExact(s, a);
  }

  // ----- declarations -----

  predicate Distinct(names: seq<string>, scope: set<string>) {
    (forall i :: 0 <= i < |names| ==> names[i] !in scope)
    && forall i, j :: 0 <= i < j < |names| ==> names[i] != names[j]
  }

  function NameSet(names: seq<string>): set<string> {
    set i | 0 <= i < |names| :: names[i]
  }

  lemma {:induction false} DistinctEnter(names: seq<string>, earlier: set<string>)
    requires Distinct(names, earlier)
    ensures Entered(names, earlier) == Some(earlier + NameSet(names))
    decreases |names|
  {
    if names == [] {
      assert earlier + NameSet(names) == earlier;
    } else {
      forall i | 0 <= i < |names[1..]| ensures names[1..][i] !in earlier + {names[0]} {
        assert names[1..][i] == names[i + 1];
      }
      DistinctEnter(names[1..], earlier + {names[0]});
      assert earlier + {names[0]} + NameSet(names[1..]) == earlier + NameSet(names) by {
        assert forall x :: x in NameSet(names) <==> x == names[0] || x in NameSet(names[1..]) by { NamesOfOne(names); }
      }
    }
  }

  lemma NamesOfOne(names: seq<string>)
    requires names != []
    ensures forall x :: x in NameSet(names) <==> x == names[0] || x in NameSet(names[1..])
  {
    forall x | x in NameSet(names) ensures x == names[0] || x in NameSet(names[1..]) {
      var i :| 0 <= i < |names| && x == names[i];
      if i > 0 { assert names[1..][i - 1] == x; }
    }
  }

  lemma {:induction false} ItemsDistinct(items: seq<Item>, before: seq<string>, scope: set<string>, depth: nat)
    requires Distinct(before, scope) && ItemsOf(items, before, scope, depth).Ok?
    ensures Distinct(ItemsOf(items, before, scope, depth).value, scope)
    decreases |items|
  {
    if items != [] { ItemsDistinct(items[1..], before + [items[0].name], scope, depth); }
  }

  lemma DistinctTogether(a: seq<string>, b: seq<string>, scope: set<string>)
    requires Distinct(a, scope) && Distinct(b, scope + NameSet(a))
    ensures Distinct(a + b, scope)
  {
    forall i, j | 0 <= i < j < |a + b| ensures (a + b)[i] != (a + b)[j] {
      if i < |a| <= j { assert a[i] in NameSet(a) && b[j - |a|] !in NameSet(a); }
    }
  }

  /** The names a bound statement declares are new to the scope it was bound against and differ from
      each other, so taking them in afterwards cannot answer 134. */
  lemma {:induction false} DeclarationsAreNew(s: Statement, a: Around)
    requires BindOf(s, a).Ok?
    ensures Distinct(Held(BindOf(s, a).value), a.scope)
    ensures Entered(Held(BindOf(s, a).value), a.scope).Some?
    decreases s, 1
  {
    match s {
      case Declare(items) => ItemsDistinct(items, [], a.scope, a.depth);
      case If(condition, branches) => AllDeclarationsNew(branches, {}, a);
      case While(condition, body) => NestedDeclarationsNew(body, a.(inLoop := true));
      case Block(statements) => AllDeclarationsNew(statements, {}, a);
      case _ =>
    }
    DistinctEnter(Held(BindOf(s, a).value), a.scope);
  }

  lemma {:induction false} NestedDeclarationsNew(s: Statement, a: Around)
    requires NestedOf(s, a).Ok?
    ensures Distinct(Held(NestedOf(s, a).value), a.scope)
    decreases s, 2
  {
    if BindOf(s, a).Ok? { DeclarationsAreNew(s, a); }
  }

  lemma {:induction false} AllDeclarationsNew(ss: seq<Statement>, earlier: set<string>, a: Around)
    requires BindAll(ss, earlier, a).Ok?
    ensures Distinct(HeldByAll(BindAll(ss, earlier, a).value), a.scope + earlier)
    decreases ss, 0
  {
    if ss != [] {
      var here := a.(scope := a.scope + earlier);
      NestedDeclarationsNew(ss[0], here);
      var names := Held(NestedOf(ss[0], here).value);
      DistinctEnter(names, earlier);
      var entered := earlier + NameSet(names);
      AllDeclarationsNew(ss[1..], entered, a);
      var rest := BindAll(ss[1..], entered, a).value;
      assert a.scope + entered == a.scope + earlier + NameSet(names);
      DistinctTogether(names, HeldByAll(rest), a.scope + earlier);
      assert ([NestedOf(ss[0], here).value] + rest)[1..] == rest;
    }
  }

  /** 134 is answered by a `DECLARE` alone: the statements of a block bind, and are all taken in,
      whenever each binds against what those before it declared. */
  lemma TakingInNeverFails(s: Statement, earlier: set<string>, a: Around)
    requires NestedOf(s, a.(scope := a.scope + earlier)).Ok?
    ensures Entered(Held(NestedOf(s, a.(scope := a.scope + earlier)).value), earlier).Some?
  {
    NestedDeclarationsNew(s, a.(scope := a.scope + earlier));
    DistinctEnter(Held(NestedOf(s, a.(scope := a.scope + earlier)).value), earlier);
  }
}
