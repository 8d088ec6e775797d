/** The keys of an `ORDER BY`: what each designates, when two are one column, and what a
    `SELECT DISTINCT` asks of them. */
module OrderBy {
  import opened Options
  import opened SqlTypes
  import opened Bound
  import opened Relational
  import opened Evaluator
  import opened Syntax
  import opened Worklists
  import opened SortStack

  /** An item of the clause; `bare` is the name when it is one written without a qualifier. */
  datatype OrderItem = OrderItem(written: Syn, bare: Option<string>, desc: bool, collate: Option<nat>)

  datatype OrderError = OutOfRange(ordinal: int) | Ambiguous | Unbound | NotAString | ConstantKey(position: nat) | Twice | NotSelected

  datatype Result<T> = Good(value: T) | Bad(error: OrderError)

  // ----- a position -----

  const MAX_BIGINT: int := 9223372036854775807
  const MAX_INT: int := 2147483647

  predicate IsMinus(e: Syn) {
    e.Node? && e.form == UnaryForm("-") && |e.kids| == 1
  }

  /** The integer a literal is, under its signs and its parentheses. */
  function SignedLiteral(e: Syn): Option<int> {
    match e
    case Lit(Integral(i), _) => if 0 <= i <= MAX_BIGINT then Some(i) else None
    case Nested(inner) => SignedLiteral(inner)
    case Plus(inner) => SignedLiteral(inner)
    case Node(form, kids) =>
      if form == UnaryForm("-") && |kids| == 1 then
        match SignedLiteral(kids[0])
        case None => None
        case Some(i) => Some(-i)
      else None
    case _ => None
  }

  function Signed(sign: int, i: Option<int>): Option<int> {
    match i
    case None => None
    case Some(x) => Some(sign * x)
  }

  /** `signed_integer_literal`: a sign carried down a loop. */
  method SignedIntegerLiteral(written: Syn) returns (value: Option<int>)
    ensures value == SignedLiteral(written)
  {
    var sign, node := 1, written;
    while true
      invariant sign == 1 || sign == -1
      invariant SignedLiteral(written) == Signed(sign, SignedLiteral(node))
      decreases node
    {
      if node.Lit? {
        if node.value.Integral? && 0 <= node.value.i <= MAX_BIGINT { return Some(sign * node.value.i); }
        return None;
      } else if node.Nested? || node.Plus? {
        node := node.inner;
      } else if IsMinus(node) {
        sign, node := -sign, node.kids[0];
      } else {
        return None;
      }
    }
  }

  /** `ordinal_of`: the position an item is written as, when an `int` holds it. */
  function OrdinalOf(e: Syn): Option<int> {
    if !(e.Lit? || e.Nested? || e.Plus? || IsMinus(e)) then None
    else
      match SignedLiteral(e)
      case None => None
      case Some(i) => if -MAX_INT - 1 <= i <= MAX_INT then Some(i) else None
  }

  // ----- an output name -----

  predicate Named(column: OutputColumn, name: string) {
    column.name.Written? && EqIgnoreCase(column.name.text, name)
  }

  /** The output columns that carry the name, from `at` on. */
  function Carriers(schema: Schema, name: string, at: nat): (found: seq<nat>)
    requires at <= |schema|
    ensures Below(found, |schema|)
    decreases |schema| - at
  {
    if at == |schema| then []
    else (if Named(schema[at], name) then [at] else []) + Carriers(schema, name, at + 1)
  }

  /** They are the columns of the name, and no others. */
  lemma {:induction false} CarriersAre(schema: Schema, name: string, at: nat, c: nat)
    requires at <= |schema|
    ensures c in Carriers(schema, name, at) <==> at <= c < |schema| && Named(schema[c], name)
    decreases |schema| - at
  {
    if at < |schema| { CarriersAre(schema, name, at + 1, c); }
  }

  /** The one output column of the name, `None` when there is none. */
  function NamedColumn(schema: Schema, bare: Option<string>): Result<Option<nat>> {
    if bare.None? then Good(None)
    else
      var found := Carriers(schema, bare.value, 0);
      if |found| == 0 then Good(None) else if |found| == 1 then Good(Some(found[0])) else Bad(Ambiguous)
  }

  /** `named_output_column`. */
  method NamedOutputColumn(schema: Schema, bare: Option<string>) returns (r: Result<Option<nat>>)
    ensures r == NamedColumn(schema, bare)
  {
    if bare.None? { return Good(None); }
    var found: Option<nat> := None;
    ghost var all := Carriers(schema, bare.value, 0);
    for i := 0 to |schema|
      invariant all == (if found.None? then [] else [found.value]) + Carriers(schema, bare.value, i)
    {
      if Named(schema[i], bare.value) {
        if found.Some? { return Bad(Ambiguous); }
        found := Some(i);
      }
    }
    return Good(found);
  }

  // ----- a key -----

  /** `collate`: the `COLLATE` of an item, on a key that is a string. */
  function Collated(e: Expr, collate: Option<nat>): Result<Expr> {
    if collate.None? then Good(e)
    else if !IsString(e.ty.ty) then Bad(NotAString)
    else Good(Op(Collate, [e], e.ty.(collation := collate)))
  }

  /** The output column an item designates by its position or its name; neither is read under a
      `COLLATE`. */
  function Designated(item: OrderItem, schema: Schema): Result<Option<nat>> {
    if item.collate.Some? then Good(None)
    else if OrdinalOf(item.written).Some? then
      var ordinal := OrdinalOf(item.written).value;
      if 1 <= ordinal <= |schema| then Good(Some(ordinal - 1)) else Bad(OutOfRange(ordinal))
    else NamedColumn(schema, item.bare)
  }

  /** `resolve_key`; `bind` binds an item written as an expression. */
  function ResolveKey(item: OrderItem, position: nat, items: seq<Projection>, schema: Schema, bind: Syn -> Option<Expr>): (r: Result<ResolvedKey>)
    requires |schema| == |items|
    ensures r.Good? ==> KeyOk(r.value, items) && (r.value.item.Some? ==> r.value.item.value < |items|)
  {
    match Designated(item, schema)
    case Bad(e) => Bad(e)
    case Good(Some(i)) => Good(ResolvedKey(items[i].expr, item.desc, None, Some(i)))
    case Good(None) =>
      match bind(item.written)
      case None => Bad(Unbound)
      case Some(bound) =>
        match Collated(bound, item.collate)
        case Bad(e) => Bad(e)
        case Good(e) =>
          if Constant(item.written) then Bad(ConstantKey(position + 1))
          else Good(ResolvedKey(e, item.desc, item.collate, None))
  }

  /** What two expressions share when they are one column: the shape, but for the type of the
      outermost node, of which the collation alone is read. */
  datatype Print = Print(shape: Expr, collation: Option<nat>)

  const NO_TYPE := TypeInfo(Int, true, None)

  function Fingerprint(e: Expr): Print {
    Print(e.(ty := NO_TYPE), e.ty.collation)
  }

  /** Two expressions of one print and one type are one expression. */
  lemma PrintDetermines(a: Expr, b: Expr)
    requires Fingerprint(a) == Fingerprint(b) && a.ty == b.ty
    ensures a == b
  {
    assert a == a.(ty := NO_TYPE).(ty := a.ty);
    assert b == b.(ty := NO_TYPE).(ty := b.ty);
  }

  predicate NoneTwice(keys: seq<ResolvedKey>) {
    forall i, j :: 0 <= i < j < |keys| ==> Fingerprint(keys[i].expr) != Fingerprint(keys[j].expr)
  }

  /** `keys` resolve the items, in order. */
  predicate Resolves(order: seq<OrderItem>, items: seq<Projection>, schema: Schema, bind: Syn -> Option<Expr>, keys: seq<ResolvedKey>)
    requires |schema| == |items|
  {
    |keys| <= |order| && NoneTwice(keys)
    && forall k :: 0 <= k < |keys| ==> ResolveKey(order[k], k, items, schema, bind) == Good(keys[k])
  }

  /** The first item that fails, after `keys`, and why. */
  predicate FailsAfter(order: seq<OrderItem>, items: seq<Projection>, schema: Schema, bind: Syn -> Option<Expr>, keys: seq<ResolvedKey>, error: OrderError)
    requires |schema| == |items|
  {
    |keys| < |order| && Resolves(order, items, schema, bind, keys)
    && match ResolveKey(order[|keys|], |keys|, items, schema, bind)
       case Bad(e) => error == e
       case Good(key) =>
         error == Twice && exists i :: 0 <= i < |keys| && Fingerprint(keys[i].expr) == Fingerprint(key.expr)
  }

  /** `resolve_keys`: every item resolved, no column twice; or the error of the first item that
      does not resolve or repeats one before it. */
  method ResolveKeys(order: seq<OrderItem>, items: seq<Projection>, schema: Schema, bind: Syn -> Option<Expr>)
    returns (r: Result<seq<ResolvedKey>>)
    requires |schema| == |items|
    ensures r.Good? ==> |r.value| == |order| && Resolves(order, items, schema, bind, r.value)
    ensures r.Good? ==> forall k :: 0 <= k < |r.value| ==> KeyOk(r.value[k], items)
    ensures r.Bad? ==> exists keys :: FailsAfter(order, items, schema, bind, keys, r.error)
  {
    var keys: seq<ResolvedKey> := [];
    for position := 0 to |order|
      invariant |keys| == position && Resolves(order, items, schema, bind, keys)
    {
      var key := ResolveKey(order[position], position, items, schema, bind);
      if key.Bad? {
        assert FailsAfter(order, items, schema, bind, keys, key.error);
        return Bad(key.error);
      }
      if exists i :: 0 <= i < |keys| && Fingerprint(keys[i].expr) == Fingerprint(key.value.expr) {
        assert FailsAfter(order, items, schema, bind, keys, Twice);
        return Bad(Twice);
      }
      keys := keys + [key.value];
    }
    return Good(keys);
  }
}
