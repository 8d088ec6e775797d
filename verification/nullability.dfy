/** Nullability inference: what a bound expression is announced with, and that a value announced
    `NOT NULL` is never `NULL`. */
module Nullability {
  import opened Options
  import opened SqlTypes
  import opened Bound
  import opened Evaluation
  import opened Evaluator
  import opened Conversions
  import opened DecimalDigits

  /** How the nullability of a built-in function is inferred. */
  datatype FunctionNullability = Always | Operands | Never | IsNullRule | CoalesceRule

  /** The tables of names: the class of a function, the deterministic functions that are not
      folded, and those that answer `NULL` to a valid argument. */
  datatype Tables = Tables(classOf: string -> FunctionNullability, notFolded: string -> bool, nullOnValid: string -> bool)

  // ----- the rules -----

  /** `arith_is_nullable`, over the operands as the operator receives them. */
  predicate ArithIsNullable(op: BinaryOp, left: Expr, right: Expr) {
    match op
    case Add =>
      if FamilyOf(left.ty.ty) == BinaryFamily && FamilyOf(right.ty.ty) == BinaryFamily
      then left.ty.nullable || right.ty.nullable else true
    case Sub | Mul | Div | Mod => true
    case BitAnd | BitOr | BitXor | Concat => left.ty.nullable || right.ty.nullable
  }

  predicate IsSignedLiteral(e: Expr) {
    e.Literal? || (e.Op? && e.op == Negate && |e.args| == 1 && IsSignedLiteral(e.args[0]))
  }

  /** The `THEN`s and the `ELSE` of a `CASE`. */
  predicate IsBranch(args: seq<Expr>, i: nat) {
    i < |args| && (i % 2 == 1 || i == |args| - 1)
  }

  predicate CaseIsNullable(args: seq<Expr>) {
    |args| % 2 == 0 || exists i :: 0 <= i < |args| && IsBranch(args, i) && args[i].ty.nullable
  }

  /** `is_foldable`: a tree of literals under operators and deterministic functions. */
  predicate IsFoldable(t: Tables, e: Expr) {
    match e
    case Literal(_, _) => true
    case Op(op, args, _) =>
      (op.Function? ==> op.def.scalar && op.def.deterministic && !t.notFolded(op.def.name))
      && forall i :: 0 <= i < |args| ==> IsFoldable(t, args[i])
    case _ => false
  }

  /** `folded_may_be_null`, read on the shape. */
  predicate FoldedMayBeNull(t: Tables, e: Expr, target: SqlType) {
    match e
    case Literal(v, ty) => v == Null || (!v.Text? && !Lossless(ty.ty, target))
    case ColumnRef(_, _) => true
    case Variable(_, _) => true
    case Subquery(kind, _, _, _) => kind.Scalar?
    case Op(op, args, _) =>
      if IsCondition(op) then false
      else if op.Case? then |args| % 2 == 0 || exists i :: 0 <= i < |args| && IsBranch(args, i) && FoldedMayBeNull(t, args[i], target)
      else if op.Convert? && op.try_ then true
      else if op.Function? && (op.def.name == "ISNULL" || op.def.name == "COALESCE") then
        forall i :: 0 <= i < |args| ==> FoldedMayBeNull(t, args[i], target)
      else if op.Function? && op.def.name == "CONCAT" then false
      else if op.Function? && t.nullOnValid(op.def.name) then true
      else exists i :: 0 <= i < |args| && FoldedMayBeNull(t, args[i], target)
  }

  /** An operator whose result is a condition and not a value. */
  predicate IsCondition(op: Operator) {
    op.Compare? || op.And? || op.Or? || op.Not? || op.IsNull? || op.In? || op.Like?
  }

  /** `integer_fits`. */
  predicate IntegerFits(value: int, target: SqlType) {
    match target
    case Bit => 0 <= value <= 1
    case TinyInt => 0 <= value <= 255
    case SmallInt => -32768 <= value <= 32767
    case Int => -2147483648 <= value <= 2147483647
    case BigInt => -9223372036854775808 <= value <= 9223372036854775807
    case Decimal(p, s) => Digits(Abs(value)) <= SaturatingSub(p, s)
    case Numeric(p, s) => Digits(Abs(value)) <= SaturatingSub(p, s)
    case Money => Abs(value) <= 922337203685477
    case SmallMoney => Abs(value) <= 214748
    case _ => true
  }

  /** `folded_integer`: an integer literal under conversions that hold it and unary minuses. */
  function FoldedInteger(e: Expr): Option<int> {
    match e
    case Literal(v, _) =>
      (match v
       case Truth(b) => Some(if b then 1 else 0)
       case Integral(i) => Some(i)
       case _ => None)
    case Op(op, args, ty) =>
      if |args| != 1 then None
      else if op.Negate? then
        match FoldedInteger(args[0])
        case None => None
        case Some(i) => Some(-i)
      else if op.Convert? && !op.try_ then
        match FoldedInteger(args[0])
        case None => None
        case Some(i) => if IntegerFits(i, ty.ty) then Some(i) else None
      else None
    case _ => None
  }

  predicate ReplacementMayBeNull(t: Tables, e: Expr, target: SqlType) {
    if !IsFoldable(t, e) then e.ty.nullable || !Lossless(e.ty.ty, target)
    else
      match FoldedInteger(e)
      case Some(i) => !IntegerFits(i, target)
      case None => FoldedMayBeNull(t, e, target)
  }

  predicate IsNullIsNullable(t: Tables, args: seq<Expr>, result: SqlType) {
    |args| != 2 || (args[0].ty.nullable && ReplacementMayBeNull(t, args[1], result))
  }

  /** Leading bare `NULL`s drop out, a literal is then the whole answer, and otherwise every
      argument left counts. */
  predicate CoalesceIsNullable(args: seq<Expr>, result: SqlType) {
    if args == [] then true
    else if IsNullLiteral(args[0]) then CoalesceIsNullable(args[1..], result)
    else if args[0].Literal? then !Lossless(args[0].ty.ty, result)
    else exists i :: 0 <= i < |args| && (args[i].ty.nullable || !Lossless(args[i].ty.ty, result))
  }

  /** `with_inferred_nullability`. */
  predicate FunctionIsNullable(t: Tables, name: string, args: seq<Expr>, result: SqlType) {
    match t.classOf(name)
    case Always => true
    case Never => false
    case Operands => exists i :: 0 <= i < |args| && args[i].ty.nullable
    case IsNullRule => IsNullIsNullable(t, args, result)
    case CoalesceRule => CoalesceIsNullable(args, result)
  }

  // ----- the expressions the binder builds -----

  /** Whether `e` is a value, conditions standing only where a `CASE` tests them. */
  predicate IsValue(e: Expr) {
    match e
    case Op(op, args, _) =>
      !IsCondition(op) && forall i :: 0 <= i < |args| && (op.Case? ==> IsBranch(args, i)) ==> IsValue(args[i])
    case Subquery(kind, _, _, _) => kind.Scalar?
    case _ => true
  }

  /** Every node of a value is announced as the binder announces it; the columns are among `p`. */
  predicate Built(t: Tables, e: Expr, p: ColumnBinding -> bool) {
    match e
    case Literal(v, ty) => v == Null ==> ty.nullable
    case ColumnRef(c, ty) => p(c) && ty == c.ty
    case Variable(_, ty) => ty.nullable
    case Subquery(_, _, _, ty) => ty.nullable
    case Op(op, args, ty) =>
      Announced(t, op, args, ty)
      && forall i :: 0 <= i < |args| && (op.Case? ==> IsBranch(args, i)) ==> Built(t, args[i], p)
  }

  /** The rule of one node. An explicit `CAST` is nullable, whatever its source. */
  predicate Announced(t: Tables, op: Operator, args: seq<Expr>, ty: TypeInfo) {
    match op
    case Arith(a) => |args| == 2 ==> ty.nullable == ArithIsNullable(a, args[0], args[1])
    case Negate => |args| == 1 ==> ty.nullable == (!IsSignedLiteral(args[0]) || args[0].ty.nullable)
    case BitNot => |args| == 1 ==> ty.nullable == args[0].ty.nullable
    case Collate => |args| == 1 ==> ty.nullable == args[0].ty.nullable
    case Convert(style, try_) =>
      |args| == 1 ==> ty.nullable || (!try_ && ty.nullable == (args[0].ty.nullable || !Lossless(args[0].ty.ty, ty.ty)))
    case Case => ty.nullable == CaseIsNullable(args)
    case Function(def) => ty.nullable == FunctionIsNullable(t, def.name, args, ty.ty)
    case _ => true
  }

  // ----- what is asked of the operators -----

  predicate NoNull(vs: seq<Value>) {
    forall i :: 0 <= i < |vs| ==> vs[i] != Null
  }

  /** A function that answers no `NULL` to arguments that are not. */
  predicate KeepsValues(t: Tables, def: FunctionDef) {
    t.classOf(def.name) == Operands
    || (def.scalar && def.deterministic && !t.notFolded(def.name) && !t.nullOnValid(def.name))
  }

  /** An operator raises an error rather than yield `NULL` from operands that are not, and each
      class of functions keeps what the class says. */
  ghost predicate NullLaws(sem: Sem, t: Tables) {
    (forall op, ty, a, b :: a != Null && b != Null ==> sem.arith(op, ty, a, b) != Val(Null))
    && (forall ty, a :: a != Null ==> sem.negate(ty, a) != Val(Null))
    && (forall ty, a :: a != Null ==> sem.bitNot(ty, a) != Val(Null))
    && (forall from, to, style, a :: a != Null ==> sem.convert(from, to, style, a) != Val(Null))
    && (forall def: FunctionDef, tys, ty, vs :: t.classOf(def.name) == Never ==> sem.call(def, tys, ty, vs) != Val(Null))
    && (forall def: FunctionDef, tys, ty, vs :: KeepsValues(t, def) && NoNull(vs) ==> sem.call(def, tys, ty, vs) != Val(Null))
  }

  /** The laws leave `QUOTENAME`, which is not folded and always announced nullable, free to answer
      `NULL` to arguments that are not. */
  lemma LawsLeaveQuoteName(t: Tables, tys: seq<TypeInfo>, ty: TypeInfo, vs: seq<Value>)
    requires t.notFolded("QUOTENAME") && t.classOf("QUOTENAME") == Always
    ensures exists sem :: NullLaws(sem, t) && sem.call(FunctionDef("QUOTENAME", true, true), tys, ty, vs) == Val(Null)
  {
    var sem := Sem((_, _, _, _) => Error, (_, _) => Error, (_, _) => Error, (_, _, _) => 0, _ => Error, (_, _, _, _) => Error,
                   (def: FunctionDef, _, _, _) => if def.name == "QUOTENAME" then Val(Null) else Error,
                   (_, _) => Error, (_, _, _) => false, _ => [], _ => Null);
    assert NullLaws(sem, t);
  }

  /** The three functions the rules name are in their classes. */
  ghost predicate TablesOk(t: Tables) {
    (forall name :: t.classOf(name) == IsNullRule <==> name == "ISNULL")
    && (forall name :: t.classOf(name) == CoalesceRule <==> name == "COALESCE")
    && t.classOf("CONCAT") == Never
  }

  /** Every column declared `NOT NULL` holds a value. */
  ghost predicate Respects(env: Env, p: ColumnBinding -> bool) {
    forall c :: p(c) && !c.ty.nullable ==> Lookup(env, c) != Val(Null)
  }

  // ----- one operator -----

  predicate NoneNull(outs: seq<Outcome>) {
    forall i :: 0 <= i < |outs| ==> outs[i] != Val(Null)
  }

  /** An operator, or a call, that yields no `NULL` from operands that are not. */
  predicate Keeps(t: Tables, op: Operator) {
    op.Arith? || op.Negate? || op.BitNot? || op.Collate? || (op.Convert? && !op.try_)
    || (op.Function? && op.def.name != "ISNULL" && op.def.name != "COALESCE" && KeepsValues(t, op.def))
  }

  lemma KeepsNotNull(sem: Sem, t: Tables, op: Operator, ty: TypeInfo, tys: seq<TypeInfo>, outs: seq<Outcome>)
    requires NullLaws(sem, t) && Keeps(t, op) && |tys| == |outs| && NoneNull(outs)
    ensures Apply(sem, op, ty, tys, outs) != Val(Null)
  {
    if AllValues(outs) {
      var vs := ValuesOf(outs);
      forall i | 0 <= i < |vs| ensures vs[i] != Null { assert outs[i] != Val(Null); }
      assert NoNull(vs);
    }
  }

  lemma NeverNull(sem: Sem, t: Tables, op: Operator, ty: TypeInfo, tys: seq<TypeInfo>, outs: seq<Outcome>)
    requires NullLaws(sem, t) && TablesOk(t) && op.Function? && t.classOf(op.def.name) == Never && |tys| == |outs|
    ensures Apply(sem, op, ty, tys, outs) != Val(Null)
  {
    assert t.classOf("ISNULL") == IsNullRule && t.classOf("COALESCE") == CoalesceRule;
  }

  lemma {:induction false} CaseNotNull(outs: seq<Outcome>)
    requires |outs| % 2 == 1
    requires forall i :: 0 <= i < |outs| && (i % 2 == 1 || i == |outs| - 1) ==> outs[i] != Val(Null)
    ensures ApplyCase(outs) != Val(Null)
    decreases |outs|
  {
    if |outs| > 1 {
      var rest := outs[2..];
      forall i | 0 <= i < |rest| && (i % 2 == 1 || i == |rest| - 1) ensures rest[i] != Val(Null) {
        assert rest[i] == outs[i + 2];
      }
      CaseNotNull(rest);
    }
  }

  lemma IsNullNotNull(sem: Sem, t: Tables, tys: seq<TypeInfo>, outs: seq<Outcome>)
    requires NullLaws(sem, t) && |tys| == |outs| && (|outs| == 2 ==> outs[0] != Val(Null) || outs[1] != Val(Null))
    ensures ApplyIsNull(sem, tys, outs) != Val(Null)
  {
  }

  lemma {:induction false} CoalesceNotNull(sem: Sem, t: Tables, ty: TypeInfo, tys: seq<TypeInfo>, outs: seq<Outcome>, i: nat)
    requires NullLaws(sem, t) && |tys| == |outs| && i < |outs| && outs[i] != Val(Null)
    ensures ApplyCoalesce(sem, ty, tys, outs) != Val(Null)
    decreases |outs|
  {
    if i > 0 { CoalesceNotNull(sem, t, ty, tys[1..], outs[1..], i - 1); }
  }

  // ----- a folded replacement -----

  lemma {:induction false} FoldedIntegerNotNull(sem: Sem, t: Tables, e: Expr, env: Env)
    requires NullLaws(sem, t) && FoldedInteger(e).Some?
    ensures Eval(sem, e, env) != Val(Null)
    decreases e
  {
    if e.Op? {
      FoldedIntegerNotNull(sem, t, e.args[0], env);
      var outs := EvalAll(sem, e.args, env);
      assert NoneNull(outs);
      KeepsNotNull(sem, t, e.op, e.ty, Types(e.args), outs);
    }
  }

  /** The folded reading is sound: a constant it does not call nullable does not fold to `NULL`. */
  lemma {:induction false} FoldedNotNull(sem: Sem, t: Tables, e: Expr, target: SqlType, env: Env)
    requires NullLaws(sem, t) && TablesOk(t) && IsFoldable(t, e) && IsValue(e) && !FoldedMayBeNull(t, e, target)
    ensures Eval(sem, e, env) != Val(Null)
    decreases e
  {
    if e.Op? {
      var outs := EvalAll(sem, e.args, env);
      forall i | 0 <= i < |e.args| && (e.op.Case? ==> IsBranch(e.args, i)) && !FoldedMayBeNull(t, e.args[i], target)
        ensures outs[i] != Val(Null)
      {
        FoldedNotNull(sem, t, e.args[i], target, env);
      }
      FoldedOpNotNull(sem, t, e, target, outs);
    }
  }

  lemma FoldedCaseNotNull(sem: Sem, t: Tables, e: Expr, target: SqlType, outs: seq<Outcome>)
    requires e.Op? && e.op.Case? && IsFoldable(t, e) && !FoldedMayBeNull(t, e, target) && |outs| == |e.args|
    requires forall i :: 0 <= i < |e.args| && IsBranch(e.args, i) && !FoldedMayBeNull(t, e.args[i], target) ==> outs[i] != Val(Null)
    ensures Apply(sem, e.op, e.ty, Types(e.args), outs) != Val(Null)
  {
    forall i | 0 <= i < |outs| && (i % 2 == 1 || i == |outs| - 1) ensures outs[i] != Val(Null) {
      assert IsBranch(e.args, i);
      assert !FoldedMayBeNull(t, e.args[i], target);
    }
    CaseNotNull(outs);
  }

  /** `ISNULL` and `COALESCE` are not null when one argument is not. */
  lemma FoldedChoiceNotNull(sem: Sem, t: Tables, e: Expr, outs: seq<Outcome>, i: nat)
    requires NullLaws(sem, t) && e.Op? && e.op.Function? && (e.op.def.name == "ISNULL" || e.op.def.name == "COALESCE") && IsValue(e)
    requires |outs| == |e.args| && i < |outs| && outs[i] != Val(Null)
    ensures Apply(sem, e.op, e.ty, Types(e.args), outs) != Val(Null)
  {
    if e.op.def.name == "ISNULL" { IsNullNotNull(sem, t, Types(e.args), outs); }
    else { CoalesceNotNull(sem, t, e.ty, Types(e.args), outs, i); }
  }

  /** The others, `CONCAT` apart, are not null when none of their arguments is. */
  lemma FoldedStrictNotNull(sem: Sem, t: Tables, e: Expr, target: SqlType, outs: seq<Outcome>)
    requires NullLaws(sem, t) && TablesOk(t) && e.Op? && !e.op.Case? && IsFoldable(t, e) && IsValue(e) && !FoldedMayBeNull(t, e, target)
    requires !(e.op.Function? && (e.op.def.name == "ISNULL" || e.op.def.name == "COALESCE" || e.op.def.name == "CONCAT"))
    requires |outs| == |e.args|
    requires forall i :: 0 <= i < |e.args| && !FoldedMayBeNull(t, e.args[i], target) ==> outs[i] != Val(Null)
    ensures Apply(sem, e.op, e.ty, Types(e.args), outs) != Val(Null)
  {
    forall i | 0 <= i < |outs| ensures outs[i] != Val(Null) { assert !FoldedMayBeNull(t, e.args[i], target); }
    KeepsNotNull(sem, t, e.op, e.ty, Types(e.args), outs);
  }

  lemma FoldedOpNotNull(sem: Sem, t: Tables, e: Expr, target: SqlType, outs: seq<Outcome>)
    requires NullLaws(sem, t) && TablesOk(t) && e.Op? && IsFoldable(t, e) && IsValue(e) && !FoldedMayBeNull(t, e, target)
    requires |outs| == |e.args|
    requires forall i :: 0 <= i < |e.args| && (e.op.Case? ==> IsBranch(e.args, i)) && !FoldedMayBeNull(t, e.args[i], target) ==> outs[i] != Val(Null)
    ensures Apply(sem, e.op, e.ty, Types(e.args), outs) != Val(Null)
  {
    if e.op.Case? {
      FoldedCaseNotNull(sem, t, e, target, outs);
    } else if e.op.Function? && (e.op.def.name == "ISNULL" || e.op.def.name == "COALESCE") {
      var i :| 0 <= i < |e.args| && !FoldedMayBeNull(t, e.args[i], target);
      FoldedChoiceNotNull(sem, t, e, outs, i);
    } else if e.op.Function? && e.op.def.name == "CONCAT" {
      NeverNull(sem, t, e.op, e.ty, Types(e.args), outs);
    } else {
      FoldedStrictNotNull(sem, t, e, target, outs);
    }
  }

  lemma ReplacementNotNull(sem: Sem, t: Tables, e: Expr, target: SqlType, env: Env)
    requires NullLaws(sem, t) && TablesOk(t) && IsValue(e) && !ReplacementMayBeNull(t, e, target)
    requires !e.ty.nullable ==> Eval(sem, e, env) != Val(Null)
    ensures Eval(sem, e, env) != Val(Null)
  {
    if IsFoldable(t, e) {
      if FoldedInteger(e).Some? { FoldedIntegerNotNull(sem, t, e, env); }
      else { FoldedNotNull(sem, t, e, target, env); }
    }
  }

  // ----- the theorem -----

  /** A value announced `NOT NULL` is never `NULL`. */
  ghost predicate Honest(sem: Sem, e: Expr, env: Env) {
    !e.ty.nullable ==> Eval(sem, e, env) != Val(Null)
  }

  /** Nullability inference is sound: in every environment that respects what is declared, every
      value expression as the binder announces it, `CASE`, `COALESCE` and `ISNULL` with a folded
      replacement included, is honest. */
  lemma {:induction false} InferenceIsSound(sem: Sem, t: Tables, e: Expr, p: ColumnBinding -> bool, env: Env)
    requires NullLaws(sem, t) && TablesOk(t) && Respects(env, p) && Built(t, e, p) && IsValue(e)
    ensures Honest(sem, e, env)
    decreases e
  {
    if e.Op? {
      forall i | 0 <= i < |e.args| && (e.op.Case? ==> IsBranch(e.args, i)) ensures Honest(sem, e.args[i], env) {
        InferenceIsSound(sem, t, e.args[i], p, env);
      }
      if !e.ty.nullable { OperatorIsHonest(sem, t, e, env); }
    }
  }

  lemma OperatorIsHonest(sem: Sem, t: Tables, e: Expr, env: Env)
    requires NullLaws(sem, t) && TablesOk(t) && e.Op? && Announced(t, e.op, e.args, e.ty) && IsValue(e) && !e.ty.nullable
    requires forall i :: 0 <= i < |e.args| && (e.op.Case? ==> IsBranch(e.args, i)) ==> Honest(sem, e.args[i], env)
    ensures Eval(sem, e, env) != Val(Null)
  {
    var op, args, outs := e.op, e.args, EvalAll(sem, e.args, env);
    if op.Case? {
      forall i | 0 <= i < |outs| && (i % 2 == 1 || i == |outs| - 1) ensures outs[i] != Val(Null) {
        assert IsBranch(args, i);
        assert Honest(sem, args[i], env);
      }
      CaseNotNull(outs);
    } else if op.Function? {
      CallIsHonest(sem, t, e, env);
    } else {
      forall i | 0 <= i < |outs| && !args[i].ty.nullable ensures outs[i] != Val(Null) { assert Honest(sem, args[i], env); }
      if NoneNull(outs) && Keeps(t, op) { KeepsNotNull(sem, t, op, e.ty, Types(args), outs); }
    }
  }

  lemma CallIsHonest(sem: Sem, t: Tables, e: Expr, env: Env)
    requires NullLaws(sem, t) && TablesOk(t) && e.Op? && e.op.Function? && Announced(t, e.op, e.args, e.ty) && IsValue(e) && !e.ty.nullable
    requires forall i :: 0 <= i < |e.args| ==> Honest(sem, e.args[i], env)
    ensures Eval(sem, e, env) != Val(Null)
  {
    var op, args, outs := e.op, e.args, EvalAll(sem, e.args, env);
    var rule := t.classOf(op.def.name);
    if rule == Never {
      NeverNull(sem, t, op, e.ty, Types(args), outs);
    } else if rule == Operands {
      forall i | 0 <= i < |outs| ensures outs[i] != Val(Null) { assert Honest(sem, args[i], env); }
      KeepsNotNull(sem, t, op, e.ty, Types(args), outs);
    } else if rule == IsNullRule {
      if |args| == 2 && args[0].ty.nullable { ReplacementNotNull(sem, t, args[1], e.ty.ty, env); }
      IsNullNotNull(sem, t, Types(args), outs);
    } else {
      var i := CoalesceAnswer(sem, args, e.ty.ty, env);
      CoalesceNotNull(sem, t, e.ty, Types(args), outs, i);
    }
  }

  /** The argument a `COALESCE` announced `NOT NULL` can count on. */
  lemma {:induction false} CoalesceAnswer(sem: Sem, args: seq<Expr>, result: SqlType, env: Env) returns (i: nat)
    requires !CoalesceIsNullable(args, result) && forall x :: 0 <= x < |args| ==> Honest(sem, args[x], env)
    ensures i < |args| && Eval(sem, args[i], env) != Val(Null)
    decreases |args|
  {
    if IsNullLiteral(args[0]) {
      var j := CoalesceAnswer(sem, args[1..], result, env);
      i := j + 1;
    } else {
      assert Honest(sem, args[0], env);
      i := 0;
    }
  }
}
