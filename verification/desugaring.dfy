/** `BETWEEN` as two comparisons and the simple `CASE` as a searched one: three-valued logic is
    preserved, and the nullability of a `CASE` is that of its branches once converted. */
module Desugaring {
  import opened Options
  import opened SqlTypes
  import opened Bound
  import opened Evaluation
  import opened Evaluator
  import opened Conversions
  import opened Quantified
  import opened Nullability

  // ----- BETWEEN -----

  /** `bind_between`; `lows` and `highs` are the types each pair is compared in. */
  function BetweenNode(negated: bool, e: Expr, low: Expr, high: Expr, lows: TypeInfo, highs: TypeInfo): Expr {
    var left := CompareNode(if negated then Lt else Ge, e, low, lows);
    var right := CompareNode(if negated then Gt else Le, e, high, highs);
    Op(if negated then Or else And, [left, right], NewType(Bit, left.ty.nullable || right.ty.nullable))
  }

  /** The four values a `BETWEEN` compares. */
  predicate Compares(sem: Sem, e: Expr, low: Expr, high: Expr, lows: TypeInfo, highs: TypeInfo, env: Env) {
    Eval(sem, Prepare(e, lows), env).Val? && Eval(sem, Prepare(low, lows), env).Val?
    && Eval(sem, Prepare(e, highs), env).Val? && Eval(sem, Prepare(high, highs), env).Val?
  }

  lemma PairMeans(sem: Sem, op: Operator, left: Expr, right: Expr, ty: TypeInfo, a: Option<bool>, b: Option<bool>, env: Env)
    requires op.And? || op.Or?
    requires Eval(sem, left, env) == Val(FromCondition(a)) && Eval(sem, right, env) == Val(FromCondition(b))
    ensures Eval(sem, Op(op, [left, right], ty), env) == Val(FromCondition(if op.And? then And3(a, b) else Or3(a, b)))
  {
    assert EvalAll(sem, [left, right], env) == [Val(FromCondition(a)), Val(FromCondition(b))];
  }

  /** Two operands brought to a type, compared under their collation. */
  function Compared(sem: Sem, op: CompareOp, e: Expr, bound: Expr, ty: TypeInfo, env: Env): Option<bool>
    requires Eval(sem, Prepare(e, ty), env).Val? && Eval(sem, Prepare(bound, ty), env).Val?
  {
    Compare3(sem, CollationOf([Prepare(e, ty).ty, Prepare(bound, ty).ty]), op,
             Eval(sem, Prepare(e, ty), env).v, Eval(sem, Prepare(bound, ty), env).v)
  }

  /** A comparison and its complement: one is the negation of the other, `NULL`s included. */
  lemma ComplementMeans(sem: Sem, op: CompareOp, other: CompareOp, e: Expr, bound: Expr, ty: TypeInfo, env: Env)
    requires (op == Ge && other == Lt) || (op == Le && other == Gt)
    requires Eval(sem, Prepare(e, ty), env).Val? && Eval(sem, Prepare(bound, ty), env).Val?
    ensures Eval(sem, CompareNode(op, e, bound, ty), env) == Val(FromCondition(Compared(sem, op, e, bound, ty, env)))
    ensures Eval(sem, CompareNode(other, e, bound, ty), env) == Val(FromCondition(Not3(Compared(sem, op, e, bound, ty, env))))
  {
    CompareMeans(sem, op, e, bound, ty, env);
    CompareMeans(sem, other, e, bound, ty, env);
  }

  lemma DeMorgan(a: Option<bool>, b: Option<bool>)
    ensures Or3(Not3(a), Not3(b)) == Not3(And3(a, b))
  {
  }

  /** `BETWEEN` is both comparisons, and `NOT BETWEEN`, the other two under `OR`, its negation,
      whichever of the three values is `NULL`. */
  lemma NotBetweenNegates(sem: Sem, e: Expr, low: Expr, high: Expr, lows: TypeInfo, highs: TypeInfo, env: Env)
    requires Compares(sem, e, low, high, lows, highs, env)
    ensures var both := And3(Compared(sem, Ge, e, low, lows, env), Compared(sem, Le, e, high, highs, env));
            Eval(sem, BetweenNode(false, e, low, high, lows, highs), env) == Val(FromCondition(both))
            && Eval(sem, BetweenNode(true, e, low, high, lows, highs), env) == Val(FromCondition(Not3(both)))
  {
    ComplementMeans(sem, Ge, Lt, e, low, lows, env);
    ComplementMeans(sem, Le, Gt, e, high, highs, env);
    var ge, le := Compared(sem, Ge, e, low, lows, env), Compared(sem, Le, e, high, highs, env);
    var yes, no := BetweenNode(false, e, low, high, lows, highs), BetweenNode(true, e, low, high, lows, highs);
    PairMeans(sem, And, yes.args[0], yes.args[1], yes.ty, ge, le, env);
    PairMeans(sem, Or, no.args[0], no.args[1], no.ty, Not3(ge), Not3(le), env);
    DeMorgan(ge, le);
  }

  // ----- CASE -----

  /** An arm; `common` is the type a simple `CASE` compares its operand with it in. */
  datatype Arm = Arm(when_: Expr, then_: Expr, common: TypeInfo)

  function UntypedNullBeside(sibling: TypeInfo): TypeInfo {
    var ty :=
      match sibling.ty
      case Char(_) | VarChar(_) => VarChar(Fixed(1))
      case NChar(_) | NVarChar(_) => NVarChar(Fixed(1))
      case Binary(_) | VarBinary(_) => VarBinary(Fixed(1))
      case other => other;
    TypeInfo(ty, true, sibling.collation)
  }

  /** `prepare_case_branch`: a bare `NULL` takes the common type first. */
  function PrepareBranch(e: Expr, ty: TypeInfo): Expr {
    ConvertTo(if IsNullLiteral(e) then Literal(Null, UntypedNullBeside(ty)) else e, ty)
  }

  function WhenOf(operand: Option<Expr>, arm: Arm): Expr {
    if operand.None? then arm.when_ else CompareNode(Eq, operand.value, arm.when_, arm.common)
  }

  function CaseArgs(operand: Option<Expr>, arms: seq<Arm>, else_: Option<Expr>, ty: TypeInfo): (args: seq<Expr>)
    ensures |args| == 2 * |arms| + (if else_.Some? then 1 else 0)
  {
    if arms == [] then if else_.Some? then [PrepareBranch(else_.value, ty)] else []
    else [WhenOf(operand, arms[0]), PrepareBranch(arms[0].then_, ty)] + CaseArgs(operand, arms[1..], else_, ty)
  }

  predicate BranchMayBeNull(e: Expr, ty: TypeInfo) {
    e.ty.nullable || !Lossless(e.ty.ty, ty.ty)
  }

  /** `bind_case`, `common` being the common type of its branches. */
  function CaseNode(operand: Option<Expr>, arms: seq<Arm>, else_: Option<Expr>, common: TypeInfo): Expr {
    var nullable := else_.None? || BranchMayBeNull(else_.value, common)
                    || exists i :: 0 <= i < |arms| && BranchMayBeNull(arms[i].then_, common);
    var ty := common.(nullable := nullable);
    Op(Case, CaseArgs(operand, arms, else_, ty), ty)
  }

  /** Whether an arm is taken: the operand equals its value, or its condition is true. */
  function ArmTaken(sem: Sem, operand: Option<Expr>, arm: Arm, env: Env): Option<bool> {
    if operand.None? then
      match Eval(sem, arm.when_, env)
      case Error => None
      case Val(v) => (match Condition(v) case None => None case Some(c) => Some(c == Some(true)))
    else
      var l, r := Prepare(operand.value, arm.common), Prepare(arm.when_, arm.common);
      match (Eval(sem, l, env), Eval(sem, r, env))
      case (Val(a), Val(b)) => Some(Compare3(sem, CollationOf([l.ty, r.ty]), Eq, a, b) == Some(true))
      case _ => None
  }

  /** The first arm taken, or the `ELSE`, in the type of the `CASE`. */
  function CaseValue(sem: Sem, operand: Option<Expr>, arms: seq<Arm>, else_: Option<Expr>, ty: TypeInfo, env: Env): Outcome {
    if arms == [] then if else_.None? then Val(Null) else Eval(sem, PrepareBranch(else_.value, ty), env)
    else
      match ArmTaken(sem, operand, arms[0], env)
      case None => Error
      case Some(taken) =>
        if taken then Eval(sem, PrepareBranch(arms[0].then_, ty), env)
        else CaseValue(sem, operand, arms[1..], else_, ty, env)
  }

  lemma WhenMeans(sem: Sem, operand: Option<Expr>, arm: Arm, env: Env)
    ensures var out := Eval(sem, WhenOf(operand, arm), env);
            match ArmTaken(sem, operand, arm, env)
            case None => out.Error? || Condition(out.v).None?
            case Some(taken) => out.Val? && Condition(out.v).Some? && (taken <==> Condition(out.v).value == Some(true))
  {
    if operand.Some? {
      var l, r := Prepare(operand.value, arm.common), Prepare(arm.when_, arm.common);
      if Eval(sem, l, env).Val? && Eval(sem, r, env).Val? {
        CompareMeans(sem, Eq, operand.value, arm.when_, arm.common, env);
      } else {
        var outs := EvalAll(sem, [l, r], env);
        assert outs == [Eval(sem, l, env), Eval(sem, r, env)];
        assert !outs[0].Val? || !outs[1].Val?;
      }
    }
  }

  /** The searched form computes the simple one: the first arm whose comparison is true. */
  lemma {:induction false} CaseMeans(sem: Sem, operand: Option<Expr>, arms: seq<Arm>, else_: Option<Expr>, ty: TypeInfo, env: Env)
    ensures ApplyCase(EvalAll(sem, CaseArgs(operand, arms, else_, ty), env)) == CaseValue(sem, operand, arms, else_, ty, env)
    decreases |arms|
  {
    var args := CaseArgs(operand, arms, else_, ty);
    var outs := EvalAll(sem, args, env);
    if arms != [] {
      CaseMeans(sem, operand, arms[1..], else_, ty, env);
      WhenMeans(sem, operand, arms[0], env);
      assert args[2..] == CaseArgs(operand, arms[1..], else_, ty);
      assert outs[2..] == EvalAll(sem, args[2..], env);
      assert outs[0] == Eval(sem, WhenOf(operand, arms[0]), env) && outs[1] == Eval(sem, PrepareBranch(arms[0].then_, ty), env);
    }
  }

  // ----- nullability of a CASE once converted -----

  lemma PreparedNullable(e: Expr, ty: TypeInfo)
    requires IsNullLiteral(e) ==> e.ty.nullable
    ensures PrepareBranch(e, ty).ty.nullable == BranchMayBeNull(e, ty)
  {
  }

  lemma PreparedBuilt(t: Tables, e: Expr, ty: TypeInfo, p: ColumnBinding -> bool)
    requires Built(t, e, p) && IsValue(e)
    ensures Built(t, PrepareBranch(e, ty), p) && IsValue(PrepareBranch(e, ty))
  {
  }

  /** The branch at a position of the flattened `CASE`. */
  lemma {:induction false} BranchAt(operand: Option<Expr>, arms: seq<Arm>, else_: Option<Expr>, ty: TypeInfo, i: nat)
    requires var args := CaseArgs(operand, arms, else_, ty); i < |args| && IsBranch(args, i) && (else_.None? ==> i % 2 == 1)
    ensures var args := CaseArgs(operand, arms, else_, ty);
            (i % 2 == 1 && i / 2 < |arms| && args[i] == PrepareBranch(arms[i / 2].then_, ty))
            || (i == 2 * |arms| && else_.Some? && args[i] == PrepareBranch(else_.value, ty))
    decreases |arms|
  {
    if arms != [] && i >= 2 {
      var args, rest := CaseArgs(operand, arms, else_, ty), CaseArgs(operand, arms[1..], else_, ty);
      assert args[i] == rest[i - 2];
      BranchAt(operand, arms[1..], else_, ty, i - 2);
    }
  }

  /** The branches of a bound `CASE`, before they are converted. */
  predicate BranchesBuilt(t: Tables, arms: seq<Arm>, else_: Option<Expr>, p: ColumnBinding -> bool) {
    (forall i :: 0 <= i < |arms| ==> Built(t, arms[i].then_, p) && IsValue(arms[i].then_))
    && (else_.Some? ==> Built(t, else_.value, p) && IsValue(else_.value))
  }

  lemma BranchIsBuilt(t: Tables, operand: Option<Expr>, arms: seq<Arm>, else_: Option<Expr>, ty: TypeInfo, p: ColumnBinding -> bool, i: nat)
    requires BranchesBuilt(t, arms, else_, p)
    requires var args := CaseArgs(operand, arms, else_, ty); i < |args| && IsBranch(args, i)
    ensures var args := CaseArgs(operand, arms, else_, ty); Built(t, args[i], p) && IsValue(args[i])
  {
    BranchAt(operand, arms, else_, ty, i);
    if i == 2 * |arms| { PreparedBuilt(t, else_.value, ty, p); } else { PreparedBuilt(t, arms[i / 2].then_, ty, p); }
  }

  lemma ArgsAfter(operand: Option<Expr>, arms: seq<Arm>, else_: Option<Expr>, ty: TypeInfo, i: nat)
    requires arms != [] && 2 <= i < |CaseArgs(operand, arms, else_, ty)|
    ensures CaseArgs(operand, arms, else_, ty)[i] == CaseArgs(operand, arms[1..], else_, ty)[i - 2]
  {
  }

  lemma {:induction false} ThenAt(operand: Option<Expr>, arms: seq<Arm>, else_: Option<Expr>, ty: TypeInfo, k: nat)
    requires k < |arms|
    ensures CaseArgs(operand, arms, else_, ty)[2 * k + 1] == PrepareBranch(arms[k].then_, ty)
    decreases |arms|
  {
    if k > 0 {
      ThenAt(operand, arms[1..], else_, ty, k - 1);
      ArgsAfter(operand, arms, else_, ty, 2 * k + 1);
    }
  }

  /** A bare `NULL` is announced nullable. */
  predicate NullsAnnounced(arms: seq<Arm>, else_: Option<Expr>) {
    (forall i :: 0 <= i < |arms| && IsNullLiteral(arms[i].then_) ==> arms[i].then_.ty.nullable)
    && (else_.Some? && IsNullLiteral(else_.value) ==> else_.value.ty.nullable)
  }

  /** A branch that is nullable once converted makes the `CASE` nullable. */
  lemma BranchCounts(operand: Option<Expr>, arms: seq<Arm>, else_: Option<Expr>, common: TypeInfo, i: nat)
    requires NullsAnnounced(arms, else_)
    requires var args := CaseNode(operand, arms, else_, common).args; else_.Some? && i < |args| && IsBranch(args, i) && args[i].ty.nullable
    ensures CaseNode(operand, arms, else_, common).ty.nullable
  {
    var node := CaseNode(operand, arms, else_, common);
    BranchAt(operand, arms, else_, node.ty, i);
    if i == 2 * |arms| { PreparedNullable(else_.value, node.ty); } else { PreparedNullable(arms[i / 2].then_, node.ty); }
  }

  lemma ElseNullable(operand: Option<Expr>, arms: seq<Arm>, else_: Option<Expr>, ty: TypeInfo)
    requires else_.Some? && PrepareBranch(else_.value, ty).ty.nullable
    ensures var args := CaseArgs(operand, arms, else_, ty);
            |args| == 2 * |arms| + 1 && IsBranch(args, 2 * |arms|) && args[2 * |arms|].ty.nullable
  {
    BranchAt(operand, arms, else_, ty, 2 * |arms|);
  }

  lemma ThenNullable(operand: Option<Expr>, arms: seq<Arm>, else_: Option<Expr>, ty: TypeInfo, k: nat)
    requires k < |arms| && PrepareBranch(arms[k].then_, ty).ty.nullable
    ensures var args := CaseArgs(operand, arms, else_, ty);
            2 * k + 1 < |args| && IsBranch(args, 2 * k + 1) && args[2 * k + 1].ty.nullable
  {
    ThenAt(operand, arms, else_, ty, k);
  }

  /** A nullable `CASE` has a branch that is nullable once converted. */
  lemma NullableBranch(operand: Option<Expr>, arms: seq<Arm>, else_: Option<Expr>, common: TypeInfo) returns (i: nat)
    requires NullsAnnounced(arms, else_) && else_.Some? && CaseNode(operand, arms, else_, common).ty.nullable
    ensures var args := CaseNode(operand, arms, else_, common).args; i < |args| && IsBranch(args, i) && args[i].ty.nullable
  {
    var ty := common.(nullable := true);
    assert CaseNode(operand, arms, else_, common).args == CaseArgs(operand, arms, else_, ty);
    if BranchMayBeNull(else_.value, common) {
      PreparedNullable(else_.value, ty);
      ElseNullable(operand, arms, else_, ty);
      i := 2 * |arms|;
    } else {
      var k :| 0 <= k < |arms| && BranchMayBeNull(arms[k].then_, common);
      PreparedNullable(arms[k].then_, ty);
      ThenNullable(operand, arms, else_, ty, k);
      i := 2 * k + 1;
    }
  }

  /** The nullability `bind_case` reads off its branches before they are converted is that of the
      branches once converted. */
  lemma CaseNullability(operand: Option<Expr>, arms: seq<Arm>, else_: Option<Expr>, common: TypeInfo)
    requires NullsAnnounced(arms, else_)
    ensures var node := CaseNode(operand, arms, else_, common); node.ty.nullable == CaseIsNullable(node.args)
  {
    var node := CaseNode(operand, arms, else_, common);
    if else_.Some? {
      if CaseIsNullable(node.args) {
        var i :| 0 <= i < |node.args| && IsBranch(node.args, i) && node.args[i].ty.nullable;
        BranchCounts(operand, arms, else_, common, i);
      }
      if node.ty.nullable {
        var i := NullableBranch(operand, arms, else_, common);
        assert IsBranch(node.args, i);
      }
    }
  }

  /** A `CASE` as the binder builds it is announced honestly, its branches being. */
  lemma CaseIsBuilt(t: Tables, operand: Option<Expr>, arms: seq<Arm>, else_: Option<Expr>, common: TypeInfo, p: ColumnBinding -> bool)
    requires BranchesBuilt(t, arms, else_, p)
    ensures Built(t, CaseNode(operand, arms, else_, common), p) && IsValue(CaseNode(operand, arms, else_, common))
  {
    var node := CaseNode(operand, arms, else_, common);
    CaseNullability(operand, arms, else_, common);
    forall i | 0 <= i < |node.args| && IsBranch(node.args, i) ensures Built(t, node.args[i], p) && IsValue(node.args[i]) {
      BranchIsBuilt(t, operand, arms, else_, node.ty, p, i);
    }
  }
}
