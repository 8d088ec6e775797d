/** The common type of two types, the conversions the binder inserts on its own, and what they
    compute. */
module Conversions {
  import opened Options
  import opened SqlTypes
  import opened Bound
  import opened Evaluation
  import opened Evaluator

  const MAX_PRECISION: nat := 38

  function Larger(a: nat, b: nat): nat {
    if a >= b then a else b
  }

  function Smaller(a: nat, b: nat): nat {
    if a <= b then a else b
  }

  // ----- precedence -----

  function Rank(t: SqlType): nat {
    match t
    case DateTimeOffset(_) => 23
    case DateTime2(_) => 22
    case DateTime => 21
    case SmallDateTime => 20
    case Date => 19
    case Time(_) => 18
    case Float => 17
    case Real => 16
    case Decimal(_, _) | Numeric(_, _) => 15
    case Money => 14
    case SmallMoney => 13
    case BigInt => 12
    case Int => 11
    case SmallInt => 10
    case TinyInt => 9
    case Bit => 8
    case UniqueIdentifier => 7
    case NVarChar(_) => 6
    case NChar(_) => 5
    case VarChar(_) => 4
    case Char(_) => 3
    case VarBinary(_) => 2
    case Binary(_) => 1
  }

  /** The precision and scale of an exact number, `None` for another type. */
  function PrecisionScale(t: SqlType): Option<(nat, nat)> {
    match t
    case Decimal(p, s) => Some((p, s))
    case Numeric(p, s) => Some((p, s))
    case BigInt => Some((19, 0))
    case Int => Some((10, 0))
    case SmallInt => Some((5, 0))
    case TinyInt => Some((3, 0))
    case Bit => Some((1, 0))
    case Money => Some((19, 4))
    case SmallMoney => Some((10, 4))
    case _ => None
  }

  /** `u8` subtraction that stops at zero. */
  function SaturatingSub(a: nat, b: nat): nat {
    if a >= b then a - b else 0
  }

  function MergeExact(winner: SqlType, other: SqlType): SqlType {
    match (PrecisionScale(winner), PrecisionScale(other))
    case (Some((p1, s1)), Some((p2, s2))) =>
      var scale := Larger(s1, s2);
      var precision := Smaller(Larger(SaturatingSub(p1, s1), SaturatingSub(p2, s2)) + scale, MAX_PRECISION);
      if winner.Numeric? || other.Numeric? then Numeric(precision, scale) else Decimal(precision, scale)
    case _ => winner
  }

  function Widest(a: Len, b: Len): Len {
    match (a, b)
    case (Fixed(x), Fixed(y)) => Fixed(Larger(x, y))
    case _ => Len.Max
  }

  function LengthOf(t: SqlType): Option<Len> {
    if IsString(t) || t.Binary? || t.VarBinary? then Some(t.len) else None
  }

  function WithLength(t: SqlType, l: Len): SqlType {
    match t
    case Char(_) => Char(l)
    case VarChar(_) => VarChar(l)
    case NChar(_) => NChar(l)
    case NVarChar(_) => NVarChar(l)
    case Binary(_) => Binary(l)
    case VarBinary(_) => VarBinary(l)
    case _ => t
  }

  function WithDigits(t: SqlType, other: SqlType): SqlType {
    match (t, other)
    case (Time(a), Time(b)) => Time(Larger(a, b))
    case (DateTime2(a), DateTime2(b)) => DateTime2(Larger(a, b))
    case (DateTimeOffset(a), DateTimeOffset(b)) => DateTimeOffset(Larger(a, b))
    case _ => t
  }

  /** The type of higher precedence, widened to hold both. */
  function CommonType(a: SqlType, b: SqlType): SqlType {
    var winner := if Rank(a) >= Rank(b) then a else b;
    var other := if Rank(a) >= Rank(b) then b else a;
    if IsExactNumeric(winner) then MergeExact(winner, other)
    else if LengthOf(winner).Some? then
      WithLength(winner, if LengthOf(other).Some? then Widest(LengthOf(winner).value, LengthOf(other).value) else LengthOf(winner).value)
    else WithDigits(winner, other)
  }

  predicate IsNumber(t: SqlType) {
    FamilyOf(t) in {BitFamily, Integer, ExactNumeric, ApproxNumeric, MoneyFamily}
  }

  predicate DayCounted(t: SqlType) {
    t.DateTime? || t.SmallDateTime?
  }

  /** Whether the two types have a common type at all. */
  predicate PairConverts(a: SqlType, b: SqlType) {
    var fa, fb := FamilyOf(a), FamilyOf(b);
    if fa == fb || (IsNumber(a) && IsNumber(b)) || fa == Character || fb == Character then true
    else if (fa == BinaryFamily && fb == ApproxNumeric) || (fb == BinaryFamily && fa == ApproxNumeric) then false
    else if fa == Guid || fb == Guid then false
    else if fa == Temporal then DayCounted(a)
    else if fb == Temporal then DayCounted(b)
    else true
  }

  /** `implicit_result_type`; `None` for a clash. */
  function ImplicitResultType(a: TypeInfo, b: TypeInfo): Option<TypeInfo> {
    if !PairConverts(a.ty, b.ty) then None
    else
      var ty := CommonType(a.ty, b.ty);
      Some(TypeInfo(ty, a.nullable || b.nullable,
                    if IsString(ty) then if a.collation.Some? then a.collation else b.collation else None))
  }

  // ----- conversions the binder inserts -----

  function IntegerDigitsOf(t: SqlType): Option<nat> {
    match t
    case Bit => Some(1)
    case TinyInt => Some(3)
    case SmallInt => Some(5)
    case Int => Some(10)
    case BigInt => Some(19)
    case _ => None
  }

  const MONEY_INTEGRAL_DIGITS: nat := 15
  const SMALLMONEY_INTEGRAL_DIGITS: nat := 6
  const MONEY_SCALE: nat := 4

  /** An exact numeric of at least `integral` digits before the point and `scale` after. */
  predicate ExactHolds(t: SqlType, integral: nat, scale: nat) {
    IsExactNumeric(t) && t.precision >= t.scale + integral && t.scale >= scale
  }

  function BytesPerChar(t: SqlType): nat {
    if t.NChar? || t.NVarChar? then 2 else 1
  }

  predicate StringHolds(to: SqlType, from: SqlType)
    requires IsString(to) && IsString(from)
  {
    match (to.len, from.len)
    case (Max, _) => true
    case (Fixed(_), Max) => false
    case (Fixed(mine), Fixed(theirs)) => mine >= theirs && mine * BytesPerChar(to) >= theirs * BytesPerChar(from)
  }

  /** `implicit_conversion_is_lossless`. */
  predicate Lossless(from: SqlType, to: SqlType) {
    if from == to then true
    else if IntegerDigitsOf(from).Some? then
      var f := IntegerDigitsOf(from).value;
      if IntegerDigitsOf(to).Some? then f <= IntegerDigitsOf(to).value
      else if to.Float? || to.Money? then f <= 10
      else if to.Real? || to.SmallMoney? then f <= 5
      else ExactHolds(to, f, 0)
    else if IsExactNumeric(from) then
      var integral := SaturatingSub(from.precision, from.scale);
      if to.Money? then integral <= MONEY_INTEGRAL_DIGITS && from.scale <= MONEY_SCALE
      else if to.SmallMoney? then integral <= SMALLMONEY_INTEGRAL_DIGITS && from.scale <= MONEY_SCALE
      else ExactHolds(to, integral, from.scale)
    else if from.Money? then ExactHolds(to, MONEY_INTEGRAL_DIGITS, MONEY_SCALE)
    else if from.SmallMoney? then to.Money? || ExactHolds(to, SMALLMONEY_INTEGRAL_DIGITS, MONEY_SCALE)
    else if from.Real? then to.Float?
    else if from.Date? then to.DateTime2? || to.DateTimeOffset?
    else if from.SmallDateTime? then to.DateTime? || to.DateTime2?
    else if from.Time? then (to.Time? || to.DateTime2?) && to.digits >= from.digits
    else if from.DateTime2? then (to.DateTime2? || to.DateTimeOffset?) && to.digits >= from.digits
    else if from.DateTimeOffset? then to.DateTimeOffset? && to.digits >= from.digits
    else if IsString(from) && IsString(to) then StringHolds(to, from)
    else if (from.Binary? || from.VarBinary?) && (to.Binary? || to.VarBinary?) then
      to.len == Len.Max || (from.len.Fixed? && to.len.n >= from.len.n)
    else false
  }

  /** The type a conversion is announced with. */
  function ConvertedType(from: TypeInfo, target: TypeInfo): TypeInfo {
    TypeInfo(target.ty, from.nullable || !Lossless(from.ty, target.ty), target.collation)
  }

  /** `convert_to`: a conversion, or nothing when the type is already the one wanted. */
  function ConvertTo(e: Expr, target: TypeInfo): Expr {
    if e.ty.ty == target.ty then e else Op(Convert(None, false), [e], ConvertedType(e.ty, target))
  }

  /** What it computes of a value of type `from`. */
  function ConvertValue(sem: Sem, from: TypeInfo, target: TypeInfo, v: Value): Outcome {
    if from.ty == target.ty then Val(v) else ApplyConvert(sem, from, ConvertedType(from, target), None, false, v)
  }

  lemma ConversionMeans(sem: Sem, e: Expr, ty: TypeInfo, env: Env)
    ensures var out := Eval(sem, e, env);
            Eval(sem, Op(Convert(None, false), [e], ty), env)
            == if out.Error? then Error else ApplyConvert(sem, e.ty, ty, None, false, out.v)
  {
    assert EvalAll(sem, [e], env)[0] == Eval(sem, e, env);
    assert Types([e])[0] == e.ty;
  }

  lemma ConvertToMeans(sem: Sem, e: Expr, target: TypeInfo, env: Env)
    ensures var out := Eval(sem, e, env);
            Eval(sem, ConvertTo(e, target), env) == if out.Error? then Error else ConvertValue(sem, e.ty, target, out.v)
  {
    if e.ty.ty != target.ty { ConversionMeans(sem, e, ConvertedType(e.ty, target), env); }
  }
}
