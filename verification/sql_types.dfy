module Options {
  datatype Option<+T> = None | Some(value: T)
}

/** The scalar types of the engine, and what the binder reads off them. */
module SqlTypes {
  import opened Options

  /** The length of a character or binary type. */
  datatype Len = Fixed(n: nat) | Max

  datatype SqlType =
    | Bit | TinyInt | SmallInt | Int | BigInt
    | Decimal(precision: nat, scale: nat)
    | Numeric(precision: nat, scale: nat)
    | Float | Real | Money | SmallMoney
    | Char(len: Len) | VarChar(len: Len) | NChar(len: Len) | NVarChar(len: Len)
    | Binary(len: Len) | VarBinary(len: Len)
    | Date | Time(digits: nat) | DateTime | SmallDateTime
    | DateTime2(digits: nat) | DateTimeOffset(digits: nat)
    | UniqueIdentifier

  datatype Family =
    | BitFamily | Integer | ExactNumeric | ApproxNumeric | MoneyFamily
    | Character | BinaryFamily | Temporal | Guid

  /** The type of a column or an expression; a collation is an opaque number. */
  datatype TypeInfo = TypeInfo(ty: SqlType, nullable: bool, collation: Option<nat>)

  const DEFAULT_COLLATION: nat := 0

  predicate IsString(t: SqlType) {
    t.Char? || t.VarChar? || t.NChar? || t.NVarChar?
  }

  predicate IsExactNumeric(t: SqlType) {
    t.Decimal? || t.Numeric?
  }

  function FamilyOf(t: SqlType): Family {
    match t
    case Bit => BitFamily
    case TinyInt | SmallInt | Int | BigInt => Integer
    case Decimal(_, _) | Numeric(_, _) => ExactNumeric
    case Float | Real => ApproxNumeric
    case Money | SmallMoney => MoneyFamily
    case Char(_) | VarChar(_) | NChar(_) | NVarChar(_) => Character
    case Binary(_) | VarBinary(_) => BinaryFamily
    case UniqueIdentifier => Guid
    case _ => Temporal
  }

  /** `TypeInfo::new`: a string takes the default collation, another type none. */
  function NewType(t: SqlType, nullable: bool): TypeInfo {
    TypeInfo(t, nullable, if IsString(t) then Some(DEFAULT_COLLATION) else None)
  }
}
