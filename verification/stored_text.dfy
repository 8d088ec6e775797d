/** The normalised text of a stored expression: which parentheses it is written with, and the
    normal form it stands for. The text is a list of tokens. */
module StoredText {
  import opened Options
  import DecimalDigits

  datatype BinaryOperator = Or | And | Eq | Ne | Lt | Le | Gt | Ge | NotLt | NotGt | Add | Sub | BitAnd | BitOr | BitXor | Mul | Div | Mod

  datatype Literal = Integer(digits: string) | Decimal(whole: string, fraction: string)

  datatype Sign = Plus | Minus | BitNot | Not

  /** An expression as parsed: a word is a column, a string, a binary or a variable. */
  datatype Ast =
    | Number(literal: Literal)
    | Word(text: string)
    | NullWord
    | Paren(inner: Ast)
    | Unary(sign: Sign, inner: Ast)
    | Binary(op: BinaryOperator, left: Ast, right: Ast)
    | IsNull(inner: Ast, negated: bool)
    | Like(inner: Ast, pattern: Ast, escape: Option<Ast>, negated: bool)
    | In(inner: Ast, items: seq<Ast>, negated: bool)
    | Between(inner: Ast, low: Ast, high: Ast, negated: bool)

  datatype Token =
    | LP | RP | Tilde | Operator(op: BinaryOperator)
    | KwNot | KwIs | KwNull | KwLike | KwEscape
    | Digits(literal: Literal) | WordToken(text: string)

  // ----- kinds of operators -----

  predicate IsLogic(op: BinaryOperator) {
    op.Or? || op.And?
  }

  predicate IsComparison(op: BinaryOperator) {
    op.Eq? || op.Ne? || op.Lt? || op.Le? || op.Gt? || op.Ge? || op.NotLt? || op.NotGt?
  }

  predicate IsAdditive(op: BinaryOperator) {
    op.Add? || op.Sub? || op.BitAnd? || op.BitOr? || op.BitXor?
  }

  /** `!<` is written `>=` and `!>` is written `<=`. */
  function Spelled(op: BinaryOperator): BinaryOperator {
    match op
    case NotLt => Ge
    case NotGt => Le
    case other => other
  }

  // ----- numbers -----

  function WithoutLeadingZeros(digits: string): (t: string)
    ensures t != []
  {
    if digits == [] then "0"
    else if digits[0] == '0' then WithoutLeadingZeros(digits[1..])
    else digits
  }

  predicate AllDigits(s: string) {
    forall i :: 0 <= i < |s| ==> '0' <= s[i] <= '9'
  }

  function ValueOf(s: string): nat
    requires AllDigits(s)
  {
    if s == [] then 0 else 10 * ValueOf(s[..|s| - 1]) + (s[|s| - 1] as int - '0' as int)
  }

  /** A number as written: its sign and its literal. */
  datatype Written = Written(negative: bool, literal: Literal)

  /** `integer_text`: an integer `int` does not hold gets a final point; `None` past 38 digits. */
  function IntegerText(digits: string, negative: bool): Option<Written> {
    var t := WithoutLeadingZeros(digits);
    if |t| > 38 || !AllDigits(t) then None
    else
      var value := ValueOf(t);
      var limit := if negative then 2147483648 else 2147483647;
      Some(Written(negative && value != 0, if value > limit then Decimal(t, "") else Integer(t)))
  }

  /** `decimal_text`. */
  function DecimalText(whole: string, fraction: string, negative: bool): Written {
    Written(negative, Decimal(WithoutLeadingZeros(whole), fraction))
  }

  function LiteralText(literal: Literal, negative: bool): Option<Written> {
    match literal
    case Integer(digits) => IntegerText(digits, negative)
    case Decimal(whole, fraction) => Some(DecimalText(whole, fraction, negative))
  }

  /** `signed_literal`: the number an expression is once its signs are folded. */
  function SignedLiteral(e: Ast, negative: bool): Option<(Literal, bool)> {
    match e
    case Paren(inner) => SignedLiteral(inner, negative)
    case Unary(sign, inner) =>
      if sign.Plus? then SignedLiteral(inner, negative)
      else if sign.Minus? then SignedLiteral(inner, !negative)
      else None
    case Number(literal) => Some((literal, negative))
    case _ => None
  }

  function NumberTokens(w: Written): seq<Token> {
    if w.negative then [LP, Operator(Sub), Digits(w.literal), RP] else [LP, Digits(w.literal), RP]
  }

  // ----- writing -----

  /** Where an expression is written. */
  datatype Slot = Top | Comparison | Additive | Multiplicative | SignSlot | Logic | Other

  function Wrap(ts: seq<Token>): seq<Token> {
    [LP] + ts + [RP]
  }

  /** `in_as_chain`: `e = in OR … OR e = i1`, by recursion on the items from the first. */
  function InChain(e: Ast, items: seq<Ast>): (c: Ast)
    requires items != []
  {
    if |items| == 1 then Binary(Eq, e, items[0])
    else Binary(Or, InChain(e, items[1..]), Binary(Eq, e, items[0]))
  }

  /** `in_as_chain`, as it is built: the list from its end. */
  method InAsChain(e: Ast, items: seq<Ast>) returns (chain: Option<Ast>)
    ensures chain == if items == [] then None else Some(InChain(e, items))
  {
    if items == [] { return None; }
    var i := |items| - 1;
    var built := Binary(Eq, e, items[i]);
    while i > 0
      invariant 0 <= i < |items| && built == InChain(e, items[i..])
    {
      i := i - 1;
      assert items[i..][1..] == items[i + 1..];
      built := Binary(Or, built, Binary(Eq, e, items[i]));
    }
    assert items[0..] == items;
    return Some(built);
  }

  function Range(e: Ast, low: Ast, high: Ast): Ast {
    Binary(And, Binary(Ge, e, low), Binary(Le, e, high))
  }

  /** `logic_operator`: `AND` or `OR` when the expression is written as one. */
  function LogicOperator(e: Ast): Option<BinaryOperator> {
    match e
    case Paren(inner) => LogicOperator(inner)
    case Unary(sign, inner) => if sign.Plus? then LogicOperator(inner) else None
    case Binary(op, _, _) => if IsLogic(op) then Some(op) else None
    case In(_, items, negated) => if !negated && |items| > 1 then Some(Or) else None
    case Between(_, _, _, negated) => if !negated then Some(And) else None
    case _ => None
  }

  // ----- the normal form -----

  /** What the text stands for: no parentheses, no unary plus, signs folded into numbers, `IN` and
      `BETWEEN` expanded. */
  datatype Core =
    | CNumber(written: Written)
    | CWord(text: string)
    | CNull
    | CNegate(inner: Core)
    | CBitNot(inner: Core)
    | CNot(inner: Core)
    | CBinary(op: BinaryOperator, left: Core, right: Core)
    | CIsNull(inner: Core, negated: bool)
    | CLike(inner: Core, pattern: Core, escape: Option<Core>)

  /** Whether an expression is written: its integers are of 38 digits at most, and no `IN` is
      empty. */
  predicate Writable(e: Ast) {
    match e
    case Number(literal) => LiteralText(literal, false).Some?
    case Word(_) => true
    case NullWord => true
    case Paren(inner) => Writable(inner)
    case Unary(sign, inner) =>
      if sign.Minus? && SignedLiteral(inner, true).Some? then
        var (literal, negative) := SignedLiteral(inner, true).value;
        LiteralText(literal, negative).Some?
      else Writable(inner)
    case Binary(_, left, right) => Writable(left) && Writable(right)
    case IsNull(inner, _) => Writable(inner)
    case Like(inner, pattern, escape, _) => Writable(inner) && Writable(pattern) && (escape.Some? ==> Writable(escape.value))
    case In(inner, items, _) => items != [] && Writable(inner) && forall i :: 0 <= i < |items| ==> Writable(items[i])
    case Between(inner, low, high, _) => Writable(inner) && Writable(low) && Writable(high)
  }

  function NormalIn(e: Core, items: seq<Core>): Core
    requires items != []
  {
    var first := CBinary(Eq, e, items[0]);
    if |items| == 1 then first else CBinary(Or, NormalIn(e, items[1..]), first)
  }

  function NegatedIf(negated: bool, c: Core): Core {
    if negated then CNot(c) else c
  }

  function Normal(e: Ast): Core
    requires Writable(e)
    decreases e, 0
  {
    match e
    case Number(literal) => CNumber(LiteralText(literal, false).value)
    case Word(text) => CWord(text)
    case NullWord => CNull
    case Paren(inner) => Normal(inner)
    case Unary(sign, inner) =>
      if sign.Minus? && SignedLiteral(inner, true).Some? then
        var (literal, negative) := SignedLiteral(inner, true).value;
        CNumber(LiteralText(literal, negative).value)
      else if sign.Plus? then Normal(inner)
      else if sign.Minus? then CNegate(Normal(inner))
      else if sign.BitNot? then CBitNot(Normal(inner))
      else CNot(Normal(inner))
    case Binary(op, left, right) => CBinary(Spelled(op), Normal(left), Normal(right))
    case IsNull(inner, negated) => CIsNull(Normal(inner), negated)
    case Like(inner, pattern, escape, negated) =>
      NegatedIf(negated, CLike(Normal(inner), Normal(pattern), if escape.Some? then Some(Normal(escape.value)) else None))
    case In(inner, items, negated) => NegatedIf(negated, NormalIn(Normal(inner), NormalAll(items)))
    case Between(inner, low, high, negated) =>
      NegatedIf(negated, CBinary(And, CBinary(Ge, Normal(inner), Normal(low)), CBinary(Le, Normal(inner), Normal(high))))
  }

  function NormalAll(es: seq<Ast>): (cs: seq<Core>)
    requires forall i :: 0 <= i < |es| ==> Writable(es[i])
    decreases es, 0
    ensures |cs| == |es|
    ensures forall i :: 0 <= i < |es| ==> cs[i] == Normal(es[i])
  {
    seq(|es|, i requires 0 <= i < |es| => Normal(es[i]))
  }

  // ----- `write` -----

  /** The size of what is written: an `IN` and a `BETWEEN` are written as what they expand to. */
  function Size(e: Ast): nat
    decreases e, 0
  {
    match e
    case Number(_) => 1
    case Word(_) => 1
    case NullWord => 1
    case Paren(inner) => 1 + Size(inner)
    case Unary(_, inner) => 1 + Size(inner)
    case Binary(_, left, right) => 1 + Size(left) + Size(right)
    case IsNull(inner, _) => 1 + Size(inner)
    case Like(inner, pattern, escape, _) => 1 + Size(inner) + Size(pattern) + (if escape.Some? then Size(escape.value) else 0)
    case In(inner, items, _) => 1 + |items| * (2 + Size(inner)) + Sizes(items)
    case Between(inner, low, high, _) => 4 + 2 * Size(inner) + Size(low) + Size(high)
  }

  function Sizes(es: seq<Ast>): nat
    decreases es, 0
  {
    if es == [] then 0 else Size(es[0]) + Sizes(es[1..])
  }

  lemma {:induction false} ChainSize(e: Ast, items: seq<Ast>)
    requires items != []
    ensures Size(InChain(e, items)) < 1 + |items| * (2 + Size(e)) + Sizes(items)
    decreases |items|
  {
    if |items| > 1 {
      ChainSize(e, items[1..]);
      DecimalDigits.OneMoreTime(|items|, 2 + Size(e));
    } else {
      assert items[1..] == [];
    }
  }

  lemma RangeSize(e: Ast, low: Ast, high: Ast)
    ensures Size(Range(e, low, high)) == 3 + 2 * Size(e) + Size(low) + Size(high)
  {
    assert Size(Binary(Ge, e, low)) == 1 + Size(e) + Size(low);
    assert Size(Binary(Le, e, high)) == 1 + Size(e) + Size(high);
  }

  /** `write`: the text of an expression in a slot, `None` for a shape it does not write. */
  function Write(e: Ast, slot: Slot): Option<seq<Token>>
    decreases Size(e), 1
  {
    match e
    case Paren(inner) => Write(inner, slot)
    case Number(literal) =>
      (match LiteralText(literal, false) case None => None case Some(w) => Some(NumberTokens(w)))
    case Word(text) => Some([WordToken(text)])
    case NullWord => Some([KwNull])
    case Unary(sign, inner) =>
      (match sign
       case Plus => Write(inner, slot)
       case Minus =>
         (match SignedLiteral(inner, true)
          case Some((literal, negative)) =>
            (match LiteralText(literal, negative) case None => None case Some(w) => Some(NumberTokens(w)))
          case None =>
            match Write(inner, SignSlot)
            case None => None
            case Some(ts) =>
              var text := [Operator(Sub)] + ts;
              Some(if slot == Top || slot == Other then text else Wrap(text)))
       case BitNot =>
         (match Write(inner, SignSlot)
          case None => None
          case Some(ts) => Some(if slot == SignSlot then Wrap([Tilde] + ts) else [Tilde] + ts))
       case Not =>
         match NegatedText(inner)
         case None => None
         case Some(ts) => Some([KwNot] + ts))
    case Binary(op, left, right) => BinaryText(op, left, right, slot)
    case IsNull(inner, negated) =>
      (match Write(inner, Comparison)
       case None => None
       case Some(ts) => Some(ts + (if negated then [KwIs, KwNot, KwNull] else [KwIs, KwNull])))
    case Like(inner, pattern, escape, negated) =>
      (match (Write(inner, Other), Write(pattern, Other))
       case (Some(a), Some(b)) =>
         var not := if negated then [KwNot] else [];
         (match escape
          case None => Some(not + (a + [KwLike] + b))
          case Some(es) =>
            match Write(es, Other)
            case None => None
            case Some(c) => Some(not + (a + [KwLike] + b + [KwEscape] + c)))
       case _ => None)
    case In(inner, items, negated) =>
      if items == [] then None
      else
        ChainSize(inner, items);
        var chain := InChain(inner, items);
        if negated then
          match NegatedText(chain)
          case None => None
          case Some(ts) => Some([KwNot] + ts)
        else Write(chain, slot)
    case Between(inner, low, high, negated) =>
      var range := Range(inner, low, high);
      RangeSize(inner, low, high);
      if negated then
        match NegatedText(range)
        case None => None
        case Some(ts) => Some([KwNot] + ts)
      else Write(range, slot)
  }

  /** `negated_text`: the operand of `NOT`, between parentheses when it is an `AND` or an `OR`. */
  function NegatedText(e: Ast): Option<seq<Token>>
    decreases Size(e), 2
  {
    match Write(e, Logic)
    case None => None
    case Some(ts) => Some(if LogicOperator(e).Some? then Wrap(ts) else ts)
  }

  /** `binary_text`. */
  function BinaryText(op: BinaryOperator, left: Ast, right: Ast, slot: Slot): Option<seq<Token>>
    decreases 1 + Size(left) + Size(right), 0
  {
    if IsLogic(op) then
      match (Write(left, Logic), Write(right, Logic))
      case (Some(a), Some(b)) =>
        var l := if op == And && LogicOperator(left) == Some(Or) then Wrap(a) else a;
        var child := LogicOperator(right);
        var r := if child.Some? && (child.value == op || op == And) then Wrap(b) else b;
        Some(l + [Operator(op)] + r)
      case _ => None
    else
      var operand := if IsComparison(op) then Comparison else if IsAdditive(op) then Additive else Multiplicative;
      match (Write(left, operand), Write(right, operand))
      case (Some(a), Some(b)) =>
        var text := a + [Operator(Spelled(op))] + b;
        var wrapped := !IsComparison(op)
                       && (slot == Multiplicative || slot == SignSlot || ((slot == Additive || slot == Comparison) && IsAdditive(op)));
        Some(if wrapped then Wrap(text) else text)
      case _ => None
  }

  /** `normalized_text`. */
  function NormalizedText(e: Ast): Option<seq<Token>> {
    match Write(e, Top)
    case None => None
    case Some(ts) => Some(Wrap(ts))
  }

  // ----- the text is a text of the normal form -----

  /** Where a normal form is written: the slots, those of logic told apart by the operator above. */
  datatype Place = InSlot(slot: Slot) | AndLeft | AndRight | OrLeft | OrRight | UnderNot

  predicate IsLogicCore(c: Core) {
    c.CBinary? && IsLogic(c.op)
  }

  /** Whether a normal form is between parentheses where it is written. */
  predicate Wrapped(c: Core, place: Place) {
    match c
    case CNegate(_) => !(place.InSlot? && (place.slot == Top || place.slot == Other))
    case CBitNot(_) => place == InSlot(SignSlot)
    case CBinary(op, _, _) =>
      if IsLogic(op) then
        (place.AndLeft? && op == Or) || place.AndRight? || (place.OrRight? && op == Or) || place.UnderNot?
      else
        !IsComparison(op) && place.InSlot?
        && (place.slot == Multiplicative || place.slot == SignSlot
            || ((place.slot == Additive || place.slot == Comparison) && IsAdditive(op)))
    case _ => false
  }

  /** The places of the operands of an operator. */
  function LeftPlace(op: BinaryOperator): Place {
    if op == And then AndLeft else if op == Or then OrLeft
    else InSlot(if IsComparison(op) then Comparison else if IsAdditive(op) then Additive else Multiplicative)
  }

  function RightPlace(op: BinaryOperator): Place {
    if op == And then AndRight else if op == Or then OrRight else LeftPlace(op)
  }

  function Text(c: Core, place: Place): seq<Token>
    decreases c, 1
  {
    if Wrapped(c, place) then Wrap(Bare(c)) else Bare(c)
  }

  function Bare(c: Core): seq<Token>
    decreases c, 0
  {
    match c
    case CNumber(w) => NumberTokens(w)
    case CWord(text) => [WordToken(text)]
    case CNull => [KwNull]
    case CNegate(inner) => [Operator(Sub)] + Text(inner, InSlot(SignSlot))
    case CBitNot(inner) => [Tilde] + Text(inner, InSlot(SignSlot))
    case CNot(inner) => [KwNot] + Text(inner, UnderNot)
    case CBinary(op, left, right) => Text(left, LeftPlace(op)) + [Operator(op)] + Text(right, RightPlace(op))
    case CIsNull(inner, negated) =>
      Text(inner, InSlot(Comparison)) + (if negated then [KwIs, KwNot, KwNull] else [KwIs, KwNull])
    case CLike(inner, pattern, escape) =>
      Text(inner, InSlot(Other)) + [KwLike] + Text(pattern, InSlot(Other))
      + (if escape.Some? then [KwEscape] + Text(escape.value, InSlot(Other)) else [])
  }

  /** The operands of `AND` and `OR`, and of `NOT`, in the slot they are written in. */
  lemma LogicText(c: Core, place: Place)
    requires !place.InSlot?
    ensures Text(c, InSlot(Logic)) == if IsLogicCore(c) then Bare(c) else Text(c, place)
  {
  }

  lemma {:induction false} LogicOperatorIs(e: Ast)
    requires Writable(e)
    ensures LogicOperator(e) == if IsLogicCore(Normal(e)) then Some(Normal(e).op) else None
    decreases e
  {
    match e
    case Paren(inner) => LogicOperatorIs(inner);
    case Unary(sign, inner) =>
      if sign.Plus? { LogicOperatorIs(inner); }
    case _ =>
  }

  lemma {:induction false} ChainNormal(e: Ast, items: seq<Ast>)
    requires items != []
    ensures Writable(InChain(e, items)) <==> Writable(e) && forall i :: 0 <= i < |items| ==> Writable(items[i])
    ensures Writable(InChain(e, items)) ==> Normal(InChain(e, items)) == NormalIn(Normal(e), NormalAll(items))
    decreases |items|
  {
    var first := Binary(Eq, e, items[0]);
    assert Writable(first) <==> Writable(e) && Writable(items[0]);
    if |items| > 1 {
      ChainNormal(e, items[1..]);
      assert forall i :: 1 <= i < |items| ==> items[i] == items[1..][i - 1];
      if Writable(InChain(e, items)) { assert NormalAll(items)[1..] == NormalAll(items[1..]); }
    }
  }

  ghost predicate WrittenAs(r: Option<seq<Token>>, e: Ast, place: Place) {
    if Writable(e) then r == Some(Text(Normal(e), place)) else r.None?
  }

  lemma OperandsWritten(op: BinaryOperator, left: Ast, right: Ast, slot: Slot)
    requires !IsLogic(op)
    requires WrittenAs(Write(left, LeftPlace(op).slot), left, LeftPlace(op)) && WrittenAs(Write(right, LeftPlace(op).slot), right, LeftPlace(op))
    ensures WrittenAs(BinaryText(op, left, right, slot), Binary(op, left, right), InSlot(slot))
  {
  }

  lemma LeftWritten(op: BinaryOperator, left: Ast)
    requires IsLogic(op) && Writable(left) && Write(left, Logic) == Some(Text(Normal(left), InSlot(Logic)))
    ensures var a := Write(left, Logic).value;
            (if op == And && LogicOperator(left) == Some(Or) then Wrap(a) else a) == Text(Normal(left), LeftPlace(op))
  {
    LogicOperatorIs(left);
    LogicText(Normal(left), LeftPlace(op));
  }

  lemma RightWritten(op: BinaryOperator, right: Ast)
    requires IsLogic(op) && Writable(right) && Write(right, Logic) == Some(Text(Normal(right), InSlot(Logic)))
    ensures var b, child := Write(right, Logic).value, LogicOperator(right);
            (if child.Some? && (child.value == op || op == And) then Wrap(b) else b) == Text(Normal(right), RightPlace(op))
  {
    LogicOperatorIs(right);
    LogicText(Normal(right), RightPlace(op));
  }

  lemma LogicWritten(op: BinaryOperator, left: Ast, right: Ast, slot: Slot)
    requires IsLogic(op)
    requires WrittenAs(Write(left, Logic), left, InSlot(Logic)) && WrittenAs(Write(right, Logic), right, InSlot(Logic))
    ensures WrittenAs(BinaryText(op, left, right, slot), Binary(op, left, right), InSlot(slot))
  {
    if Writable(left) && Writable(right) {
      LeftWritten(op, left);
      RightWritten(op, right);
    }
  }

  lemma NotWritten(e: Ast)
    requires WrittenAs(Write(e, Logic), e, InSlot(Logic))
    ensures WrittenAs(NegatedText(e), e, UnderNot)
  {
    if Writable(e) {
      LogicOperatorIs(e);
      LogicText(Normal(e), UnderNot);
    }
  }

  /** What is written is the text of the normal form, in every slot: the parentheses and the
      spelling of an expression depend on its normal form alone. */
  lemma {:induction false} WriteIsText(e: Ast, slot: Slot)
    ensures WrittenAs(Write(e, slot), e, InSlot(slot))
    decreases Size(e)
  {
    if e.Paren? || (e.Unary? && e.sign.Plus?) {
      WriteIsText(e.inner, slot);
    } else if e.Unary? {
      UnaryIsText(e, slot);
    } else if e.Binary? {
      BinaryIsText(e.op, e.left, e.right, slot);
    } else if e.IsNull? {
      WriteIsText(e.inner, Comparison);
    } else if e.Like? {
      LikeIsText(e, slot);
    } else if e.In? {
      InIsText(e, slot);
    } else if e.Between? {
      BetweenIsText(e, slot);
    }
  }

  lemma {:induction false} InIsText(e: Ast, slot: Slot)
    requires e.In?
    ensures WrittenAs(Write(e, slot), e, InSlot(slot))
    decreases Size(e), 0
  {
    if e.items != [] {
      var chain := InChain(e.inner, e.items);
      ChainSize(e.inner, e.items);
      ChainNormal(e.inner, e.items);
      WriteIsText(chain, if e.negated then Logic else slot);
      if e.negated { NotWritten(chain); }
    }
  }

  lemma {:induction false} BetweenIsText(e: Ast, slot: Slot)
    requires e.Between?
    ensures WrittenAs(Write(e, slot), e, InSlot(slot))
    decreases Size(e), 0
  {
    var range := Range(e.inner, e.low, e.high);
    RangeSize(e.inner, e.low, e.high);
    RangeNormal(e.inner, e.low, e.high);
    WriteIsText(range, if e.negated then Logic else slot);
    if e.negated { NotWritten(range); }
  }

  lemma RangeNormal(e: Ast, low: Ast, high: Ast)
    ensures Writable(Range(e, low, high)) <==> Writable(e) && Writable(low) && Writable(high)
    ensures Writable(Range(e, low, high)) ==>
              Normal(Range(e, low, high)) == CBinary(And, CBinary(Ge, Normal(e), Normal(low)), CBinary(Le, Normal(e), Normal(high)))
  {
    assert Writable(Binary(Ge, e, low)) <==> Writable(e) && Writable(low);
    assert Writable(Binary(Le, e, high)) <==> Writable(e) && Writable(high);
  }

  lemma {:induction false} UnaryIsText(e: Ast, slot: Slot)
    requires e.Unary? && !e.sign.Plus?
    ensures WrittenAs(Write(e, slot), e, InSlot(slot))
    decreases Size(e), 0
  {
    if e.sign.Minus? && SignedLiteral(e.inner, true).Some? {
    } else if e.sign.Not? {
      WriteIsText(e.inner, Logic);
      NotWritten(e.inner);
    } else {
      WriteIsText(e.inner, SignSlot);
    }
  }

  lemma {:induction false} BinaryIsText(op: BinaryOperator, left: Ast, right: Ast, slot: Slot)
    ensures WrittenAs(Write(Binary(op, left, right), slot), Binary(op, left, right), InSlot(slot))
    decreases 1 + Size(left) + Size(right), 0
  {
    var operand := if IsLogic(op) then Logic else LeftPlace(op).slot;
    WriteIsText(left, operand);
    WriteIsText(right, operand);
    if IsLogic(op) { LogicWritten(op, left, right, slot); } else { OperandsWritten(op, left, right, slot); }
  }

  lemma {:induction false} LikeIsText(e: Ast, slot: Slot)
    requires e.Like?
    ensures WrittenAs(Write(e, slot), e, InSlot(slot))
    decreases Size(e), 0
  {
    WriteIsText(e.inner, Other);
    WriteIsText(e.pattern, Other);
    if e.escape.Some? { WriteIsText(e.escape.value, Other); }
    if Writable(e) {
      var a, b := Text(Normal(e.inner), InSlot(Other)), Text(Normal(e.pattern), InSlot(Other));
      var not := if e.negated then [KwNot] else [];
      var text := a + [KwLike] + b;
      if e.escape.Some? {
        var c := Text(Normal(e.escape.value), InSlot(Other));
        assert a + [KwLike] + b + [KwEscape] + c == text + ([KwEscape] + c);
        text := text + ([KwEscape] + c);
      } else {
        assert text + [] == text;
      }
      assert Write(e, slot) == Some(not + text);
      assert [] + text == text;
      var like := CLike(Normal(e.inner), Normal(e.pattern), if e.escape.Some? then Some(Normal(e.escape.value)) else None);
      assert Bare(like) == text && Text(like, UnderNot) == text && Text(like, InSlot(slot)) == text;
      assert Bare(CNot(like)) == [KwNot] + text;
    }
  }
}
