/** The value of a stored expression, and that its text has it too. */
module StoredValue {
  import opened Options
  import opened StoredText
  import opened StoredReader
  import opened StoredRoundTrip
  import opened DecimalDigits
  import Logic3 = Evaluation

  // ----- the value of a number -----

  /** The number a string of digits writes, zero for what is none. */
  function NumberOf(s: string): nat {
    if AllDigits(s) then ValueOf(s) else 0
  }

  function LiteralValue(literal: Literal): real {
    match literal
    case Integer(digits) => NumberOf(digits) as real
    case Decimal(whole, fraction) => NumberOf(whole + fraction) as real / Pow10(|fraction|) as real
  }

  datatype NumberType = IntType | NumericType(precision: nat, scale: nat)

  /** The digits of a whole part that count: its leading zeros do not. */
  function Counted(whole: string): nat {
    if WithoutLeadingZeros(whole) == "0" then 0 else |WithoutLeadingZeros(whole)|
  }

  /** The type of a literal, its sign aside: `int` while it holds the number, `numeric` beyond. */
  function LiteralType(literal: Literal): NumberType {
    match literal
    case Integer(digits) =>
      if NumberOf(WithoutLeadingZeros(digits)) <= 2147483647 then IntType else NumericType(Counted(digits), 0)
    case Decimal(whole, fraction) =>
      NumericType(if Counted(whole) + |fraction| == 0 then 1 else Counted(whole) + |fraction|, |fraction|)
  }

  /** A typed number. */
  function LiteralQuantity(literal: Literal, negative: bool): Datum {
    Quantity(if negative then -LiteralValue(literal) else LiteralValue(literal), LiteralType(literal))
  }

  function WrittenQuantity(w: Written): Datum {
    LiteralQuantity(w.literal, w.negative)
  }

  lemma {:induction false} LeadingZero(s: string)
    requires AllDigits(s)
    ensures ValueOf(['0'] + s) == ValueOf(s)
    decreases |s|
  {
    if s == [] {
      assert (['0'] + s)[..0] == [];
    } else {
      var n := |s| - 1;
      assert (['0'] + s)[..n + 1] == ['0'] + s[..n];
      LeadingZero(s[..n]);
    }
  }

  /** Leading zeros change no number. */
  lemma {:induction false} TrimKeeps(digits: string, tail: string)
    ensures AllDigits(WithoutLeadingZeros(digits) + tail) <==> AllDigits(digits + tail)
    ensures NumberOf(WithoutLeadingZeros(digits) + tail) == NumberOf(digits + tail)
    decreases |digits|
  {
    if digits == [] {
      assert digits + tail == tail && WithoutLeadingZeros(digits) + tail == ['0'] + tail;
      ZeroBefore(tail);
    } else if digits[0] == '0' {
      TrimKeeps(digits[1..], tail);
      assert digits + tail == ['0'] + (digits[1..] + tail);
      ZeroBefore(digits[1..] + tail);
    }
  }

  lemma ZeroBefore(s: string)
    ensures AllDigits(['0'] + s) <==> AllDigits(s)
    ensures NumberOf(['0'] + s) == NumberOf(s)
  {
    assert forall i :: 0 <= i < |s| ==> s[i] == (['0'] + s)[i + 1];
    if AllDigits(s) { LeadingZero(s); }
  }

  lemma TypeKept(literal: Literal, negative: bool)
    requires LiteralText(literal, negative).Some?
    ensures LiteralType(LiteralText(literal, negative).value.literal) == LiteralType(literal)
  {
    match literal
    case Decimal(whole, fraction) => TrimmedOnce(whole);
    case Integer(digits) =>
      var t := WithoutLeadingZeros(digits);
      TrimmedOnce(digits);
      assert NumberOf(t) == ValueOf(t);
      assert t == "0" ==> ValueOf(t) == 0 by { assert "0"[..0] == []; }
  }

  /** A number as written has the value and the type it was written from. */
  lemma LiteralTextKeeps(literal: Literal, negative: bool)
    requires LiteralText(literal, negative).Some?
    ensures WrittenQuantity(LiteralText(literal, negative).value) == LiteralQuantity(literal, negative)
  {
    TypeKept(literal, negative);
    match literal
    case Decimal(whole, fraction) => TrimKeeps(whole, fraction);
    case Integer(digits) =>
      var t := WithoutLeadingZeros(digits);
      TrimKeeps(digits, []);
      assert digits + [] == digits && t + [] == t;
      assert Pow10(0) == 1;
      assert LiteralValue(Decimal(t, "")) == LiteralValue(Integer(t)) == LiteralValue(literal);
  }

  // ----- the value of an expression -----

  /** A number has a type: the operators may read it, as a division does. */
  datatype Datum = NullDatum | Quantity(x: real, ty: NumberType) | Other(payload: int)

  /** What the words and the operators stand for. */
  datatype Meanings = Meanings(
    word: string -> Datum,
    arith: (BinaryOperator, Datum, Datum) -> Datum,
    negateOther: int -> Datum,
    bitNot: Datum -> Datum,
    compare: (BinaryOperator, Datum, Datum) -> Option<bool>,
    like: (Datum, Datum, Option<Datum>) -> Option<bool>)

  function Opposite(m: Meanings, d: Datum): Datum {
    match d
    case NullDatum => NullDatum
    case Quantity(x, ty) => Quantity(-x, ty)
    case Other(payload) => m.negateOther(payload)
  }

  function NegatedTruth(negated: bool, c: Option<bool>): Option<bool> {
    if negated then Logic3.Not3(c) else c
  }

  predicate AnyEquality(m: Meanings, v: Datum, items: seq<Datum>, truth: Option<bool>) {
    exists i :: 0 <= i < |items| && m.compare(Eq, v, items[i]) == truth
  }

  /** `v IN items`: true when one equals, else unknown when one comparison is. */
  function Among(m: Meanings, v: Datum, items: seq<Datum>): Option<bool> {
    if AnyEquality(m, v, items, Some(true)) then Some(true)
    else if AnyEquality(m, v, items, None) then None
    else Some(false)
  }

  function Value(m: Meanings, e: Ast): Datum {
    match e
    case Number(literal) => LiteralQuantity(literal, false)
    case Word(text) => m.word(text)
    case NullWord => NullDatum
    case Paren(inner) => Value(m, inner)
    case Unary(sign, inner) =>
      if sign.Minus? then Opposite(m, Value(m, inner)) else if sign.BitNot? then m.bitNot(Value(m, inner)) else Value(m, inner)
    case Binary(op, left, right) => m.arith(op, Value(m, left), Value(m, right))
    case _ => NullDatum
  }

  function Values(m: Meanings, es: seq<Ast>): (ds: seq<Datum>)
    ensures |ds| == |es|
    ensures forall i :: 0 <= i < |es| ==> ds[i] == Value(m, es[i])
  {
    seq(|es|, i requires 0 <= i < |es| => Value(m, es[i]))
  }

  function Truth(m: Meanings, e: Ast): Option<bool> {
    match e
    case Paren(inner) => Truth(m, inner)
    case Unary(_, inner) => Logic3.Not3(Truth(m, inner))
    case Binary(op, left, right) =>
      if op == And then Logic3.And3(Truth(m, left), Truth(m, right))
      else if op == Or then Logic3.Or3(Truth(m, left), Truth(m, right))
      else m.compare(Spelled(op), Value(m, left), Value(m, right))
    case IsNull(inner, negated) => Some((Value(m, inner) == NullDatum) != negated)
    case Like(inner, pattern, escape, negated) =>
      NegatedTruth(negated, m.like(Value(m, inner), Value(m, pattern), if escape.Some? then Some(Value(m, escape.value)) else None))
    case In(inner, items, negated) => NegatedTruth(negated, Among(m, Value(m, inner), Values(m, items)))
    case Between(inner, low, high, negated) =>
      NegatedTruth(negated, Logic3.And3(m.compare(Ge, Value(m, inner), Value(m, low)), m.compare(Le, Value(m, inner), Value(m, high))))
    case _ => None
  }

  function CoreValue(m: Meanings, c: Core): Datum {
    match c
    case CNumber(w) => WrittenQuantity(w)
    case CWord(text) => m.word(text)
    case CNegate(inner) => Opposite(m, CoreValue(m, inner))
    case CBitNot(inner) => m.bitNot(CoreValue(m, inner))
    case CBinary(op, left, right) => m.arith(op, CoreValue(m, left), CoreValue(m, right))
    case _ => NullDatum
  }

  function CoreTruth(m: Meanings, c: Core): Option<bool> {
    match c
    case CNot(inner) => Logic3.Not3(CoreTruth(m, inner))
    case CBinary(op, left, right) =>
      if op == And then Logic3.And3(CoreTruth(m, left), CoreTruth(m, right))
      else if op == Or then Logic3.Or3(CoreTruth(m, left), CoreTruth(m, right))
      else m.compare(op, CoreValue(m, left), CoreValue(m, right))
    case CIsNull(inner, negated) => Some((CoreValue(m, inner) == NullDatum) != negated)
    case CLike(inner, pattern, escape) =>
      m.like(CoreValue(m, inner), CoreValue(m, pattern), if escape.Some? then Some(CoreValue(m, escape.value)) else None)
    case _ => None
  }

  /** Signs folded into a number change no value. */
  lemma {:induction false} SignedValue(m: Meanings, e: Ast, negative: bool)
    requires SignedLiteral(e, negative).Some?
    ensures var (literal, folded) := SignedLiteral(e, negative).value;
            Value(m, e) == LiteralQuantity(literal, folded != negative)
    decreases e
  {
    if e.Paren? || (e.Unary? && e.sign.Plus?) { SignedValue(m, e.inner, negative); }
    else if e.Unary? { SignedValue(m, e.inner, !negative); }
  }

  function CoreValues(m: Meanings, cs: seq<Core>): (ds: seq<Datum>)
    ensures |ds| == |cs|
    ensures forall i :: 0 <= i < |cs| ==> ds[i] == CoreValue(m, cs[i])
  {
    seq(|cs|, i requires 0 <= i < |cs| => CoreValue(m, cs[i]))
  }

  lemma AnyStep(m: Meanings, v: Datum, ds: seq<Datum>, truth: Option<bool>)
    requires ds != []
    ensures AnyEquality(m, v, ds, truth) <==> m.compare(Eq, v, ds[0]) == truth || AnyEquality(m, v, ds[1..], truth)
  {
    if i :| 0 <= i < |ds| && m.compare(Eq, v, ds[i]) == truth {
      if i > 0 { assert ds[1..][i - 1] == ds[i]; }
    }
    if i :| 0 <= i < |ds[1..]| && m.compare(Eq, v, ds[1..][i]) == truth { assert ds[i + 1] == ds[1..][i]; }
  }

  lemma AmongStep(m: Meanings, v: Datum, ds: seq<Datum>)
    requires ds != []
    ensures Among(m, v, ds) == Logic3.Or3(Among(m, v, ds[1..]), m.compare(Eq, v, ds[0]))
  {
    AnyStep(m, v, ds, Some(true));
    AnyStep(m, v, ds, None);
    var first := m.compare(Eq, v, ds[0]);
    assert first == None || first == Some(true) || first == Some(false) by {
      if first.Some? { assert first.value || !first.value; }
    }
  }

  /** The chain of `OR` an `IN` is written as, from its end, has its truth value. */
  lemma {:induction false} ChainTruth(m: Meanings, e: Core, items: seq<Core>)
    requires items != []
    ensures CoreTruth(m, NormalIn(e, items)) == Among(m, CoreValue(m, e), CoreValues(m, items))
    decreases |items|
  {
    var v, ds := CoreValue(m, e), CoreValues(m, items);
    assert CoreTruth(m, CBinary(Eq, e, items[0])) == m.compare(Eq, v, ds[0]);
    AmongStep(m, v, ds);
    if |items| > 1 {
      ChainTruth(m, e, items[1..]);
      assert CoreValues(m, items[1..]) == ds[1..];
    }
  }

  /** The normal form has the value of the expression. */
  lemma {:induction false} NormalValue(m: Meanings, e: Ast)
    requires Writable(e) && Sorted(e) && !IsPredicate(e)
    ensures CoreValue(m, Normal(e)) == Value(m, e)
    decreases e
  {
    if e.Number? {
      LiteralTextKeeps(e.literal, false);
    } else if e.Paren? {
      NormalValue(m, e.inner);
    } else if e.Unary? {
      if e.sign.Minus? && SignedLiteral(e.inner, true).Some? {
        var (literal, negative) := SignedLiteral(e.inner, true).value;
        SignedValue(m, e.inner, true);
        LiteralTextKeeps(literal, negative);
      } else {
        NormalValue(m, e.inner);
      }
    } else if e.Binary? {
      NormalValue(m, e.left);
      NormalValue(m, e.right);
    }
  }

  lemma {:induction false} NormalTruth(m: Meanings, e: Ast)
    requires Writable(e) && Sorted(e) && IsPredicate(e)
    ensures CoreTruth(m, Normal(e)) == Truth(m, e)
    decreases e
  {
    if e.Paren? || e.Unary? {
      NormalTruth(m, e.inner);
    } else if e.Binary? && IsLogic(e.op) {
      NormalTruth(m, e.left);
      NormalTruth(m, e.right);
    } else if e.Binary? {
      NormalValue(m, e.left);
      NormalValue(m, e.right);
    } else {
      SuffixTruth(m, e);
    }
  }

  lemma NegatedCore(m: Meanings, negated: bool, c: Core)
    ensures CoreTruth(m, NegatedIf(negated, c)) == NegatedTruth(negated, CoreTruth(m, c))
  {
  }

  lemma SuffixTruth(m: Meanings, e: Ast)
    requires (e.IsNull? || e.Like? || e.In? || e.Between?) && Writable(e) && Sorted(e)
    ensures CoreTruth(m, Normal(e)) == Truth(m, e)
  {
    if e.IsNull? { NormalValue(m, e.inner); }
    else if e.Like? { LikeTruth(m, e); }
    else if e.In? { InTruth(m, e); }
    else { BetweenTruth(m, e); }
  }

  /** A `LIKE` over values that are known. */
  lemma LikeCore(m: Meanings, inner: Core, pattern: Core, escape: Option<Core>, v: Datum, w: Datum, x: Option<Datum>)
    requires CoreValue(m, inner) == v && CoreValue(m, pattern) == w
    requires escape.Some? == x.Some? && (escape.Some? ==> CoreValue(m, escape.value) == x.value)
    ensures CoreTruth(m, CLike(inner, pattern, escape)) == m.like(v, w, x)
  {
  }

  lemma LikeTruth(m: Meanings, e: Ast)
    requires e.Like? && Writable(e) && Sorted(e)
    ensures CoreTruth(m, Normal(e)) == Truth(m, e)
  {
    var inner, pattern := Normal(e.inner), Normal(e.pattern);
    var escape := if e.escape.Some? then Some(Normal(e.escape.value)) else None;
    var x := if e.escape.Some? then Some(Value(m, e.escape.value)) else None;
    NormalValue(m, e.inner);
    NormalValue(m, e.pattern);
    if e.escape.Some? { NormalValue(m, e.escape.value); }
    LikeCore(m, inner, pattern, escape, Value(m, e.inner), Value(m, e.pattern), x);
    NegatedCore(m, e.negated, CLike(inner, pattern, escape));
  }

  lemma InTruth(m: Meanings, e: Ast)
    requires e.In? && Writable(e) && Sorted(e)
    ensures CoreTruth(m, Normal(e)) == Truth(m, e)
  {
    NormalValue(m, e.inner);
    forall i | 0 <= i < |e.items| ensures CoreValue(m, Normal(e.items[i])) == Value(m, e.items[i]) { NormalValue(m, e.items[i]); }
    assert CoreValues(m, NormalAll(e.items)) == Values(m, e.items);
    ChainTruth(m, Normal(e.inner), NormalAll(e.items));
    NegatedCore(m, e.negated, NormalIn(Normal(e.inner), NormalAll(e.items)));
  }

  lemma BetweenTruth(m: Meanings, e: Ast)
    requires e.Between? && Writable(e) && Sorted(e)
    ensures CoreTruth(m, Normal(e)) == Truth(m, e)
  {
    NormalValue(m, e.inner);
    NormalValue(m, e.low);
    NormalValue(m, e.high);
    var above, below := CBinary(Ge, Normal(e.inner), Normal(e.low)), CBinary(Le, Normal(e.inner), Normal(e.high));
    assert CoreTruth(m, CBinary(And, above, below)) == Logic3.And3(CoreTruth(m, above), CoreTruth(m, below));
    NegatedCore(m, e.negated, CBinary(And, above, below));
  }

  lemma {:induction false} TreeSorted(c: Core, place: Place)
    requires WellFormed(c)
    ensures Sorted(TreeAt(c, place)) && IsPredicate(TreeAt(c, place)) == IsCondition(c)
    decreases c
  {
    TreeCondition(c, place);
    match c
    case CNumber(_) =>
    case CWord(_) =>
    case CNull =>
    case CNegate(inner) => TreeSorted(inner, InSlot(SignSlot));
    case CBitNot(inner) => TreeSorted(inner, InSlot(SignSlot));
    case CNot(inner) => TreeSorted(inner, UnderNot);
    case CBinary(op, left, right) =>
      TreeSorted(left, LeftPlace(op));
      TreeSorted(right, RightPlace(op));
    case CIsNull(inner, _) => TreeSorted(inner, InSlot(Comparison));
    case CLike(inner, pattern, escape) =>
      TreeSorted(inner, InSlot(StoredText.Other));
      TreeSorted(pattern, InSlot(StoredText.Other));
      if escape.Some? { TreeSorted(escape.value, InSlot(StoredText.Other)); }
  }

  /** What is read back from the stored text has the value of the expression, three-valued, under
      every meaning of its words and its operators. */
  lemma StoredTextKeepsValue(m: Meanings, e: Ast, back: Ast)
    requires Writable(e) && Sorted(e) && Writable(back) && Sorted(back) && IsPredicate(back) == IsPredicate(e) && Normal(back) == Normal(e)
    ensures if IsPredicate(e) then Truth(m, back) == Truth(m, e) else Value(m, back) == Value(m, e)
  {
    if IsPredicate(e) {
      NormalTruth(m, e);
      NormalTruth(m, back);
    } else {
      NormalValue(m, e);
      NormalValue(m, back);
    }
  }

  /** The whole of it: the text of a stored expression reads back to one of the same normal form,
      the same text and the same value. */
  lemma StoredTextIsFaithful(m: Meanings, e: Ast) returns (back: Ast)
    requires Writable(e) && Sorted(e)
    ensures NormalizedText(e).Some? && ReadBack(NormalizedText(e).value, IsPredicate(e)) == Some(back)
    ensures Writable(back) && Normal(back) == Normal(e) && NormalizedText(back) == NormalizedText(e)
    ensures if IsPredicate(e) then Truth(m, back) == Truth(m, e) else Value(m, back) == Value(m, e)
  {
    back := StoredTextRoundTrips(e);
    NormalIsOk(e);
    TreeSorted(Normal(e), InSlot(Top));
    StoredTextKeepsValue(m, e, back);
  }
}
