/** The stored text round-trips: it reads back to the expression it was written from up to its
    normal form, writes back as itself, and has the same three-valued value. */
module StoredRoundTrip {
  import opened Options
  import opened StoredText
  import opened StoredReader

  // ----- the normal form of what is read -----

  lemma {:induction false} TrimmedOnce(digits: string)
    ensures WithoutLeadingZeros(WithoutLeadingZeros(digits)) == WithoutLeadingZeros(digits)
    decreases |digits|
  {
    if digits != [] && digits[0] == '0' { TrimmedOnce(digits[1..]); }
    assert "0"[1..] == [];
    assert WithoutLeadingZeros([]) == "0";
  }

  /** A number is written as it is written. */
  lemma LiteralTextOnce(literal: Literal, negative: bool)
    requires LiteralText(literal, negative).Some?
    ensures var w := LiteralText(literal, negative).value; LiteralText(w.literal, w.negative) == Some(w)
  {
    match literal
    case Integer(digits) => TrimmedOnce(digits);
    case Decimal(whole, _) => TrimmedOnce(whole);
  }

  lemma {:induction false} SignedEither(e: Ast, a: bool, b: bool)
    ensures SignedLiteral(e, a).Some? == SignedLiteral(e, b).Some?
    decreases e
  {
    if e.Paren? { SignedEither(e.inner, a, b); }
    if e.Unary? && e.sign.Plus? { SignedEither(e.inner, a, b); }
    if e.Unary? && e.sign.Minus? { SignedEither(e.inner, !a, !b); }
  }

  lemma {:induction false} NumberIsSigned(e: Ast, negative: bool)
    requires Writable(e) && Normal(e).CNumber?
    ensures SignedLiteral(e, negative).Some?
    decreases e
  {
    if e.Paren? || (e.Unary? && e.sign.Plus?) { NumberIsSigned(e.inner, negative); }
    else if e.Unary? { SignedEither(e.inner, true, !negative); }
  }

  lemma {:induction false} NotSigned(c: Core, place: Place, negative: bool)
    requires WellFormed(c) && !c.CNumber?
    ensures SignedLiteral(TreeAt(c, place), negative).None?
    decreases c
  {
    if c.CNegate? { NotSigned(c.inner, InSlot(SignSlot), !negative); }
  }

  lemma NumberTree(c: Core)
    requires c.CNumber? && WellFormed(c)
    ensures Writable(TreeOf(c)) && Normal(TreeOf(c)) == c
  {
    var number := Number(c.written.literal);
    assert SignedLiteral(number, true) == Some((c.written.literal, true));
    var inner := TreeOf(c).inner;
    assert Writable(inner) && Normal(inner) == c;
  }

  /** What is read from the text of a normal form has that normal form. */
  lemma {:induction false} TreeNormal(c: Core, place: Place)
    requires WellFormed(c)
    ensures Writable(TreeAt(c, place)) && Normal(TreeAt(c, place)) == c
    decreases c, 1
  {
    match c
    case CNumber(_) => NumberTree(c);
    case CWord(_) =>
    case CNull =>
    case CNegate(inner) =>
      NotSigned(inner, InSlot(SignSlot), true);
      TreeNormal(inner, InSlot(SignSlot));
    case CBitNot(inner) => TreeNormal(inner, InSlot(SignSlot));
    case CNot(inner) => TreeNormal(inner, UnderNot);
    case CBinary(op, left, right) => BinaryTreeNormal(c);
    case CIsNull(inner, _) => TreeNormal(inner, InSlot(Comparison));
    case CLike(inner, pattern, escape) => LikeTreeNormal(c);
  }

  lemma {:induction false} BinaryTreeNormal(c: Core)
    requires WellFormed(c) && c.CBinary?
    ensures Writable(TreeOf(c)) && Normal(TreeOf(c)) == c
    decreases c, 0
  {
    TreeNormal(c.left, LeftPlace(c.op));
    TreeNormal(c.right, RightPlace(c.op));
  }

  lemma {:induction false} LikeTreeNormal(c: Core)
    requires WellFormed(c) && c.CLike?
    ensures Writable(TreeOf(c)) && Normal(TreeOf(c)) == c
    decreases c, 0
  {
    TreeNormal(c.inner, InSlot(Other));
    TreeNormal(c.pattern, InSlot(Other));
    if c.escape.Some? { TreeNormal(c.escape.value, InSlot(Other)); }
  }

  // ----- the expressions that are stored -----

  /** Values under arithmetic, comparisons and signs, conditions under logic. */
  predicate Sorted(e: Ast) {
    match e
    case Number(_) => true
    case Word(_) => true
    case NullWord => true
    case Paren(inner) => Sorted(inner)
    case Unary(sign, inner) => Sorted(inner) && IsPredicate(inner) == sign.Not?
    case Binary(op, left, right) =>
      Sorted(left) && Sorted(right) && IsPredicate(left) == IsLogic(op) && IsPredicate(right) == IsLogic(op)
    case IsNull(inner, _) => Sorted(inner) && !IsPredicate(inner)
    case Like(inner, pattern, escape, _) =>
      Sorted(inner) && !IsPredicate(inner) && Sorted(pattern) && !IsPredicate(pattern)
      && (escape.Some? ==> Sorted(escape.value) && !IsPredicate(escape.value))
    case In(inner, items, _) =>
      Sorted(inner) && !IsPredicate(inner) && forall i :: 0 <= i < |items| ==> Sorted(items[i]) && !IsPredicate(items[i])
    case Between(inner, low, high, _) =>
      Sorted(inner) && !IsPredicate(inner) && Sorted(low) && !IsPredicate(low) && Sorted(high) && !IsPredicate(high)
  }

  /** The normal form of a stored expression is well formed, and a condition where it is one. */
  ghost predicate NormalOk(e: Ast)
    requires Writable(e)
  {
    WellFormed(Normal(e)) && IsCondition(Normal(e)) == IsPredicate(e)
  }

  lemma {:induction false} NormalInOk(e: Core, items: seq<Core>)
    requires items != [] && WellFormed(e) && !IsCondition(e)
    requires forall i :: 0 <= i < |items| ==> WellFormed(items[i]) && !IsCondition(items[i])
    ensures WellFormed(NormalIn(e, items)) && IsCondition(NormalIn(e, items))
    decreases |items|
  {
    if |items| > 1 { NormalInOk(e, items[1..]); }
  }

  lemma {:induction false} NormalIsOk(e: Ast)
    requires Writable(e) && Sorted(e)
    ensures NormalOk(e)
    decreases e, 2
  {
    if e.Number? {
      LiteralTextOnce(e.literal, false);
    } else if e.Paren? {
      NormalIsOk(e.inner);
    } else if e.Unary? {
      UnaryIsOk(e);
    } else if e.Binary? {
      NormalIsOk(e.left);
      NormalIsOk(e.right);
    } else if !e.Word? && !e.NullWord? {
      SuffixIsOk(e);
    }
  }

  lemma {:induction false} SuffixIsOk(e: Ast)
    requires (e.IsNull? || e.Like? || e.In? || e.Between?) && Writable(e) && Sorted(e)
    ensures NormalOk(e)
    decreases e, 1
  {
    if e.Like? {
      NormalIsOk(e.inner);
      NormalIsOk(e.pattern);
      if e.escape.Some? { NormalIsOk(e.escape.value); }
    } else if e.In? {
      InIsOk(e);
    } else if e.Between? {
      BetweenIsOk(e);
    } else {
      NormalIsOk(e.inner);
    }
  }

  lemma {:induction false} InIsOk(e: Ast)
    requires e.In? && Writable(e) && Sorted(e)
    ensures NormalOk(e)
    decreases e, 0
  {
    NormalIsOk(e.inner);
    forall i | 0 <= i < |e.items| ensures NormalOk(e.items[i]) { NormalIsOk(e.items[i]); }
    NormalInOk(Normal(e.inner), NormalAll(e.items));
  }

  lemma {:induction false} BetweenIsOk(e: Ast)
    requires e.Between? && Writable(e) && Sorted(e)
    ensures NormalOk(e)
    decreases e, 0
  {
    NormalIsOk(e.inner);
    NormalIsOk(e.low);
    NormalIsOk(e.high);
    RangeIsOk(Normal(e.inner), Normal(e.low), Normal(e.high));
  }

  lemma RangeIsOk(e: Core, low: Core, high: Core)
    requires WellFormed(e) && !IsCondition(e) && WellFormed(low) && !IsCondition(low) && WellFormed(high) && !IsCondition(high)
    ensures WellFormed(CBinary(And, CBinary(Ge, e, low), CBinary(Le, e, high)))
  {
    assert WellFormed(CBinary(Ge, e, low)) && WellFormed(CBinary(Le, e, high));
  }

  lemma {:induction false} UnaryIsOk(e: Ast)
    requires e.Unary? && Writable(e) && Sorted(e)
    ensures NormalOk(e)
    decreases e, 0
  {
    if e.sign.Minus? && SignedLiteral(e.inner, true).Some? {
      var (literal, negative) := SignedLiteral(e.inner, true).value;
      LiteralTextOnce(literal, negative);
    } else {
      NormalIsOk(e.inner);
      if e.sign.Minus? && Normal(e.inner).CNumber? { NumberIsSigned(e.inner, true); }
    }
  }

  // ----- round trip -----

  /** The text of a stored expression reads back, whole, to an expression of the same normal form,
      whose text is the same text. */
  lemma StoredTextRoundTrips(e: Ast) returns (back: Ast)
    requires Writable(e) && Sorted(e)
    ensures NormalizedText(e).Some? && ReadBack(NormalizedText(e).value, IsPredicate(e)) == Some(back)
    ensures Writable(back) && Normal(back) == Normal(e)
    ensures NormalizedText(back) == NormalizedText(e)
    ensures back == Paren(TreeAt(Normal(e), InSlot(Top)))
  {
    var c := Normal(e);
    NormalIsOk(e);
    WriteIsText(e, Top);
    var text := Text(c, InSlot(Top));
    back := Paren(TreeAt(c, InSlot(Top)));
    var min := if IsPredicate(e) then MIN_PREDICATE else MIN_VALUE;
    TextReads(c, InSlot(Top), [RP], min);
    assert [RP] + [] == [RP];
    WrapReads(text, TreeAt(c, InSlot(Top)), [], min);
    assert Wrap(text) + [] == Wrap(text);
    TreeNormal(c, InSlot(Top));
    WriteIsText(back, Top);
  }
}
