/** Reading the stored text back: the precedence climbing of the parser over the tokens, and that
    it reads the expression the text was written from. */
module StoredReader {
  import opened Options
  import opened StoredText

  // ----- binding powers -----

  const MIN_PREDICATE: nat := 0
  const MIN_VALUE: nat := 17
  const POWER_NOT: nat := 14
  const POWER_COMPARISON: nat := 16
  const POWER_UNARY: nat := 22

  function LeftPower(op: BinaryOperator): nat {
    if op == Or then 10 else if op == And then 12 else if IsComparison(op) then POWER_COMPARISON
    else if IsAdditive(op) then 18 else 20
  }

  function RightPower(op: BinaryOperator): nat {
    LeftPower(op) + 1
  }

  predicate AtSuffix(ts: seq<Token>) {
    ts != [] && (ts[0].KwIs? || ts[0].KwLike? || (ts[0].KwNot? && |ts| > 1 && ts[1].KwLike?))
  }

  /** The left binding power of what the cursor sits on, zero when it is no operator. */
  function HeadPower(ts: seq<Token>): (p: nat)
    ensures p <= 20
  {
    if AtSuffix(ts) then POWER_COMPARISON
    else if ts != [] && ts[0].Operator? then LeftPower(ts[0].op)
    else 0
  }

  /** A search condition, parentheses looked through. */
  predicate IsPredicate(e: Ast) {
    match e
    case Binary(op, _, _) => LeftPower(op) <= POWER_COMPARISON
    case Unary(sign, _) => sign.Not?
    case Paren(inner) => IsPredicate(inner)
    case IsNull(_, _) => true
    case In(_, _, _) => true
    case Like(_, _, _, _) => true
    case Between(_, _, _, _) => true
    case _ => false
  }

  // ----- the parser -----

  type Read = Option<(Ast, seq<Token>)>

  function ParseExpr(ts: seq<Token>, min: nat): (r: Read)
    decreases |ts|, 3
    ensures r.Some? ==> |r.value.1| < |ts|
  {
    match ParsePrefix(ts, min)
    case None => None
    case Some((e, rest)) => ParseLoop(e, rest, min)
  }

  function ParsePrefix(ts: seq<Token>, min: nat): (r: Read)
    decreases |ts|, 2
    ensures r.Some? ==> |r.value.1| < |ts|
  {
    if ts == [] then None
    else if ts[0] == Operator(Sub) then Prefixed(Minus, ParseExpr(ts[1..], POWER_UNARY))
    else if ts[0] == Operator(Add) then Prefixed(Plus, ParseExpr(ts[1..], POWER_UNARY))
    else if ts[0] == Tilde then Prefixed(BitNot, ParseExpr(ts[1..], POWER_UNARY))
    else if ts[0] == KwNot && min <= POWER_NOT then Prefixed(Not, ParseExpr(ts[1..], POWER_NOT))
    else ParsePrimary(ts, min)
  }

  function Prefixed(sign: Sign, r: Read): (p: Read)
    ensures p.Some? == r.Some? && (r.Some? ==> p.value.1 == r.value.1)
  {
    match r
    case None => None
    case Some((e, rest)) => Some((Unary(sign, e), rest))
  }

  /** Parentheses keep the position they stand in: a value under an operator, a predicate where
      one may stand. */
  function ParsePrimary(ts: seq<Token>, min: nat): (r: Read)
    requires ts != []
    decreases |ts|, 1
    ensures r.Some? ==> |r.value.1| < |ts|
  {
    match ts[0]
    case Digits(literal) => Some((Number(literal), ts[1..]))
    case KwNull => Some((NullWord, ts[1..]))
    case WordToken(text) => Some((Word(text), ts[1..]))
    case LP =>
      (match ParseExpr(ts[1..], if min > POWER_COMPARISON then MIN_VALUE else MIN_PREDICATE)
       case None => None
       case Some((e, rest)) => if rest != [] && rest[0] == RP then Some((Paren(e), rest[1..])) else None)
    case _ => None
  }

  function ParseLoop(left: Ast, ts: seq<Token>, min: nat): (r: Read)
    decreases |ts|, 1
    ensures r.Some? ==> |r.value.1| <= |ts|
  {
    if POWER_COMPARISON >= min && AtSuffix(ts) then
      if IsPredicate(left) then None
      else
        match ParseSuffix(left, ts)
        case None => None
        case Some((e, rest)) => ParseLoop(e, rest, min)
    else if ts != [] && ts[0].Operator? && LeftPower(ts[0].op) >= min then
      var op := ts[0].op;
      if IsComparison(op) && IsPredicate(left) then None
      else
        match ParseExpr(ts[1..], RightPower(op))
        case None => None
        case Some((right, rest)) => ParseLoop(Binary(op, left, right), rest, min)
    else Some((left, ts))
  }

  function ParseSuffix(left: Ast, ts: seq<Token>): (r: Read)
    requires AtSuffix(ts)
    decreases |ts|, 0
    ensures r.Some? ==> |r.value.1| < |ts|
  {
    if ts[0].KwIs? then
      if |ts| > 1 && ts[1].KwNull? then Some((IsNull(left, false), ts[2..]))
      else if |ts| > 2 && ts[1].KwNot? && ts[2].KwNull? then Some((IsNull(left, true), ts[3..]))
      else None
    else
      var negated := ts[0].KwNot?;
      match ParseExpr(if negated then ts[2..] else ts[1..], MIN_VALUE)
      case None => None
      case Some((pattern, rest)) =>
        if rest != [] && rest[0].KwEscape? then
          match ParseExpr(rest[1..], MIN_VALUE)
          case None => None
          case Some((escape, rest')) => Some((Like(left, pattern, Some(escape), negated), rest'))
        else Some((Like(left, pattern, None, negated), rest))
  }

  /** `parse_stored_expression`: the whole text, read as a predicate or as a value. */
  function ReadBack(ts: seq<Token>, predicate_: bool): Option<Ast> {
    match ParseExpr(ts, if predicate_ then MIN_PREDICATE else MIN_VALUE)
    case None => None
    case Some((e, rest)) => if rest == [] then Some(e) else None
  }

  // ----- what is read from the text of a normal form -----

  function TreeAt(c: Core, place: Place): Ast
    decreases c, 1
  {
    if Wrapped(c, place) then Paren(TreeOf(c)) else TreeOf(c)
  }

  function TreeOf(c: Core): Ast
    decreases c, 0
  {
    match c
    case CNumber(w) => Paren(if w.negative then Unary(Minus, Number(w.literal)) else Number(w.literal))
    case CWord(text) => Word(text)
    case CNull => NullWord
    case CNegate(inner) => Unary(Minus, TreeAt(inner, InSlot(SignSlot)))
    case CBitNot(inner) => Unary(BitNot, TreeAt(inner, InSlot(SignSlot)))
    case CNot(inner) => Unary(Not, TreeAt(inner, UnderNot))
    case CBinary(op, left, right) => Binary(op, TreeAt(left, LeftPlace(op)), TreeAt(right, RightPlace(op)))
    case CIsNull(inner, negated) => IsNull(TreeAt(inner, InSlot(Comparison)), negated)
    case CLike(inner, pattern, escape) =>
      Like(TreeAt(inner, InSlot(Other)), TreeAt(pattern, InSlot(Other)),
           if escape.Some? then Some(TreeAt(escape.value, InSlot(Other))) else None, false)
  }

  predicate IsCondition(c: Core) {
    c.CNot? || c.CIsNull? || c.CLike? || (c.CBinary? && (IsLogic(c.op) || IsComparison(c.op)))
  }

  /** Values under arithmetic, comparisons and signs, conditions under logic, and numbers as they
      are written. */
  predicate WellFormed(c: Core) {
    match c
    case CNumber(w) => LiteralText(w.literal, w.negative) == Some(w)
    case CWord(_) => true
    case CNull => true
    case CNegate(inner) => WellFormed(inner) && !IsCondition(inner) && !inner.CNumber?
    case CBitNot(inner) => WellFormed(inner) && !IsCondition(inner)
    case CNot(inner) => WellFormed(inner) && IsCondition(inner)
    case CBinary(op, left, right) =>
      Spelled(op) == op && WellFormed(left) && WellFormed(right)
      && IsCondition(left) == IsLogic(op) && IsCondition(right) == IsLogic(op)
    case CIsNull(inner, _) => WellFormed(inner) && !IsCondition(inner)
    case CLike(inner, pattern, escape) =>
      WellFormed(inner) && !IsCondition(inner) && WellFormed(pattern) && !IsCondition(pattern)
      && (escape.Some? ==> WellFormed(escape.value) && !IsCondition(escape.value))
  }

  /** The loosest operator a bare text shows on its left, and on its right. */
  function LeftEdge(c: Core): nat {
    match c
    case CNot(_) => POWER_NOT
    case CBinary(op, _, _) => LeftPower(op)
    case CIsNull(_, _) => POWER_COMPARISON
    case CLike(_, _, _) => POWER_COMPARISON
    case _ => 100
  }

  function RightEdge(c: Core): nat {
    match c
    case CNot(_) => POWER_NOT
    case CBinary(op, _, _) => RightPower(op)
    case CLike(_, _, _) => MIN_VALUE
    case CNegate(_) => POWER_UNARY
    case CBitNot(_) => POWER_UNARY
    case _ => 100
  }

  /** The text fits a position: `min` lets it be read whole, and what follows does not reach in. */
  predicate Fits(c: Core, place: Place, rest: seq<Token>, min: nat) {
    if Wrapped(c, place) then IsCondition(c) ==> min <= POWER_COMPARISON else BareFits(c, rest, min)
  }

  predicate BareFits(c: Core, rest: seq<Token>, min: nat) {
    min <= LeftEdge(c) && HeadPower(rest) < RightEdge(c) && (rest != [] && rest[0] == KwEscape ==> !IsCondition(c))
  }

  lemma {:induction false} TreeCondition(c: Core, place: Place)
    requires WellFormed(c)
    ensures IsPredicate(TreeAt(c, place)) == IsCondition(c)
  {
  }

  /** A read stops where nothing of enough power follows. */
  lemma Stops(e: Ast, rest: seq<Token>, min: nat)
    requires HeadPower(rest) < min
    ensures ParseLoop(e, rest, min) == Some((e, rest))
  {
  }

  /** The operands of an operator fit the places it writes them in. */
  lemma OperandsFit(c: Core, rest: seq<Token>, min: nat)
    requires c.CBinary? && WellFormed(c) && BareFits(c, rest, min)
    ensures forall more :: more != [] && more[0] == Operator(c.op) ==> Fits(c.left, LeftPlace(c.op), more, min)
    ensures Fits(c.right, RightPlace(c.op), rest, RightPower(c.op))
  {
  }

  // ----- the text reads back -----

  /** Reading the text, then going on with what follows it. */
  ghost predicate ReadsAs(text: seq<Token>, tree: Ast, rest: seq<Token>, min: nat) {
    ParseExpr(text + rest, min) == ParseLoop(tree, rest, min)
  }

  lemma WrapReads(text: seq<Token>, tree: Ast, rest: seq<Token>, min: nat)
    requires ReadsAs(text, tree, [RP] + rest, if min > POWER_COMPARISON then MIN_VALUE else MIN_PREDICATE)
    ensures ReadsAs(Wrap(text), Paren(tree), rest, min)
  {
    var ts := Wrap(text) + rest;
    var inner := if min > POWER_COMPARISON then MIN_VALUE else MIN_PREDICATE;
    assert ts[1..] == text + ([RP] + rest);
    LoopAtParen(tree, rest, inner);
    assert ([RP] + rest)[1..] == rest;
    assert ParsePrefix(ts, min) == Some((Paren(tree), rest));
  }

  lemma LoopAtParen(tree: Ast, rest: seq<Token>, min: nat)
    ensures ParseLoop(tree, [RP] + rest, min) == Some((tree, [RP] + rest))
  {
  }

  lemma SignReads(token: Token, sign: Sign, text: seq<Token>, tree: Ast, rest: seq<Token>, min: nat)
    requires (token == Operator(Sub) && sign == Minus) || (token == Tilde && sign == BitNot)
    requires ReadsAs(text, tree, rest, POWER_UNARY)
    ensures ReadsAs([token] + text, Unary(sign, tree), rest, min)
  {
    var ts := [token] + text + rest;
    assert ts[1..] == text + rest;
    Stops(tree, rest, POWER_UNARY);
    assert ParsePrefix(ts, min) == Some((Unary(sign, tree), rest));
  }

  lemma NotReads(text: seq<Token>, tree: Ast, rest: seq<Token>, min: nat)
    requires min <= POWER_NOT && HeadPower(rest) < POWER_NOT && ReadsAs(text, tree, rest, POWER_NOT)
    ensures ReadsAs([KwNot] + text, Unary(Not, tree), rest, min)
  {
    var ts := [KwNot] + text + rest;
    assert ts[1..] == text + rest;
    Stops(tree, rest, POWER_NOT);
    assert ParsePrefix(ts, min) == Some((Unary(Not, tree), rest));
  }

  lemma BinaryReads(op: BinaryOperator, left: seq<Token>, l: Ast, right: seq<Token>, r: Ast, rest: seq<Token>, min: nat)
    requires min <= LeftPower(op) && HeadPower(rest) < RightPower(op) && (IsComparison(op) ==> !IsPredicate(l))
    requires ReadsAs(left, l, [Operator(op)] + (right + rest), min) && ReadsAs(right, r, rest, RightPower(op))
    ensures ReadsAs(left + [Operator(op)] + right, Binary(op, l, r), rest, min)
  {
    var more := [Operator(op)] + (right + rest);
    assert (left + [Operator(op)] + right) + rest == left + more;
    assert more[1..] == right + rest;
    Stops(r, rest, RightPower(op));
  }

  predicate ReadsAlone(token: Token, tree: Ast) {
    match token
    case Digits(literal) => tree == Number(literal)
    case KwNull => tree == NullWord
    case WordToken(text) => tree == Word(text)
    case _ => false
  }

  lemma AtomReads(token: Token, tree: Ast, rest: seq<Token>, min: nat)
    requires ReadsAlone(token, tree)
    ensures ReadsAs([token], tree, rest, min)
  {
    var ts := [token] + rest;
    assert ts[1..] == rest;
    assert ParsePrefix(ts, min) == Some((tree, rest));
  }

  lemma NumberReads(w: Written, rest: seq<Token>, min: nat)
    ensures ReadsAs(NumberTokens(w), TreeOf(CNumber(w)), rest, min)
  {
    var inner := if w.negative then [Operator(Sub), Digits(w.literal)] else [Digits(w.literal)];
    var tree := if w.negative then Unary(Minus, Number(w.literal)) else Number(w.literal);
    var bp := if min > POWER_COMPARISON then MIN_VALUE else MIN_PREDICATE;
    assert NumberTokens(w) == Wrap(inner);
    AtomReads(Digits(w.literal), Number(w.literal), [RP] + rest, POWER_UNARY);
    if w.negative {
      SignReads(Operator(Sub), Minus, [Digits(w.literal)], Number(w.literal), [RP] + rest, bp);
      assert [Operator(Sub)] + [Digits(w.literal)] == inner;
    } else {
      AtomReads(Digits(w.literal), Number(w.literal), [RP] + rest, bp);
    }
    WrapReads(inner, tree, rest, min);
  }

  lemma IsNullReads(text: seq<Token>, tree: Ast, negated: bool, rest: seq<Token>, min: nat)
    requires min <= POWER_COMPARISON && !IsPredicate(tree)
    requires ReadsAs(text, tree, (if negated then [KwIs, KwNot, KwNull] else [KwIs, KwNull]) + rest, min)
    ensures ReadsAs(text + (if negated then [KwIs, KwNot, KwNull] else [KwIs, KwNull]), IsNull(tree, negated), rest, min)
  {
    var suffix := if negated then [KwIs, KwNot, KwNull] else [KwIs, KwNull];
    assert (text + suffix) + rest == text + (suffix + rest);
    assert (suffix + rest)[|suffix|..] == rest;
    assert ParseSuffix(tree, suffix + rest) == Some((IsNull(tree, negated), rest));
  }

  lemma LikeReads(text: seq<Token>, tree: Ast, pattern: seq<Token>, p: Ast, escape: Option<seq<Token>>, e: Ast, rest: seq<Token>, min: nat)
    requires min <= POWER_COMPARISON && !IsPredicate(tree) && HeadPower(rest) < MIN_VALUE && (rest == [] || rest[0] != KwEscape)
    requires var more := if escape.Some? then [KwEscape] + (escape.value + rest) else rest;
             ReadsAs(text, tree, [KwLike] + (pattern + more), min) && ReadsAs(pattern, p, more, MIN_VALUE)
    requires escape.Some? ==> ReadsAs(escape.value, e, rest, MIN_VALUE)
    ensures ReadsAs(text + [KwLike] + pattern + (if escape.Some? then [KwEscape] + escape.value else []),
                    Like(tree, p, if escape.Some? then Some(e) else None, false), rest, min)
  {
    var end := if escape.Some? then [KwEscape] + escape.value else [];
    var more := if escape.Some? then [KwEscape] + (escape.value + rest) else rest;
    assert end + rest == more;
    assert (text + [KwLike] + pattern + end) + rest == text + ([KwLike] + (pattern + more));
    assert ([KwLike] + (pattern + more))[1..] == pattern + more;
    Stops(p, more, MIN_VALUE);
    if escape.Some? {
      assert more[1..] == escape.value + rest;
      Stops(e, rest, MIN_VALUE);
    }
    assert ParseSuffix(tree, [KwLike] + (pattern + more)) == Some((Like(tree, p, if escape.Some? then Some(e) else None, false), rest));
  }

  /** The text of a well-formed normal form, in any place it fits, reads as its tree. */
  lemma {:induction false} TextReads(c: Core, place: Place, rest: seq<Token>, min: nat)
    requires WellFormed(c) && Fits(c, place, rest, min)
    ensures ReadsAs(Text(c, place), TreeAt(c, place), rest, min)
    decreases c, 1
  {
    if Wrapped(c, place) {
      BareReads(c, [RP] + rest, if min > POWER_COMPARISON then MIN_VALUE else MIN_PREDICATE);
      WrapReads(Bare(c), TreeOf(c), rest, min);
    } else {
      BareReads(c, rest, min);
    }
  }

  lemma {:induction false} BareReads(c: Core, rest: seq<Token>, min: nat)
    requires WellFormed(c) && BareFits(c, rest, min)
    ensures ReadsAs(Bare(c), TreeOf(c), rest, min)
    decreases c, 0
  {
    match c
    case CNumber(w) => NumberReads(w, rest, min);
    case CWord(text) => AtomReads(WordToken(text), Word(text), rest, min);
    case CNull => AtomReads(KwNull, NullWord, rest, min);
    case CNegate(inner) => SignTextReads(c, rest, min);
    case CBitNot(inner) => SignTextReads(c, rest, min);
    case CNot(inner) =>
      TextReads(inner, UnderNot, rest, POWER_NOT);
      NotReads(Text(inner, UnderNot), TreeAt(inner, UnderNot), rest, min);
    case CBinary(op, left, right) => BinaryTextReads(c, rest, min);
    case CIsNull(inner, negated) => IsNullTextReads(c, rest, min);
    case CLike(inner, pattern, escape) => LikeTextReads(c, rest, min);
  }

  lemma {:induction false} SignTextReads(c: Core, rest: seq<Token>, min: nat)
    requires (c.CNegate? || c.CBitNot?) && WellFormed(c)
    ensures ReadsAs(Bare(c), TreeOf(c), rest, min)
    decreases c, 0, 0
  {
    var place := InSlot(SignSlot);
    TextReads(c.inner, place, rest, POWER_UNARY);
    if c.CNegate? { SignReads(Operator(Sub), Minus, Text(c.inner, place), TreeAt(c.inner, place), rest, min); }
    else { SignReads(Tilde, BitNot, Text(c.inner, place), TreeAt(c.inner, place), rest, min); }
  }

  lemma {:induction false} BinaryTextReads(c: Core, rest: seq<Token>, min: nat)
    requires c.CBinary? && WellFormed(c) && BareFits(c, rest, min)
    ensures ReadsAs(Bare(c), TreeOf(c), rest, min)
    decreases c, 0, 0
  {
    var op := c.op;
    var left, right := Text(c.left, LeftPlace(op)), Text(c.right, RightPlace(op));
    OperandsFit(c, rest, min);
    TreeCondition(c.left, LeftPlace(op));
    TextReads(c.left, LeftPlace(op), [Operator(op)] + (right + rest), min);
    TextReads(c.right, RightPlace(op), rest, RightPower(op));
    BinaryReads(op, left, TreeAt(c.left, LeftPlace(op)), right, TreeAt(c.right, RightPlace(op)), rest, min);
  }

  lemma {:induction false} IsNullTextReads(c: Core, rest: seq<Token>, min: nat)
    requires c.CIsNull? && WellFormed(c) && BareFits(c, rest, min)
    ensures ReadsAs(Bare(c), TreeOf(c), rest, min)
    decreases c, 0, 0
  {
    var place := InSlot(Comparison);
    TreeCondition(c.inner, place);
    TextReads(c.inner, place, (if c.negated then [KwIs, KwNot, KwNull] else [KwIs, KwNull]) + rest, min);
    IsNullReads(Text(c.inner, place), TreeAt(c.inner, place), c.negated, rest, min);
  }

  lemma {:induction false} LikeTextReads(c: Core, rest: seq<Token>, min: nat)
    requires c.CLike? && WellFormed(c) && BareFits(c, rest, min)
    ensures ReadsAs(Bare(c), TreeOf(c), rest, min)
    decreases c, 0, 0
  {
    var place := InSlot(Other);
    var escape := if c.escape.Some? then Some(Text(c.escape.value, place)) else None;
    var e := if c.escape.Some? then TreeAt(c.escape.value, place) else NullWord;
    var more := if escape.Some? then [KwEscape] + (escape.value + rest) else rest;
    TreeCondition(c.inner, place);
    TextReads(c.inner, place, [KwLike] + (Text(c.pattern, place) + more), min);
    TextReads(c.pattern, place, more, MIN_VALUE);
    if c.escape.Some? { TextReads(c.escape.value, place, rest, MIN_VALUE); }
    LikeReads(Text(c.inner, place), TreeAt(c.inner, place), Text(c.pattern, place), TreeAt(c.pattern, place), escape, e, rest, min);
  }
}
