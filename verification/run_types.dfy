/** The type of a column of a run of set operators: a left-to-right fold of the types of its
    operands, capped at 38 digits without giving up a digit before the point. */
module RunTypes {
  import opened Options
  import opened SqlTypes
  import opened Conversions

  /** How a column of an operand takes part: a bare `NULL` brings its nullability alone, and an
      integer literal the digits it is written with. */
  datatype ColumnView = ColumnView(ty: TypeInfo, bareNull: bool, digits: Option<nat>)

  // ----- the fold -----

  predicate HasExact(es: seq<TypeInfo>) {
    exists i :: 0 <= i < |es| && IsExactNumeric(es[i].ty)
  }

  function Typed(views: seq<ColumnView>): (pool: seq<ColumnView>) {
    if views == [] then []
    else Typed(views[..|views| - 1]) + (if views[|views| - 1].bareNull then [] else [views[|views| - 1]])
  }

  /** Bare `NULL`s are left out while another operand remains. */
  function Pool(views: seq<ColumnView>): (pool: seq<ColumnView>)
    ensures views != [] ==> pool != []
  {
    if Typed(views) == [] then views else Typed(views)
  }

  function Entry(view: ColumnView, exact: bool): TypeInfo {
    if view.digits.Some? && exact && FamilyOf(view.ty.ty) == Integer
    then NewType(Numeric(view.digits.value, 0), view.ty.nullable)
    else view.ty
  }

  function Entries(pool: seq<ColumnView>): (es: seq<TypeInfo>)
    ensures |es| == |pool|
  {
    var exact := exists i :: 0 <= i < |pool| && IsExactNumeric(pool[i].ty.ty);
    seq(|pool|, i requires 0 <= i < |pool| => Entry(pool[i], exact))
  }

  /** The common type of a list, left to right; `None` when two share none. */
  function Fold(es: seq<TypeInfo>): Option<TypeInfo>
    requires es != []
  {
    if |es| == 1 then Some(es[0])
    else
      match Fold(es[..|es| - 1])
      case None => None
      case Some(common) => ImplicitResultType(common, es[|es| - 1])
  }

  function Integral(t: SqlType): nat {
    match PrecisionScale(t)
    case None => 0
    case Some((p, s)) => SaturatingSub(p, s)
  }

  function ScaleOf(t: SqlType): nat {
    match PrecisionScale(t)
    case None => 0
    case Some((_, s)) => s
  }

  function MaxIntegral(es: seq<TypeInfo>): nat {
    if es == [] then 0 else Larger(MaxIntegral(es[..|es| - 1]), Integral(es[|es| - 1].ty))
  }

  function MaxScale(es: seq<TypeInfo>): nat {
    if es == [] then 0 else Larger(MaxScale(es[..|es| - 1]), ScaleOf(es[|es| - 1].ty))
  }

  /** `keep_integral_digits`: past 38 digits, scale is given up. */
  function KeepIntegral(ty: SqlType, es: seq<TypeInfo>): SqlType {
    if !IsExactNumeric(ty) || MaxIntegral(es) + MaxScale(es) <= MAX_PRECISION then ty
    else
      var scale := SaturatingSub(MAX_PRECISION, MaxIntegral(es));
      if ty.Numeric? then Numeric(MAX_PRECISION, scale) else Decimal(MAX_PRECISION, scale)
  }

  predicate AnyNullable(views: seq<ColumnView>) {
    exists i :: 0 <= i < |views| && views[i].ty.nullable
  }

  /** The type of a column of a run. */
  function RunTypeOf(views: seq<ColumnView>): Option<TypeInfo>
    requires views != []
  {
    var es := Entries(Pool(views));
    match Fold(es)
    case None => None
    case Some(common) => Some(common.(ty := KeepIntegral(common.ty, es), nullable := AnyNullable(views)))
  }

  lemma TypedStep(views: seq<ColumnView>, i: nat)
    requires i < |views|
    ensures Typed(views[..i + 1]) == Typed(views[..i]) + (if views[i].bareNull then [] else [views[i]])
  {
    assert views[..i + 1][..i] == views[..i];
  }

  lemma FoldStep(es: seq<TypeInfo>, i: nat)
    requires 1 <= i < |es| && Fold(es[..i]).Some?
    ensures Fold(es[..i + 1]) == ImplicitResultType(Fold(es[..i]).value, es[i])
  {
    assert es[..i + 1][..i] == es[..i];
  }

  /** `run_type`. */
  method RunType(views: seq<ColumnView>) returns (ty: Option<TypeInfo>)
    requires views != []
    ensures ty == RunTypeOf(views)
  {
    var typed: seq<ColumnView> := [];
    assert views[..0] == [];
    for i := 0 to |views|
      invariant typed == Typed(views[..i])
    {
      TypedStep(views, i);
      if !views[i].bareNull { typed := typed + [views[i]]; }
    }
    assert views[..|views|] == views;
    var pool := if typed == [] then views else typed;
    var entries := Entries(pool);
    var common := entries[0];
    assert entries[..1] == [entries[0]];
    for i := 1 to |entries|
      invariant Fold(entries[..i]) == Some(common)
    {
      FoldStep(entries, i);
      var next := ImplicitResultType(common, entries[i]);
      if next.None? {
        FoldClash(entries, i + 1);
        return None;
      }
      common := next.value;
    }
    assert entries[..|entries|] == entries;
    return Some(common.(ty := KeepIntegral(common.ty, entries), nullable := AnyNullable(views)));
  }

  /** A clash is a clash whatever follows. */
  lemma {:induction false} FoldClash(es: seq<TypeInfo>, n: nat)
    requires 1 <= n <= |es| && Fold(es[..n]).None?
    ensures Fold(es).None?
    decreases |es| - n
  {
    if n < |es| {
      ClashStays(es, n);
      FoldClash(es, n + 1);
    } else {
      assert es[..n] == es;
    }
  }

  lemma ClashStays(es: seq<TypeInfo>, n: nat)
    requires 1 <= n < |es| && Fold(es[..n]).None?
    ensures Fold(es[..n + 1]).None?
  {
    assert es[..n + 1][..n] == es[..n];
  }

  // ----- digits -----

  /** A type of exact numbers, with a precision the engine has. */
  predicate IsNumberType(t: SqlType) {
    match PrecisionScale(t)
    case None => false
    case Some((p, s)) => 1 <= p <= MAX_PRECISION && s <= p
  }

  predicate Numbers(es: seq<TypeInfo>) {
    forall i :: 0 <= i < |es| ==> IsNumberType(es[i].ty)
  }

  predicate IsMoney(t: SqlType) {
    t.Money? || t.SmallMoney?
  }

  predicate Moneyless(es: seq<TypeInfo>) {
    forall i :: 0 <= i < |es| ==> !IsMoney(es[i].ty)
  }

  predicate HasNumeric(es: seq<TypeInfo>) {
    exists i :: 0 <= i < |es| && es[i].ty.Numeric?
  }

  /** The digits before the point the fold keeps, were there no cap. Until an exact numeric is
      met, the type of highest precedence replaces the others. */
  function Reach(es: seq<TypeInfo>): nat
    requires es != []
  {
    if |es| == 1 then Integral(es[0].ty)
    else if HasExact(es) then Larger(Reach(es[..|es| - 1]), Integral(es[|es| - 1].ty))
    else Integral(Winner(es))
  }

  /** The type of highest precedence, the first of those. */
  function Winner(es: seq<TypeInfo>): SqlType
    requires es != []
  {
    if |es| == 1 then es[0].ty
    else Stronger(Winner(es[..|es| - 1]), es[|es| - 1].ty)
  }

  lemma HasExactStep(es: seq<TypeInfo>)
    requires es != []
    ensures HasExact(es) <==> HasExact(es[..|es| - 1]) || IsExactNumeric(es[|es| - 1].ty)
    ensures HasNumeric(es) <==> HasNumeric(es[..|es| - 1]) || es[|es| - 1].ty.Numeric?
  {
  }

  /** The type of higher precedence, the first when they are one. */
  function Stronger(a: SqlType, b: SqlType): SqlType {
    if Rank(a) >= Rank(b) then a else b
  }

  /** Two numbers, neither an exact numeric: the one of higher precedence. */
  lemma PairOfNumbers(a: TypeInfo, b: TypeInfo)
    requires IsNumberType(a.ty) && IsNumberType(b.ty) && !IsExactNumeric(a.ty) && !IsExactNumeric(b.ty)
    ensures ImplicitResultType(a, b).Some? && ImplicitResultType(a, b).value.ty == Stronger(a.ty, b.ty)
  {
  }

  lemma StrongerNumber(a: SqlType, b: SqlType)
    requires IsNumberType(a) && IsNumberType(b) && !IsExactNumeric(a) && !IsExactNumeric(b)
    ensures var t := Stronger(a, b);
            IsNumberType(t) && !IsExactNumeric(t) && ScaleOf(t) == Larger(ScaleOf(a), ScaleOf(b))
            && (!IsMoney(a) && !IsMoney(b) ==> Integral(t) == Larger(Integral(a), Integral(b)) && !IsMoney(t))
  {
  }

  /** `t` is the exact numeric that holds both, up to the cap. */
  predicate Merged(t: SqlType, a: SqlType, b: SqlType) {
    var integral, scale := Larger(Integral(a), Integral(b)), Larger(ScaleOf(a), ScaleOf(b));
    IsExactNumeric(t) && t.precision == Smaller(integral + scale, MAX_PRECISION) && t.scale == scale
    && (t.Numeric? <==> a.Numeric? || b.Numeric?)
  }

  /** Two numbers, one of them an exact numeric. */
  lemma PairWithExact(a: TypeInfo, b: TypeInfo)
    requires IsNumberType(a.ty) && IsNumberType(b.ty) && (IsExactNumeric(a.ty) || IsExactNumeric(b.ty))
    ensures ImplicitResultType(a, b).Some? && Merged(ImplicitResultType(a, b).value.ty, a.ty, b.ty)
  {
  }

  lemma {:induction false} WinnerIsNumber(es: seq<TypeInfo>)
    requires es != [] && Numbers(es) && !HasExact(es)
    ensures IsNumberType(Winner(es)) && !IsExactNumeric(Winner(es)) && ScaleOf(Winner(es)) == MaxScale(es)
    ensures Moneyless(es) ==> Integral(Winner(es)) == MaxIntegral(es) && !IsMoney(Winner(es))
    decreases |es|
  {
    assert |es| == 1 ==> es[..0] == [] && MaxScale(es[..0]) == 0 && MaxIntegral(es[..0]) == 0;
    if |es| > 1 {
      HasExactStep(es);
      WinnerIsNumber(es[..|es| - 1]);
      StrongerNumber(Winner(es[..|es| - 1]), es[|es| - 1].ty);
    }
  }

  lemma {:induction false} FoldIsWinner(es: seq<TypeInfo>)
    requires es != [] && Numbers(es) && !HasExact(es)
    ensures Fold(es).Some? && Fold(es).value.ty == Winner(es)
    decreases |es|
  {
    if |es| > 1 {
      HasExactStep(es);
      FoldIsWinner(es[..|es| - 1]);
      WinnerIsNumber(es[..|es| - 1]);
      PairOfNumbers(Fold(es[..|es| - 1]).value, es[|es| - 1]);
    }
  }

  /** What the fold comes to: the largest scale, and the digits it reaches unless the cap is met. */
  lemma {:induction false} FoldDigits(es: seq<TypeInfo>)
    requires es != [] && Numbers(es) && HasExact(es)
    ensures Fold(es).Some? && Reached(Fold(es).value.ty, es)
    decreases |es|
  {
    var front, last := es[..|es| - 1], es[|es| - 1];
    HasExactStep(es);
    if |es| == 1 {
      assert front == [] && MaxScale(front) == 0;
    } else {
      if HasExact(front) {
        FoldDigits(front);
      } else {
        FoldIsWinner(front);
        WinnerIsNumber(front);
      }
      PairWithExact(Fold(front).value, last);
      ReachStep(es, Fold(front).value.ty, Fold(es).value.ty);
    }
  }

  lemma ReachStep(es: seq<TypeInfo>, common: SqlType, t: SqlType)
    requires |es| > 1 && Numbers(es) && HasExact(es) && IsNumberType(common) && Merged(t, common, es[|es| - 1].ty)
    requires var front := es[..|es| - 1]; if HasExact(front) then Reached(common, front) else common == Winner(front)
    ensures Reached(t, es)
  {
    var front, last := es[..|es| - 1], es[|es| - 1];
    HasExactStep(es);
    ScaleBounds(es);
    if !HasExact(front) { WinnerIsNumber(front); }
  }

  predicate Reached(t: SqlType, es: seq<TypeInfo>)
    requires es != []
  {
    IsExactNumeric(t) && IsNumberType(t) && (t.Numeric? <==> HasNumeric(es)) && t.scale == MaxScale(es)
    && t.precision == Smaller(Reach(es) + MaxScale(es), MAX_PRECISION)
  }

  lemma {:induction false} ReachBounds(es: seq<TypeInfo>)
    requires es != []
    ensures Reach(es) <= MaxIntegral(es)
    decreases |es|
  {
    if |es| > 1 {
      if HasExact(es) { ReachBounds(es[..|es| - 1]); }
      else { WinnerBounds(es); }
    }
  }

  lemma {:induction false} WinnerBounds(es: seq<TypeInfo>)
    requires es != []
    ensures Integral(Winner(es)) <= MaxIntegral(es)
    decreases |es|
  {
    if |es| > 1 { WinnerBounds(es[..|es| - 1]); }
  }

  lemma {:induction false} ScaleBounds(es: seq<TypeInfo>)
    requires Numbers(es)
    ensures MaxScale(es) <= MAX_PRECISION && MaxIntegral(es) <= MAX_PRECISION
    decreases |es|
  {
    if es != [] { ScaleBounds(es[..|es| - 1]); }
  }

  // ----- no digit before the point is lost -----

  /** The type a run of these entries takes. */
  function ResultType(es: seq<TypeInfo>): SqlType
    requires es != [] && Fold(es).Some?
  {
    KeepIntegral(Fold(es).value.ty, es)
  }

  lemma {:induction false} MoneylessReach(es: seq<TypeInfo>)
    requires es != [] && Numbers(es) && Moneyless(es)
    ensures Reach(es) == MaxIntegral(es)
    decreases |es|
  {
    if |es| == 1 {
      assert es[..0] == [];
    } else if HasExact(es) {
      MoneylessReach(es[..|es| - 1]);
    } else {
      WinnerIsNumber(es);
    }
  }

  /** The cap on what the fold reached. */
  lemma KeepReached(t: SqlType, es: seq<TypeInfo>)
    requires es != [] && Numbers(es) && Reached(t, es)
    ensures var k := KeepIntegral(t, es);
            IsExactNumeric(k) && IsNumberType(k) && (k.Numeric? <==> HasNumeric(es))
            && k.scale == Smaller(MaxScale(es), SaturatingSub(MAX_PRECISION, MaxIntegral(es)))
            && Integral(k) == if MaxIntegral(es) + MaxScale(es) > MAX_PRECISION then MaxIntegral(es) else Reach(es)
  {
    ScaleBounds(es);
    ReachBounds(es);
    PositiveDigits(es);
  }

  lemma {:induction false} PositiveDigits(es: seq<TypeInfo>)
    requires es != [] && Numbers(es)
    ensures MaxIntegral(es) + MaxScale(es) > 0
    decreases |es|
  {
    if |es| > 1 { PositiveDigits(es[..|es| - 1]); }
  }

  /** The integer type of so many digits. */
  function IntegerOf(digits: nat): SqlType {
    if digits <= 1 then Bit else if digits <= 3 then TinyInt else if digits <= 5 then SmallInt else if digits <= 10 then Int else BigInt
  }

  /** The type a run of exact numerics and integers takes: as many digits before the point as the
      widest entry, the largest scale those leave room for, 38 digits at most. */
  function WidestType(es: seq<TypeInfo>): SqlType {
    var scale := Smaller(MaxScale(es), SaturatingSub(MAX_PRECISION, MaxIntegral(es)));
    if !HasExact(es) then IntegerOf(MaxIntegral(es))
    else if HasNumeric(es) then Numeric(MaxIntegral(es) + scale, scale)
    else Decimal(MaxIntegral(es) + scale, scale)
  }

  /** A run of exact numerics and integers never loses a digit before the point: its type is the
      widest type of its entries. */
  lemma RunKeepsIntegralDigits(es: seq<TypeInfo>)
    requires es != [] && Numbers(es) && Moneyless(es)
    ensures Fold(es).Some? && ResultType(es) == WidestType(es)
  {
    if HasExact(es) {
      FoldDigits(es);
      MoneylessReach(es);
      ReachedIsWidest(Fold(es).value.ty, es);
    } else {
      FoldIsWinner(es);
      WinnerIsWidest(es);
    }
  }

  lemma ReachedIsWidest(t: SqlType, es: seq<TypeInfo>)
    requires es != [] && Numbers(es) && HasExact(es) && Reached(t, es) && Reach(es) == MaxIntegral(es)
    ensures KeepIntegral(t, es) == WidestType(es)
  {
    KeepReached(t, es);
  }

  lemma WinnerIsWidest(es: seq<TypeInfo>)
    requires es != [] && Numbers(es) && Moneyless(es) && !HasExact(es)
    ensures Winner(es) == WidestType(es)
  {
    WinnerIsNumber(es);
    var t := Winner(es);
    assert t == Bit || t == TinyInt || t == SmallInt || t == Int || t == BigInt;
  }

  /** The widest type has the digits before the point of the widest entry, and 38 in all at most. */
  lemma WidestDigits(es: seq<TypeInfo>)
    requires es != [] && Numbers(es) && Moneyless(es)
    ensures IsNumberType(WidestType(es)) && Integral(WidestType(es)) == MaxIntegral(es)
    ensures ScaleOf(WidestType(es)) == Smaller(MaxScale(es), SaturatingSub(MAX_PRECISION, MaxIntegral(es)))
  {
    ScaleBounds(es);
    PositiveDigits(es);
    if !HasExact(es) {
      WinnerIsWidest(es);
      WinnerIsNumber(es);
    }
  }

  lemma {:induction false} MaxBounds(es: seq<TypeInfo>, i: nat)
    requires i < |es|
    ensures Integral(es[i].ty) <= MaxIntegral(es) && ScaleOf(es[i].ty) <= MaxScale(es)
    decreases |es|
  {
    if i < |es| - 1 { MaxBounds(es[..|es| - 1], i); }
  }

  lemma {:induction false} MaxAttained(es: seq<TypeInfo>)
    requires es != []
    ensures exists i :: 0 <= i < |es| && Integral(es[i].ty) == MaxIntegral(es)
    ensures exists i :: 0 <= i < |es| && ScaleOf(es[i].ty) == MaxScale(es)
    decreases |es|
  {
    var n := |es| - 1;
    if n == 0 {
      assert es[..0] == [];
      assert Integral(es[0].ty) == MaxIntegral(es) && ScaleOf(es[0].ty) == MaxScale(es);
    } else {
      MaxAttained(es[..n]);
      var i :| 0 <= i < n && Integral(es[..n][i].ty) == MaxIntegral(es[..n]);
      var j :| 0 <= j < n && ScaleOf(es[..n][j].ty) == MaxScale(es[..n]);
      assert Integral(es[if Integral(es[n].ty) >= MaxIntegral(es[..n]) then n else i].ty) == MaxIntegral(es);
      assert ScaleOf(es[if ScaleOf(es[n].ty) >= MaxScale(es[..n]) then n else j].ty) == MaxScale(es);
    }
  }

  function TypeSet(es: seq<TypeInfo>): set<SqlType> {
    set i | 0 <= i < |es| :: es[i].ty
  }

  lemma AmongMax(es: seq<TypeInfo>, fs: seq<TypeInfo>)
    requires TypeSet(es) <= TypeSet(fs)
    ensures MaxIntegral(es) <= MaxIntegral(fs) && MaxScale(es) <= MaxScale(fs)
    ensures HasExact(es) ==> HasExact(fs)
    ensures HasNumeric(es) ==> HasNumeric(fs)
  {
    forall i | 0 <= i < |es|
      ensures Integral(es[i].ty) <= MaxIntegral(fs) && ScaleOf(es[i].ty) <= MaxScale(fs)
      ensures IsExactNumeric(es[i].ty) ==> HasExact(fs)
      ensures es[i].ty.Numeric? ==> HasNumeric(fs)
    {
      assert es[i].ty in TypeSet(fs);
      var j :| 0 <= j < |fs| && fs[j].ty == es[i].ty;
      MaxBounds(fs, j);
    }
    if es != [] { MaxAttained(es); }
  }

  lemma SameWidest(es: seq<TypeInfo>, fs: seq<TypeInfo>)
    requires TypeSet(es) == TypeSet(fs)
    ensures WidestType(es) == WidestType(fs)
  {
    AmongMax(es, fs);
    AmongMax(fs, es);
  }

  /** The order of the entries does not matter, nor how often each is there. */
  lemma RunOrderIsFree(es: seq<TypeInfo>, fs: seq<TypeInfo>)
    requires es != [] && fs != [] && Numbers(es) && Numbers(fs) && Moneyless(es) && Moneyless(fs)
    requires TypeSet(es) == TypeSet(fs)
    ensures Fold(es).Some? && Fold(fs).Some? && ResultType(es) == ResultType(fs)
  {
    RunKeepsIntegralDigits(es);
    RunKeepsIntegralDigits(fs);
    SameWidest(es, fs);
  }

  // ----- with a money among them -----

  /** The entries before the first exact numeric. */
  function BeforeExact(es: seq<TypeInfo>): (n: nat)
    ensures n <= |es|
    ensures forall i :: 0 <= i < n ==> !IsExactNumeric(es[i].ty)
    ensures n < |es| ==> IsExactNumeric(es[n].ty)
  {
    if es == [] || IsExactNumeric(es[0].ty) then 0 else 1 + BeforeExact(es[1..])
  }

  /** An integer wider than the money that outranks it before the first exact numeric, and than
      everything from there on. */
  predicate Shadowed(es: seq<TypeInfo>) {
    var n := BeforeExact(es);
    exists k :: 0 <= k < n && Integral(es[k].ty) > Integral(Winner(es[..n]))
      && forall j :: n <= j < |es| ==> Integral(es[j].ty) < Integral(es[k].ty)
  }

  /** What the fold reaches, in one line: the winner before the first exact numeric, and every
      entry from there on. */
  predicate Reaches(es: seq<TypeInfo>, n: nat, reach: nat)
    requires n <= |es|
  {
    (n > 0 ==> reach >= Integral(Winner(es[..n])))
    && (forall j :: n <= j < |es| ==> reach >= Integral(es[j].ty))
    && ((n > 0 && reach == Integral(Winner(es[..n]))) || exists j :: n <= j < |es| && reach == Integral(es[j].ty))
  }

  lemma ReachAtFirst(es: seq<TypeInfo>, n: nat)
    requires 1 <= n == |es| - 1 && IsExactNumeric(es[n].ty) && forall i :: 0 <= i < n ==> !IsExactNumeric(es[i].ty)
    ensures Reach(es) == Integral(Winner(es[..n])) || Reach(es) == Integral(es[n].ty)
  {
    var front := es[..n];
    assert HasExact(es) && !HasExact(front);
    assert Reach(front) == Integral(Winner(front));
  }

  lemma ReachesMore(es: seq<TypeInfo>, n: nat, before: nat)
    requires n < |es| - 1 && Reaches(es[..|es| - 1], n, before)
    ensures Reaches(es, n, Larger(before, Integral(es[|es| - 1].ty)))
  {
    var front, last := es[..|es| - 1], |es| - 1;
    assert front[..n] == es[..n];
    if before < Integral(es[last].ty) {
      assert Larger(before, Integral(es[last].ty)) == Integral(es[last].ty);
    } else if j :| n <= j < |front| && before == Integral(front[j].ty) {
      assert before == Integral(es[j].ty);
    }
  }

  lemma {:induction false} ReachIs(es: seq<TypeInfo>, n: nat)
    requires n < |es| && IsExactNumeric(es[n].ty) && forall i :: 0 <= i < n ==> !IsExactNumeric(es[i].ty)
    ensures Reaches(es, n, Reach(es))
    decreases |es|
  {
    assert HasExact(es);
    if |es| == 1 {
      assert Reach(es) == Integral(es[0].ty);
    } else if n == |es| - 1 {
      ReachAtFirst(es, n);
    } else {
      ReachIs(es[..|es| - 1], n);
      ReachesMore(es, n, Reach(es[..|es| - 1]));
    }
  }

  /** Integers and amounts of money alone stay under the cap. */
  lemma {:induction false} NarrowBounds(es: seq<TypeInfo>)
    requires Numbers(es) && !HasExact(es)
    ensures MaxIntegral(es) <= 19 && MaxScale(es) <= 4
    decreases |es|
  {
    if es != [] {
      assert !IsExactNumeric(es[|es| - 1].ty);
      NarrowBounds(es[..|es| - 1]);
    }
  }

  /** Without an exact numeric the run takes the type of its winner. */
  lemma WinnerKeepsDigits(es: seq<TypeInfo>)
    requires es != [] && Numbers(es) && !HasExact(es)
    ensures Fold(es).Some? && ResultType(es) == Winner(es)
    ensures Integral(ResultType(es)) == MaxIntegral(es) <==> !Shadowed(es)
    ensures MaxIntegral(es) + MaxScale(es) <= MAX_PRECISION
  {
    FoldIsWinner(es);
    NarrowBounds(es);
    WinnerIsNumber(es);
    WinnerBounds(es);
    MaxAttained(es);
    assert BeforeExact(es) == |es| && es[..|es|] == es;
    if Shadowed(es) {
      var k :| 0 <= k < |es| && Integral(es[k].ty) > Integral(Winner(es));
      MaxBounds(es, k);
    }
  }

  /** With an exact numeric it takes the digits the fold reached. */
  lemma ExactKeepsDigits(es: seq<TypeInfo>)
    requires Numbers(es) && HasExact(es)
    ensures Fold(es).Some?
    ensures Integral(ResultType(es)) == MaxIntegral(es)
            <==> MaxIntegral(es) + MaxScale(es) > MAX_PRECISION || !Shadowed(es)
  {
    FoldDigits(es);
    KeepReached(Fold(es).value.ty, es);
    var n := BeforeExact(es);
    assert n < |es|;
    ReachIs(es, n);
    ReachBounds(es);
    MaxAttained(es);
    var m :| 0 <= m < |es| && Integral(es[m].ty) == MaxIntegral(es);
    if Shadowed(es) {
      var k :| 0 <= k < n && Integral(es[k].ty) > Integral(Winner(es[..n]))
               && forall j :: n <= j < |es| ==> Integral(es[j].ty) < Integral(es[k].ty);
      MaxBounds(es, k);
    } else if Reach(es) < MaxIntegral(es) {
      assert m < n;
    }
  }

  /** A run of numbers, `money` and `smallmoney` among them, keeps the digits before the point if
      and only if none is shadowed or the cap is met. */
  lemma MoneyRunKeepsDigits(es: seq<TypeInfo>)
    requires es != [] && Numbers(es)
    ensures Fold(es).Some?
    ensures Integral(ResultType(es)) == MaxIntegral(es)
            <==> MaxIntegral(es) + MaxScale(es) > MAX_PRECISION || !Shadowed(es)
  {
    if HasExact(es) { ExactKeepsDigits(es); }
    else { WinnerKeepsDigits(es); }
  }

  /** `bigint` and `money` come to `money`: four digits before the point are lost. */
  lemma MoneyNarrowsBigInt()
    ensures var es := [NewType(BigInt, false), NewType(Money, false)];
            Fold(es).Some? && ResultType(es) == Money && MaxIntegral(es) == 19 && Integral(Money) == 15 && Shadowed(es)
  {
    var a, b := NewType(BigInt, false), NewType(Money, false);
    assert [a, b][..1] == [a] && [a][..0] == [] && [a, b][..2] == [a, b];
    assert Integral(BigInt) == 19 && Integral(Money) == 15;
    assert MaxIntegral([a]) == 19;
    assert MaxIntegral([a, b]) == Larger(MaxIntegral([a, b][..1]), Integral(Money)) == 19;
    FoldPair(a, b);
    PairOfNumbers(a, b);
    MoneyRunKeepsDigits([a, b]);
    NarrowBounds([a, b]);
  }

  /** `bigint`, `money`, `decimal(5,2)` in this order lose four digits before the point. */
  lemma MoneyLosesDigits()
    ensures var es := [NewType(BigInt, false), NewType(Money, false), NewType(Decimal(5, 2), false)];
            Fold(es).Some? && ResultType(es) == Decimal(19, 4) && MaxIntegral(es) == 19
  {
    var a, b, c := NewType(BigInt, false), NewType(Money, false), NewType(Decimal(5, 2), false);
    assert [a, b, c][..2] == [a, b] && [a, b][..1] == [a] && [a][..0] == [];
    assert MaxIntegral([a]) == 19 && MaxScale([a]) == 0;
    assert MaxIntegral([a, b]) == 19 && MaxScale([a, b]) == 4;
    assert MaxIntegral([a, b, c]) == 19 && MaxScale([a, b, c]) == 4;
    FoldPair(a, b);
    PairOfNumbers(a, b);
    FoldTriple(a, b, c);
    PairWithExact(Fold([a, b]).value, c);
  }

  lemma FoldPair(a: TypeInfo, b: TypeInfo)
    ensures Fold([a, b]) == ImplicitResultType(a, b)
  {
    assert [a, b][..1] == [a];
  }

  lemma FoldTriple(a: TypeInfo, b: TypeInfo, c: TypeInfo)
    requires Fold([a, b]).Some?
    ensures Fold([a, b, c]) == ImplicitResultType(Fold([a, b]).value, c)
  {
    assert [a, b, c][..2] == [a, b];
  }

  /** The same three with the `decimal` first do not. */
  lemma MoneyKeepsDigitsLast()
    ensures var es := [NewType(Decimal(5, 2), false), NewType(BigInt, false), NewType(Money, false)];
            Fold(es).Some? && ResultType(es) == Decimal(23, 4)
  {
    var a, b, c := NewType(BigInt, false), NewType(Money, false), NewType(Decimal(5, 2), false);
    assert [c, a, b][..2] == [c, a] && [c, a][..1] == [c] && [c][..0] == [];
    assert MaxIntegral([c]) == 3 && MaxScale([c]) == 2;
    assert MaxIntegral([c, a]) == 19 && MaxScale([c, a]) == 2;
    assert MaxIntegral([c, a, b]) == 19 && MaxScale([c, a, b]) == 4;
    FoldPair(c, a);
    PairWithExact(c, a);
    FoldTriple(c, a, b);
    PairWithExact(Fold([c, a]).value, b);
  }
}
