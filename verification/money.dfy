/** A money literal in a stored text: four decimals, the fifth rounding away from zero. */
module MoneyText {
  import opened Options
  import opened StoredText
  import opened DecimalDigits

  // ----- strings of digits -----

  /** One more digit. */
  lemma ValueSnoc(head: string, c: char)
    requires AllDigits(head) && '0' <= c <= '9'
    ensures AllDigits(head + [c]) && ValueOf(head + [c]) == 10 * ValueOf(head) + (c as int - '0' as int)
  {
    assert (head + [c])[..|head|] == head;
  }

  lemma TimesTen(x: nat, p: nat, y: nat, d: nat, q: nat, z: nat)
    requires q == 10 * p && z == 10 * y + d
    ensures 10 * (x * p + y) + d == x * q + z
  {
    assert x * q == 10 * (x * p);
  }

  lemma {:induction false} ValueConcat(a: string, b: string)
    requires AllDigits(a) && AllDigits(b)
    ensures AllDigits(a + b) && ValueOf(a + b) == ValueOf(a) * Pow10(|b|) + ValueOf(b)
    decreases |b|
  {
    if b == [] {
      assert a + b == a;
    } else {
      var front, last := b[..|b| - 1], b[|b| - 1];
      ValueConcat(a, front);
      assert b == front + [last];
      ConcatStep(a, front, last);
    }
  }

  lemma ConcatStep(a: string, front: string, last: char)
    requires AllDigits(a) && AllDigits(front) && AllDigits(a + front) && '0' <= last <= '9'
    requires ValueOf(a + front) == ValueOf(a) * Pow10(|front|) + ValueOf(front)
    ensures AllDigits(a + (front + [last])) && AllDigits(front + [last])
    ensures ValueOf(a + (front + [last])) == ValueOf(a) * Pow10(|front + [last]|) + ValueOf(front + [last])
  {
    assert a + (front + [last]) == (a + front) + [last];
    ValueSnoc(a + front, last);
    ValueSnoc(front, last);
    TimesTen(ValueOf(a), Pow10(|front|), ValueOf(front), last as int - '0' as int, Pow10(|front + [last]|), ValueOf(front + [last]));
  }

  lemma {:induction false} ValueBound(s: string)
    requires AllDigits(s)
    ensures ValueOf(s) < Pow10(|s|)
    decreases |s|
  {
    if s != [] { ValueBound(s[..|s| - 1]); }
  }

  function DigitChar(d: nat): (c: char)
    requires d < 10
    ensures '0' <= c <= '9' && c as int - '0' as int == d
  {
    '0' + d as char
  }

  /** The decimal digits of a number. */
  function DigitsOf(n: nat): (s: string)
    ensures AllDigits(s) && ValueOf(s) == n && |s| == DecimalDigits.Digits(n)
  {
    if n < 10 then
      var s := [DigitChar(n)];
      assert s[..0] == [];
      s
    else
      var front := DigitsOf(n / 10);
      var s := front + [DigitChar(n % 10)];
      assert s[..|s| - 1] == front;
      s
  }

  /** The last four decimal digits. */
  function FourDigits(n: nat): (s: string)
    requires n < 10000
    ensures AllDigits(s) && |s| == 4 && ValueOf(s) == n
  {
    var s := [DigitChar(n / 1000), DigitChar(n / 100 % 10), DigitChar(n / 10 % 10), DigitChar(n % 10)];
    assert s[..3][..2] == s[..2] && s[..2][..1] == s[..1] && s[..1][..0] == [];
    assert ValueOf(s[..1]) == n / 1000;
    assert ValueOf(s[..2]) == n / 100;
    assert ValueOf(s[..3]) == n / 10;
    s
  }

  // ----- the text -----

  /** The sign and the digits a literal is written with. */
  datatype Parts = Parts(negative: bool, whole: string, fraction: string)

  /** The first point, or the length. */
  function PointAt(s: string): (i: nat)
    ensures i <= |s| && (i < |s| ==> s[i] == '.') && forall j :: 0 <= j < i ==> s[j] != '.'
  {
    if s == [] || s[0] == '.' then 0 else 1 + PointAt(s[1..])
  }

  function PartsOf(text: string): Parts {
    var negative := text != [] && text[0] == '-';
    var unsigned := if text != [] && (text[0] == '-' || text[0] == '+') then text[1..] else text;
    var i := PointAt(unsigned);
    Parts(negative, unsigned[..i], if i < |unsigned| then unsigned[i + 1..] else [])
  }

  predicate Accepted(p: Parts) {
    AllDigits(p.whole) && AllDigits(p.fraction) && |p.whole| <= 30
  }

  /** What is printed: an amount in ten-thousandths under its sign. */
  datatype Printed = Printed(negative: bool, scaled: nat)

  const MAX_U128: int := 340282366920938463463374607431768211455

  /** `p.scaled` ten-thousandths are the amount written, rounded to the nearest, ties away from
      zero: the amount is at least `scaled - 1/2` of them and less than `scaled + 1/2`. */
  predicate RoundedHalfAway(p: Parts, scaled: nat)
    requires Accepted(p)
  {
    ValueConcatOk(p);
    var amount, unit := ValueOf(p.whole + p.fraction), Pow10(|p.fraction|);
    (2 * scaled - 1) * unit <= 2 * amount * 10000 < (2 * scaled + 1) * unit
  }

  lemma ValueConcatOk(p: Parts)
    requires Accepted(p)
    ensures AllDigits(p.whole + p.fraction)
  {
  }

  function Zeros(n: nat): (s: string)
    ensures |s| == n && forall i :: 0 <= i < n ==> s[i] == '0'
  {
    seq(n, _ => '0')
  }

  lemma {:induction false} ZerosAreZero(n: nat)
    ensures AllDigits(Zeros(n)) && ValueOf(Zeros(n)) == 0
  {
    if n > 0 {
      ZerosAreZero(n - 1);
      assert Zeros(n)[..n - 1] == Zeros(n - 1);
    }
  }

  lemma Pow10Thirty()
    ensures Pow10(4) == 10000 && Pow10(5) == 100000 && Pow10(30) == 1000000000000000000000000000000
  {
    assert Pow10(5) == 100000 by { assert Pow10(2) == 100 && Pow10(4) == 10000; }
    Pow10Adds(5, 5);
    Pow10Adds(10, 10);
    Pow10Adds(20, 10);
  }

  lemma TimesMonotone(x: int, y: int, m: nat)
    requires x <= y
    ensures x * m <= y * m
  {
  }

  /** The digits past the fourth decide by the first of them; `five` are the digits up to it. */
  lemma RoundsByTheFifth(head: nat, d: nat, five: nat, tail: nat, p: nat)
    requires d < 10 && five == 10 * head + d && tail < p
    ensures var amount, scaled := five * p + tail, head + (if d >= 5 then 1 else 0);
            (20 * scaled - 10) * p <= 2 * amount < (20 * scaled + 10) * p
  {
    var scaled := head + (if d >= 5 then 1 else 0);
    TimesMonotone(20 * scaled - 10, 2 * five, p);
    TimesMonotone(2 * five + 2, 20 * scaled + 10, p);
    assert (2 * five) * p == 2 * (five * p) && (2 * five + 2) * p == 2 * (five * p) + 2 * p;
  }

  lemma CancelsLe(a: int, b: int, m: nat)
    requires m > 0 && a * m <= b * m
    ensures a <= b
  {
    if b < a { TimesMonotone(b + 1, a, m); }
  }

  lemma CancelsLt(a: int, b: int, m: nat)
    requires m > 0 && a * m < b * m
    ensures a < b
  {
    if b <= a { TimesMonotone(b, a, m); }
  }

  // ----- rounding -----

  /** The fraction, padded to five digits. */
  function Kept(fraction: string): (kept: string)
    requires AllDigits(fraction)
    ensures |kept| >= 5 && AllDigits(kept) && fraction <= kept
  {
    fraction + Zeros(if |fraction| < 5 then 5 - |fraction| else 0)
  }

  function RoundsUp(kept: string): bool
    requires |kept| >= 5
  {
    kept[4] >= '5'
  }

  /** The amount in ten-thousandths. */
  function ScaledAmount(p: Parts): nat
    requires Accepted(p)
  {
    var kept := Kept(p.fraction);
    ValueOf(p.whole) * 10000 + ValueOf(kept[..4]) + (if RoundsUp(kept) then 1 else 0)
  }

  /** Zeros after the digits multiply their value. */
  lemma PaddedValue(digits: string, more: nat)
    requires AllDigits(digits)
    ensures AllDigits(digits + Zeros(more)) && ValueOf(digits + Zeros(more)) == ValueOf(digits) * Pow10(more)
  {
    ZerosAreZero(more);
    ValueConcat(digits, Zeros(more));
  }

  lemma PaddedText(whole: string, fraction: string, more: nat)
    ensures whole + (fraction + Zeros(more)) == (whole + fraction) + Zeros(more)
  {
  }

  lemma KeptIs(fraction: string)
    requires AllDigits(fraction)
    ensures Kept(fraction) == fraction + Zeros(|Kept(fraction)| - |fraction|)
  {
  }

  lemma PaddedParts(whole: string, fraction: string, more: nat)
    requires AllDigits(whole + fraction)
    ensures AllDigits(whole + (fraction + Zeros(more)))
    ensures ValueOf(whole + (fraction + Zeros(more))) == ValueOf(whole + fraction) * Pow10(more)
  {
    PaddedText(whole, fraction, more);
    PaddedValue(whole + fraction, more);
  }

  lemma KeptValue(p: Parts)
    requires Accepted(p)
    ensures var kept, more := Kept(p.fraction), |Kept(p.fraction)| - |p.fraction|;
            AllDigits(p.whole + kept) && ValueOf(p.whole + kept) == ValueOf(p.whole + p.fraction) * Pow10(more)
            && Pow10(|kept|) == Pow10(|p.fraction|) * Pow10(more)
  {
    KeptIs(p.fraction);
    ValueConcatOk(p);
    PaddedParts(p.whole, p.fraction, |Kept(p.fraction)| - |p.fraction|);
    Pow10Adds(|p.fraction|, |Kept(p.fraction)| - |p.fraction|);
  }

  lemma AtTheFifth(w: string, kept: string)
    requires |kept| >= 5
    ensures (w + kept[..4]) + [kept[4]] == w + kept[..5]
    ensures (w + kept[..5]) + kept[5..] == w + kept
  {
  }

  /** The padded digits, taken apart: four decimals, the fifth, and the others. */
  lemma KeptParts(p: Parts)
    requires Accepted(p)
    ensures var kept := Kept(p.fraction);
            AllDigits(p.whole + kept[..5]) && AllDigits(p.whole + kept)
            && 0 <= kept[4] as int - '0' as int < 10
            && ValueOf(p.whole + kept[..5]) == 10 * (ValueOf(p.whole) * 10000 + ValueOf(kept[..4])) + (kept[4] as int - '0' as int)
            && ValueOf(kept[5..]) < Pow10(|kept| - 5)
            && ValueOf(p.whole + kept) == ValueOf(p.whole + kept[..5]) * Pow10(|kept| - 5) + ValueOf(kept[5..])
            && Pow10(|kept|) == 100000 * Pow10(|kept| - 5)
  {
    var kept := Kept(p.fraction);
    AtTheFifth(p.whole, kept);
    Pow10Thirty();
    ValueConcat(p.whole, kept[..4]);
    ValueSnoc(p.whole + kept[..4], kept[4]);
    ValueConcat(p.whole + kept[..5], kept[5..]);
    ValueBound(kept[5..]);
    Pow10Adds(5, |kept| - 5);
  }

  lemma PaddedBounds(p: Parts)
    requires Accepted(p)
    ensures var kept, rest := Kept(p.fraction), Pow10(|Kept(p.fraction)| - 5);
            AllDigits(p.whole + kept)
            && (20 * ScaledAmount(p) - 10) * rest <= 2 * ValueOf(p.whole + kept) < (20 * ScaledAmount(p) + 10) * rest
  {
    var kept := Kept(p.fraction);
    KeptParts(p);
    var head, d := ValueOf(p.whole) * 10000 + ValueOf(kept[..4]), kept[4] as int - '0' as int;
    assert ScaledAmount(p) == head + (if d >= 5 then 1 else 0);
    RoundsByTheFifth(head, d, ValueOf(p.whole + kept[..5]), ValueOf(kept[5..]), Pow10(|kept| - 5));
  }

  /** The amount printed is the amount written, rounded half away from zero. */
  lemma ScaledRounds(p: Parts)
    requires Accepted(p)
    ensures RoundedHalfAway(p, ScaledAmount(p))
  {
    var kept := Kept(p.fraction);
    PaddedBounds(p);
    KeptValue(p);
    ValueConcatOk(p);
    assert Pow10(|kept|) == 100000 * Pow10(|kept| - 5) by { KeptParts(p); }
    Rescaled(ScaledAmount(p), ValueOf(p.whole + kept), ValueOf(p.whole + p.fraction), Pow10(|kept| - 5),
             Pow10(|p.fraction|), Pow10(|kept| - |p.fraction|));
  }

  /** The same bounds on the digits as written. */
  lemma Rescaled(scaled: nat, padded: nat, amount: nat, rest: nat, unit: nat, factor: nat)
    requires factor > 0 && padded == amount * factor && 100000 * rest == unit * factor
    requires (20 * scaled - 10) * rest <= 2 * padded < (20 * scaled + 10) * rest
    ensures (2 * scaled - 1) * unit <= 2 * amount * 10000 < (2 * scaled + 1) * unit
  {
    var low, high := 2 * scaled - 1, 2 * scaled + 1;
    assert low * (100000 * rest) <= 20000 * padded < high * (100000 * rest) by {
      assert (20 * scaled - 10) * rest == 10 * (low * rest) && low * (100000 * rest) == 100000 * (low * rest);
      assert (20 * scaled + 10) * rest == 10 * (high * rest) && high * (100000 * rest) == 100000 * (high * rest);
    }
    Associates(low, unit, factor);
    Associates(high, unit, factor);
    assert 20000 * padded == (20000 * amount) * factor;
    CancelsLe(low * unit, 20000 * amount, factor);
    CancelsLt(20000 * amount, high * unit, factor);
  }

  lemma Associates(x: int, y: int, z: int)
    ensures x * (y * z) == (x * y) * z
  {
  }

  lemma ScaledFits(p: Parts)
    requires Accepted(p)
    ensures ScaledAmount(p) <= 10000000000000000000000000000000000 <= MAX_U128
  {
    ValueBound(p.whole);
    Pow10Grows(|p.whole|, 30);
    Pow10Thirty();
    ValueBound(Kept(p.fraction)[..4]);
  }

  lemma OneZeroMore(fraction: string, pushed: nat)
    ensures (fraction + Zeros(pushed)) + ['0'] == fraction + Zeros(pushed + 1)
  {
  }

  method PadFraction(fraction: string) returns (kept: string)
    requires AllDigits(fraction)
    ensures kept == Kept(fraction)
  {
    kept := fraction;
    ghost var pushed := 0;
    while |kept| < 5
      invariant |kept| == |fraction| + pushed && kept == fraction + Zeros(pushed)
      invariant pushed > 0 ==> |kept| <= 5
    {
      OneZeroMore(fraction, pushed);
      kept := kept + ['0'];
      pushed := pushed + 1;
    }
  }

  /** `money_text`: the amount printed for a literal, `None` for one that is not printed. No
      intermediate number passes 128 bits, and no zero is negative. */
  method MoneyTextOf(text: string, negative: bool) returns (r: Option<Printed>)
    ensures if Accepted(PartsOf(text)) then r.Some? && PrintsRight(PartsOf(text), negative, r.value) else r.None?
  {
    var p := PartsOf(text);
    if !Accepted(p) { return None; }
    var printed := PrintParts(p, negative);
    r := Some(printed);
  }

  method PrintParts(p: Parts, negative: bool) returns (printed: Printed)
    requires Accepted(p)
    ensures PrintsRight(p, negative, printed)
  {
    var whole := ValueOf(p.whole);
    var kept := PadFraction(p.fraction);
    var fourths := ValueOf(kept[..4]);
    ScaledFits(p);
    ScaledRounds(p);
    var scaled := whole * 10000 + fourths + (if RoundsUp(kept) then 1 else 0);
    assert whole * 10000 <= scaled <= MAX_U128;
    printed := Printed(negative != p.negative && scaled != 0, scaled);
  }

  /** The amount written, rounded half away from zero and held in 128 bits, under the sign of the
      two, which a zero does not carry. */
  predicate PrintsRight(p: Parts, negative: bool, printed: Printed)
    requires Accepted(p)
  {
    printed == PrintedOf(p, negative) && RoundedHalfAway(p, printed.scaled) && printed.scaled <= MAX_U128
    && (printed.negative <==> negative != p.negative && printed.scaled != 0)
  }

  function PrintedOf(p: Parts, negative: bool): Printed
    requires Accepted(p)
  {
    Printed(negative != p.negative && ScaledAmount(p) != 0, ScaledAmount(p))
  }

  // ----- printing again -----

  /** The text between the currency sign and the closing parenthesis. */
  function Payload(m: Printed): string {
    var unsigned := DigitsOf(m.scaled / 10000) + ['.'] + FourDigits(m.scaled % 10000);
    if m.negative then ['-'] + unsigned else unsigned
  }

  lemma {:induction false} PointAfterDigits(a: string, b: string)
    requires AllDigits(a)
    ensures PointAt(a + ['.'] + b) == |a|
    decreases |a|
  {
    if a != [] {
      assert (a + ['.'] + b)[1..] == a[1..] + ['.'] + b;
      PointAfterDigits(a[1..], b);
    }
  }

  lemma UnsignedParts(whole: string, fourths: string)
    requires whole != [] && AllDigits(whole)
    ensures PartsOf(whole + ['.'] + fourths) == Parts(false, whole, fourths)
  {
    var unsigned := whole + ['.'] + fourths;
    PointAfterDigits(whole, fourths);
    assert unsigned[0] == whole[0];
    assert unsigned[..|whole|] == whole;
    assert unsigned[|whole| + 1..] == fourths;
  }

  lemma SignedParts(unsigned: string)
    requires unsigned != [] && '0' <= unsigned[0] <= '9'
    ensures PartsOf(['-'] + unsigned) == PartsOf(unsigned).(negative := true)
  {
    assert (['-'] + unsigned)[1..] == unsigned;
  }

  lemma PayloadParts(m: Printed)
    ensures PartsOf(Payload(m)) == Parts(m.negative, DigitsOf(m.scaled / 10000), FourDigits(m.scaled % 10000))
  {
    var whole, fourths := DigitsOf(m.scaled / 10000), FourDigits(m.scaled % 10000);
    UnsignedParts(whole, fourths);
    if m.negative { SignedParts(whole + ['.'] + fourths); }
  }

  /** Printing what is printed is the identity, as long as its whole part is of 30 digits. */
  lemma PrintingAgain(m: Printed)
    requires m.negative ==> m.scaled != 0
    requires DecimalDigits.Digits(m.scaled / 10000) <= 30
    ensures Accepted(PartsOf(Payload(m))) && PrintedOf(PartsOf(Payload(m)), false) == m
  {
    PayloadParts(m);
    var p := PartsOf(Payload(m));
    var kept := Kept(p.fraction);
    assert kept == p.fraction + ['0'];
    assert kept[..4] == p.fraction && kept[4] == '0';
  }
}
