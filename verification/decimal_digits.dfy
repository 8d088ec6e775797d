/** Powers of ten and the decimal digits of a number. */
module DecimalDigits {

  function Pow10(n: nat): (p: nat)
    ensures p > 0
  {
    if n == 0 then 1 else 10 * Pow10(n - 1)
  }

  lemma {:induction false} Pow10Adds(a: nat, b: nat)
    ensures Pow10(a + b) == Pow10(a) * Pow10(b)
    decreases a
  {
    if a > 0 {
      Pow10Adds(a - 1, b);
      assert Pow10(a + b) == 10 * (Pow10(a - 1) * Pow10(b));
    }
  }

  lemma {:induction false} Pow10Grows(a: nat, b: nat)
    requires a <= b
    ensures Pow10(a) <= Pow10(b)
    decreases b
  {
    if a < b { Pow10Grows(a, b - 1); }
  }

  function Abs(v: int): nat {
    if v < 0 then -v else v
  }

  /** The number of decimal digits, one for zero. */
  function Digits(n: nat): nat {
    if n < 10 then 1 else 1 + Digits(n / 10)
  }

  /** A number of `d` digits is one that `d` digits write and fewer do not. */
  lemma {:induction false} DigitsAre(n: nat)
    ensures n < Pow10(Digits(n)) && (Digits(n) > 1 ==> Pow10(Digits(n) - 1) <= n)
    decreases n
  {
    if n >= 10 { DigitsAre(n / 10); }
  }

  /** `integer_digits`. */
  method IntegerDigits(value: int) returns (digits: nat)
    ensures digits == Digits(Abs(value))
  {
    var rest := Abs(value);
    digits := 1;
    while rest >= 10
      invariant digits + Digits(rest) == 1 + Digits(Abs(value))
    {
      rest := rest / 10;
      digits := digits + 1;
    }
  }

  lemma OneMoreTime(n: nat, u: nat)
    requires n > 0
    ensures n * u == u + (n - 1) * u
  {
  }
}
