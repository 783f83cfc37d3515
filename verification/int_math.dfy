/**
 * Integer helpers with PHP semantics. PHP's `%` takes the sign of the dividend
 * (it truncates toward zero), whereas Dafny's `%` is Euclidean; the functions
 * here make the PHP behaviour explicit.
 */
module IntMath {
  import opened Wrappers

  const MinInt: int := -0x8000_0000_0000_0000
  const MaxInt: int := 0x7FFF_FFFF_FFFF_FFFF

  /** PHP's 64-bit `int`, the declared type of the library's integer parameters. */
  type PhpInt = x: int | MinInt <= x <= MaxInt

  /**
   * PHP's `*` on two ints: the product stays an int while it fits in 64
   * bits and becomes a float (`None`) once it does not.
   */
  function MulInt(a: PhpInt, b: PhpInt): (r: Option<PhpInt>)
    ensures r.Some? <==> MinInt <= a * b <= MaxInt
    ensures r.Some? ==> r.value == a * b
  {
    if MinInt <= a * b <= MaxInt then Some(a * b) else None
  }

  function Abs(x: int): (r: nat)
    ensures r == x || r == -x
  {
    if x < 0 then -x else x
  }

  /** `min(hi, max(lo, v))`: the value of [lo, hi] nearest to `v`. */
  function Clamp(v: int, lo: int, hi: int): (r: int)
    requires lo <= hi
    ensures lo <= r <= hi
    ensures lo <= v <= hi ==> r == v
    ensures v < lo ==> r == lo
    ensures v > hi ==> r == hi
  {
    if v < lo then lo else if v > hi then hi else v
  }

  /** The quotient of `a / b` truncated toward zero, as C and PHP's `intdiv` compute it. */
  function Quot(a: int, b: int): (q: int)
    requires b > 0
    ensures a >= 0 ==> 0 <= b * q <= a < b * q + b
    ensures a < 0 ==> b * q - b < a <= b * q <= 0
  {
    if a >= 0 then
      FloorBounds(a, b);
      a / b
    else
      CeilBounds(a, b);
      -((-a) / b)
  }

  lemma FloorBounds(a: int, b: int)
    requires b > 0 && a >= 0
    ensures 0 <= b * (a / b) <= a < b * (a / b) + b
  {
    assert a == b * (a / b) + a % b;
    ProductNonNegative(b, a / b);
  }

  lemma CeilBounds(a: int, b: int)
    requires b > 0 && a < 0
    ensures var q := -((-a) / b); b * q - b < a <= b * q <= 0
  {
    var x := (-a) / b;
    assert -a == b * x + (-a) % b;
    ProductNonNegative(b, x);
    NegateProduct(b, x);
  }

  lemma NegateProduct(b: int, x: int)
    ensures b * -x == -(b * x)
  {
  }

  lemma ProductNonNegative(b: int, x: int)
    requires b >= 0 && x >= 0
    ensures b * x >= 0
  {
  }

  lemma ProductAtLeast(b: int, k: int)
    requires b > 0 && k >= 1
    ensures b * k >= b
  {
  }

  lemma ProductAtMost(b: int, k: int)
    requires b > 0 && k <= -1
    ensures b * k <= -b
  {
  }

  /**
   * PHP's `a % b` for a positive divisor: the remainder of division truncated
   * toward zero, so it carries the sign of `a`.
   */
  function Rem(a: int, b: int): (r: int)
    requires b > 0
    ensures a == b * Quot(a, b) + r
    ensures -b < r < b
    ensures a >= 0 ==> r >= 0
    ensures a <= 0 ==> r <= 0
  {
    if a >= 0 then a % b else -((-a) % b)
  }

  /**
   * The library's `div` helper, `(a - a % b) / b`: the PHP remainder is removed
   * first, so the division is exact and the quotient is truncated toward zero.
   */
  function Div(a: int, b: int): (q: int)
    requires b > 0
    ensures q == Quot(a, b)
  {
    ExactQuotient(Quot(a, b), b);
    (a - Rem(a, b)) / b
  }

  lemma ExactQuotient(q: int, b: int)
    requires b > 0
    ensures (b * q) / b == q
  {
    var d := (b * q) / b;
    var m := (b * q) % b;
    assert b * q == b * d + m;
    assert b * (q - d) == m by { assert b * q - b * d == b * (q - d); }
    if q - d >= 1 {
      ProductAtLeast(b, q - d);
      assert false;
    } else if q - d <= -1 {
      ProductAtMost(b, q - d);
      assert false;
    }
  }

  /** Quotient and remainder are the only pair that rebuilds the dividend with the remainder in range. */
  lemma DivModOf(a: int, b: int, q: int, r: int)
    requires b > 0 && 0 <= r < b && a == b * q + r
    ensures a / b == q && a % b == r
  {
    var d, m := a / b, a % b;
    assert b * (q - d) == m - r by { assert b * q - b * d == b * (q - d); }
    if q - d >= 1 {
      ProductAtLeast(b, q - d);
      assert false;
    } else if q - d <= -1 {
      ProductAtMost(b, q - d);
      assert false;
    }
  }

  /** Div agrees with Dafny's division on non-negative operands. */
  lemma DivNonNegative(a: int, b: int)
    requires a >= 0 && b > 0
    ensures Div(a, b) == a / b
    ensures Rem(a, b) == a % b
  {
  }
}

/** Decimal rendering of naturals, as PHP's `(string)` cast prints a non-negative int. */
module Decimal {

  predicate IsDigit(c: char) {
    '0' <= c <= '9'
  }

  function DigitChar(d: nat): (c: char)
    requires d < 10
    ensures IsDigit(c)
  {
    "0123456789"[d]
  }

  function DigitValue(c: char): (d: nat)
    requires IsDigit(c)
    ensures d < 10 && DigitChar(d) == c
  {
    (c as int - '0' as int) as nat
  }

  /** The shortest decimal numeral of `n` (no sign, no leading zero except for 0 itself). */
  function Digits(n: nat): (s: string)
    ensures 1 <= |s|
    ensures AllDigits(s)
    ensures n < 10 <==> |s| == 1
    ensures 10 <= n < 100 <==> |s| == 2
    decreases n
  {
    if n < 10 then [DigitChar(n)] else Digits(n / 10) + [DigitChar(n % 10)]
  }

  predicate AllDigits(s: string) {
    forall i :: 0 <= i < |s| ==> IsDigit(s[i])
  }

  /** The value of a string of decimal digits. */
  function Value(s: string): (n: nat)
    requires AllDigits(s)
    decreases |s|
  {
    if |s| == 0 then 0 else 10 * Value(s[..|s| - 1]) + DigitValue(s[|s| - 1])
  }

  /** Reading a numeral back yields the number it was printed from. */
  lemma {:induction false} ValueOfDigits(n: nat)
    ensures Value(Digits(n)) == n
    decreases n
  {
    if n >= 10 {
      var s := Digits(n);
      assert s[..|s| - 1] == Digits(n / 10);
      ValueOfDigits(n / 10);
    }
  }

  function Pow10(k: nat): (r: nat)
    ensures r >= 1
  {
    if k == 0 then 1 else 10 * Pow10(k - 1)
  }

  /** A numeral has at most `k` digits exactly when the number is below 10^k. */
  lemma {:induction false} DigitsAtMost(n: nat, k: nat)
    requires k >= 1
    ensures |Digits(n)| <= k <==> n < Pow10(k)
    decreases n
  {
    if n >= 10 {
      assert |Digits(n)| == |Digits(n / 10)| + 1;
      if k == 1 {
        assert Pow10(1) == 10;
      } else {
        DigitsAtMost(n / 10, k - 1);
      }
    }
  }

  /** `%'.02d` for the values a clock shows: at least two digits, zero-padded. */
  function Pad2(n: nat): (s: string)
    ensures n < 100 ==> |s| == 2
    ensures AllDigits(s)
    ensures Value(s) == n
  {
    ValueOfDigits(n);
    if n < 10 then
      assert Value("0" + Digits(n)) == Value(Digits(n)) by {
        assert ("0" + Digits(n))[..1] == "0";
      }
      "0" + Digits(n)
    else Digits(n)
  }
}
