/** Division and remainder with the quotient and remainder given. */
module Arith {

  lemma DivMod(q: int, r: int, d: int)
    requires 0 <= r < d
    ensures (q * d + r) / d == q
    ensures (q * d + r) % d == r
  {
    var x := q * d + r;
    var q', r' := x / d, x % d;
    assert x == q' * d + r';
    assert (q - q') * d == r' - r;
    if q > q' {
      MulAtLeast(q - q', d);
    } else if q < q' {
      MulAtLeast(q' - q, d);
    }
  }

  lemma MulAtLeast(k: int, d: int)
    requires k >= 1 && d > 0
    ensures k * d >= d
  {
    assert k * d == d + (k - 1) * d;
    assert (k - 1) * d >= 0;
  }

  /** Reading one binary digit: `b` is the digit of weight `v`. */
  lemma Digit(x: int, q: int, b: int, r: int, v: int)
    requires x == (q * 2 + b) * v + r
    requires 0 <= r < v && 0 <= b <= 1
    ensures x / v % 2 == b
  {
    DivMod(q * 2 + b, r, v);
    DivMod(q, b, 2);
  }

  lemma LastDigit(x: int, q: int, b: int)
    requires x == q * 2 + b && 0 <= b <= 1
    ensures x % 2 == b
  {
  }

  /** A non-negative number split by a positive divisor. */
  lemma Split(x: int, d: int) returns (q: int, r: int)
    requires d > 0 && x >= 0
    ensures x == q * d + r && 0 <= r < d && q >= 0
    ensures q == x / d && r == x % d
  {
    q, r := x / d, x % d;
  }

  lemma MulMono(a: int, b: int, d: int)
    requires a <= b && d >= 0
    ensures a * d <= b * d
  {
    assert b * d == a * d + (b - a) * d;
  }
}
