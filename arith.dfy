/** Small facts of integer and real arithmetic that the solver needs spelled out. */
module Arith {
  lemma MulLe(a: int, b: int, k: nat)
    requires a <= b
    ensures a * k <= b * k
  {
  }

  /** Euclidean division of a natural number by a positive one. */
  lemma DivMod(a: nat, n: nat)
    requires n > 0
    ensures a == (a / n) * n + a % n && 0 <= a % n < n && 0 <= a / n
  {
  }

  /** The floor of `a / n` over the reals is the integer quotient. */
  lemma RealQuotient(a: int, n: int, q: int, r: int)
    requires n > 0 && a == q * n + r && 0 <= r < n
    ensures (a as real / n as real).Floor == q
  {
    assert a as real == q as real * n as real + r as real;
    assert a as real / n as real == q as real + r as real / n as real;
    var t := r as real / n as real;
    assert t * n as real == r as real;
    assert (1.0 - t) * n as real == n as real - r as real;
    assert 0.0 <= t < 1.0;
  }

  /** A quotient is unique: `a == q * n + r` with `0 <= r < n` fixes `q` as `a / n`. */
  lemma QuotientUnique(a: int, n: int, q: int, r: int)
    requires n > 0 && a == q * n + r && 0 <= r < n
    ensures a / n == q
  {
    var q', r' := a / n, a % n;
    assert (q - q') * n == r' - r;
    if q > q' {
      MulLe(1, q - q', n);
    } else if q < q' {
      MulLe(1, q' - q, n);
    }
  }

  /** Adding a multiple of `n` leaves the remainder modulo `n` unchanged. */
  lemma ModShift(y: int, k: int, n: int)
    requires n > 0
    ensures (y + k * n) % n == y % n
  {
    var q, r := y / n, y % n;
    assert y + k * n == (q + k) * n + r;
    QuotientUnique(y + k * n, n, q + k, r);
  }

  /** The product of two non-negative reals is non-negative, of a non-positive and a
      non-negative one non-positive. */
  lemma RealMulSign(s: real, x: real)
    requires x >= 0.0
    ensures s >= 0.0 ==> s * x >= 0.0
    ensures s <= 0.0 ==> s * x <= 0.0
  {
  }
}
