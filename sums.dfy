/** Row-major double sums, in the order the accumulation loops add their terms. */
module Sums {
  /** `f(i, 0) + ... + f(i, m - 1)`. */
  function RowSum(f: (int, int) -> real, i: int, m: nat): real
  {
    if m == 0 then 0.0 else RowSum(f, i, m - 1) + f(i, m - 1)
  }

  /** The sum of `f(u, v)` over `0 <= u < n`, `0 <= v < m`, row by row. */
  function GridSum(f: (int, int) -> real, n: nat, m: nat): real
  {
    if n == 0 then 0.0 else GridSum(f, n - 1, m) + RowSum(f, n - 1, m)
  }

  lemma {:induction false} RowSumSingle(f: (int, int) -> real, i: int, m: nat, b: int)
    requires forall v :: 0 <= v < m && v != b ==> f(i, v) == 0.0
    ensures RowSum(f, i, m) == if 0 <= b < m then f(i, b) else 0.0
  {
    if m > 0 {
      RowSumSingle(f, i, m - 1, b);
    }
  }

  lemma {:induction false} RowSumZero(f: (int, int) -> real, i: int, m: nat)
    requires forall v :: 0 <= v < m ==> f(i, v) == 0.0
    ensures RowSum(f, i, m) == 0.0
  {
    if m > 0 {
      RowSumZero(f, i, m - 1);
    }
  }

  /** A sum with at most one non-zero term, at (a, b), is that term. */
  lemma {:induction false} GridSumSingle(f: (int, int) -> real, n: nat, m: nat, a: int, b: int)
    requires forall u, v :: 0 <= u < n && 0 <= v < m && (u != a || v != b) ==> f(u, v) == 0.0
    ensures GridSum(f, n, m) == if 0 <= a < n && 0 <= b < m then f(a, b) else 0.0
  {
    if n > 0 {
      GridSumSingle(f, n - 1, m, a, b);
      if n - 1 == a {
        RowSumSingle(f, n - 1, m, b);
      } else {
        RowSumZero(f, n - 1, m);
      }
    }
  }

  lemma {:induction false} RowSumConst(f: (int, int) -> real, i: int, m: nat, c: real)
    requires forall v :: 0 <= v < m ==> f(i, v) == c
    ensures RowSum(f, i, m) == m as real * c
  {
    if m > 0 {
      RowSumConst(f, i, m - 1, c);
      assert m as real * c == (m - 1) as real * c + c;
    }
  }

  /** A sum of `n * m` equal terms. */
  lemma {:induction false} GridSumConst(f: (int, int) -> real, n: nat, m: nat, c: real)
    requires forall u, v :: 0 <= u < n && 0 <= v < m ==> f(u, v) == c
    ensures GridSum(f, n, m) == (n * m) as real * c
  {
    if n > 0 {
      GridSumConst(f, n - 1, m, c);
      RowSumConst(f, n - 1, m, c);
      assert (n * m) as real == ((n - 1) * m) as real + m as real;
    }
  }

  lemma {:induction false} RowSumScale(f: (int, int) -> real, g: (int, int) -> real, i: int, m: nat, s: real)
    requires forall v :: 0 <= v < m ==> g(i, v) == s * f(i, v)
    ensures RowSum(g, i, m) == s * RowSum(f, i, m)
  {
    if m > 0 {
      RowSumScale(f, g, i, m - 1, s);
    }
  }

  /** Scaling every term scales the sum. */
  lemma {:induction false} GridSumScale(f: (int, int) -> real, g: (int, int) -> real, n: nat, m: nat, s: real)
    requires forall u, v :: 0 <= u < n && 0 <= v < m ==> g(u, v) == s * f(u, v)
    ensures GridSum(g, n, m) == s * GridSum(f, n, m)
  {
    if n > 0 {
      GridSumScale(f, g, n - 1, m, s);
      RowSumScale(f, g, n - 1, m, s);
    }
  }
}
