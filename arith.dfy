/**
  The machine integers the planner computes with, and the facts about products,
  quotients and remainders that the layout proofs rely on.
*/
module Arith {

  const INT32_MAX: int := 0x7fff_ffff

  /** rocblas_int and C++ int on the platforms rocBLAS supports: 32-bit, signed. */
  newtype int32 = x: int | -0x8000_0000 <= x <= 0x7fff_ffff

  /** A position (i, j) of a box with n rows and m columns, numbered with i
      varying fastest, lies in [0, n * m). */
  lemma BoxBound(i: int, j: int, n: int, m: int)
    requires 0 <= i < n && 0 <= j < m
    ensures 0 <= i + j * n < n * m
  {
    assert j * n <= (m - 1) * n by { MulMonotone(j, m - 1, n); }
    assert (m - 1) * n == m * n - n;
  }

  lemma MulMonotone(a: int, b: int, n: int)
    requires a <= b && 0 <= n
    ensures a * n <= b * n
  {
    assert b * n - a * n == (b - a) * n;
  }

  /** Writing a number as digit + carry * n, with the digit in [0, n), is unique. */
  lemma DigitsUnique(i: int, j: int, i': int, j': int, n: int)
    requires 0 <= i < n && 0 <= i' < n
    requires i + j * n == i' + j' * n
    ensures i == i' && j == j'
  {
    assert (j - j') * n == i' - i;
    if j > j' {
      MulMonotone(1, j - j', n);
      assert false;
    } else if j < j' {
      MulMonotone(1, j' - j, n);
      assert false;
    }
  }

  /** Euclidean division splits a non-negative number into remainder and quotient. */
  lemma DivModSplit(x: int, n: int)
    requires 0 < n
    ensures 0 <= x % n < n
    ensures x == x % n + (x / n) * n
  {
  }

  /** A position of a box with n rows and m columns, numbered with the row
      varying fastest, splits back into its row (the remainder) and its
      column (the quotient). */
  lemma BoxSplit(x: int, n: int, m: int)
    requires 0 <= n && 0 <= m && 0 <= x < n * m
    ensures 0 < n
    ensures 0 <= x % n < n && 0 <= x / n < m
    ensures x == x % n + (x / n) * n
  {
    assert 0 < n;
    DivModSplit(x, n);
    if x / n >= m {
      MulMonotone(m, x / n, n);
      assert false;
    }
  }

  /** Dividing a product by one of its factors gives back the other factor exactly. */
  lemma ExactQuotient(a: int, b: int)
    requires 0 < b
    ensures (a * b) / b == a && (b * a) / b == a
  {
    var x := a * b;
    assert b * a == x;
    var q, r := x / b, x % b;
    DivModSplit(x, b);
    assert r + q * b == 0 + a * b;
    DigitsUnique(r, q, 0, a, b);
  }
}
