/**
 * The math-library functions the generators call (`sqrt`, `cos`, `sin`,
 * `atan` of Python's `math`). The model never computes them: every generator
 * takes a `MathLib` as a parameter, and the proofs rely only on the laws
 * collected in `Lawful`.
 */
module Transcendentals {
  /** The value of Python's `math.pi` (a double). */
  const Pi: real := 3.141592653589793

  datatype MathLib = MathLib(sqrt: real -> real, cos: real -> real, sin: real -> real, atan: real -> real)

  /** The laws of the real square root the proofs use. */
  ghost predicate SqrtLaws(m: MathLib) {
    && m.sqrt(1.0) == 1.0
    && (forall y :: 0.0 <= y ==> 0.0 <= m.sqrt(y) && m.sqrt(y) * m.sqrt(y) == y)
  }

  /** The laws of cosine the proofs use. */
  ghost predicate CosLaws(m: MathLib) {
    && m.cos(Pi) == -1.0
    && (forall a :: -1.0 <= m.cos(a) <= 1.0)
  }

  /** The cosine of an arctangent is positive: atan maps into the open interval (-Pi/2, Pi/2). */
  ghost predicate AtanLaws(m: MathLib) {
    forall g :: m.cos(m.atan(g)) > 0.0
  }

  ghost predicate Lawful(m: MathLib) {
    SqrtLaws(m) && CosLaws(m)
  }

  /** Division by a positive number undoes multiplication and keeps order. */
  lemma DivPositive(a: real, b: real, n: real)
    requires 0.0 < n
    ensures (a / n) * n == a
    ensures a < b ==> a / n < b / n
    ensures a <= b ==> a / n <= b / n
  {
    var qa, qb := a / n, b / n;
    assert qa * n == a && qb * n == b;
    assert (qb - qa) * n == b - a;
  }

  /** A number between two squares has its square root between their bases. */
  lemma SqrtBetween(m: MathLib, y: real, lo: real, hi: real)
    requires SqrtLaws(m) && 0.0 <= lo && 0.0 <= hi && lo * lo <= y <= hi * hi
    ensures lo <= m.sqrt(y) <= hi
  {
    SqrtAtLeast(m, y, lo);
    SqrtAtMost(m, y, hi);
  }

  /** The sign of a product from the signs of its factors. */
  lemma ProductSigns(u: real, v: real)
    ensures u >= 0.0 && v >= 0.0 ==> u * v >= 0.0
    ensures u >= 0.0 && v <= 0.0 ==> u * v <= 0.0
    ensures u <= 0.0 && v >= 0.0 ==> u * v <= 0.0
    ensures u <= 0.0 && v <= 0.0 ==> u * v >= 0.0
    ensures u > 0.0 && v > 0.0 ==> u * v > 0.0
    ensures u > 0.0 && v < 0.0 ==> u * v < 0.0
    ensures u < 0.0 && v > 0.0 ==> u * v < 0.0
    ensures u < 0.0 && v < 0.0 ==> u * v > 0.0
  {
  }

  /** Dividing by a nonzero number and multiplying back is the identity. */
  lemma DivCancel(a: real, n: real)
    requires n != 0.0
    ensures a / n * n == a
  {
  }

  /** For non-negative reals, comparing squares compares the numbers. */
  lemma SquareOrder(s: real, q: real)
    requires 0.0 <= s && 0.0 <= q
    ensures s >= q <==> s * s >= q * q
  {
    if s >= q {
      calc {
        q * q;
      <= { assert q * (s - q) >= 0.0; }
        q * s;
      <= { assert (s - q) * s >= 0.0; }
        s * s;
      }
    } else {
      calc {
        s * s;
      <= { assert s * (q - s) >= 0.0; }
        s * q;
      < { assert (q - s) * q > 0.0; }
        q * q;
      }
    }
  }

  /** Square root is monotone against squares: for q >= 0, sqrt(y) >= q iff y >= q*q. */
  lemma SqrtAtLeast(m: MathLib, y: real, q: real)
    requires SqrtLaws(m) && 0.0 <= y && 0.0 <= q
    ensures m.sqrt(y) >= q <==> y >= q * q
  {
    var s := m.sqrt(y);
    assert 0.0 <= s && s * s == y;
    SquareOrder(s, q);
  }

  /** Square root is monotone against squares from above: for q >= 0, sqrt(y) <= q iff y <= q*q. */
  lemma SqrtAtMost(m: MathLib, y: real, q: real)
    requires SqrtLaws(m) && 0.0 <= y && 0.0 <= q
    ensures m.sqrt(y) <= q <==> y <= q * q
  {
    var s := m.sqrt(y);
    assert 0.0 <= s && s * s == y;
    SquareOrder(q, s);
  }
}
