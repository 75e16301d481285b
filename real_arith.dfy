/** Facts about products and quotients of reals, stated once so that the
    statistics proofs can use them without non-linear reasoning. */
module RealArith {

  lemma MulNonneg(a: real, b: real)
    requires a >= 0.0 && b >= 0.0
    ensures a * b >= 0.0
  {
  }

  /** Multiplying by a non-negative factor keeps the order. */
  lemma MulMonotone(m: real, q: real, q': real)
    requires m >= 0.0 && q <= q'
    ensures m * q <= m * q'
  {
    MulNonneg(m, q' - q);
    assert m * q' - m * q == m * (q' - q);
  }

  /** A quotient by a positive n of a value between n * lo and n * hi lies
      between lo and hi. */
  lemma DivBounds(total: real, n: real, lo: real, hi: real)
    requires n > 0.0 && n * lo <= total <= n * hi
    ensures lo <= total / n <= hi
  {
    var m := total / n;
    assert m * n == total;
    assert n * (m - lo) == total - n * lo;
    assert n * (hi - m) == n * hi - total;
  }

  /** Multiplying by a positive factor keeps a strict order. */
  lemma MulStrict(m: real, q: real, q': real)
    requires m > 0.0 && q < q'
    ensures m * q < m * q'
  {
    assert m * q' - m * q == m * (q' - q);
  }

  lemma DivTimes(a: real, w: real)
    requires w != 0.0
    ensures a / w * w == a
  {
  }

  lemma DivPositive(a: real, w: real)
    requires a > 0.0 && w > 0.0
    ensures a / w > 0.0
  {
    assert a / w * w == a;
  }

  /** b widths reach past a length whose quotient by the width is at most b. */
  lemma CoverFromQuotient(length: real, width: real, b: real)
    requires width > 0.0 && length / width <= b
    ensures b * width >= length
  {
    MulMonotone(width, length / width, b);
    DivTimes(length, width);
  }

  /** ... and fall short of it when the quotient exceeds b. */
  lemma ShortFromQuotient(length: real, width: real, b: real)
    requires width > 0.0 && b < length / width
    ensures b * width < length
  {
    MulStrict(width, b, length / width);
    DivTimes(length, width);
  }
}
