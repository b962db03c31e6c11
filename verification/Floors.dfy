/** Integer-division facts behind interval narrowing, kept apart from the coder state machine. */
module Floors {

  lemma DivBounds(x: int, d: int)
    requires 0 < d
    ensures d * (x / d) <= x < d * (x / d) + d
  {
  }

  lemma MulLess(a: int, b: int, d: int)
    requires 0 < d
    ensures a <= b ==> a * d <= b * d
    ensures a < b ==> a * d + d <= b * d
  {
    if a < b {
      assert (b - a - 1) * d >= 0;
    }
  }

  lemma MulOrder(a: int, b: int, d: int)
    requires 0 <= d && a <= b
    ensures a * d <= b * d
  {
    assert (b - a) * d >= 0;
  }

  /** A quotient reaches `k` exactly when the dividend reaches `k * d`. */
  lemma QuotientAtLeast(x: int, d: int, k: int)
    requires 0 < d
    ensures k <= x / d <==> k * d <= x
  {
    DivBounds(x, d);
    MulLess(k, x / d, d);
    MulLess(x / d, k, d);
  }

  /** The scaled code reaches the cumulative count `k` exactly when the offset reaches the scaled bound. */
  lemma ScaledAtLeast(range: int, offset: int, k: int, total: int)
    requires 0 < range && 0 < total
    ensures k <= ((offset + 1) * total - 1) / range <==> range * k / total <= offset
  {
    var bound := range * k / total;
    DivBounds(range * k, total);
    QuotientAtLeast((offset + 1) * total - 1, range, k);
    MulLess(bound, offset, total);
    MulLess(offset, bound, total);
    assert (offset + 1) * total == offset * total + total;
  }

  /** Floors of scaled bounds grow with the cumulative count, and by at least the floor of the step. */
  lemma ScaledStep(range: int, a: int, b: int, total: int)
    requires 0 <= range && 0 < total && a < b
    ensures range * b / total - range * a / total >= range / total
  {
    var qa, q := range * a / total, range / total;
    DivBounds(range * a, total);
    DivBounds(range, total);
    Spread(range, a, b);
    assert (qa + q) * total == total * qa + total * q;
    QuotientAtLeast(range * b, total, qa + q);
  }

  lemma Spread(range: int, a: int, b: int)
    requires 0 <= range && a < b
    ensures range * a + range <= range * b
  {
    MulLess(a, b, 1);
    assert range * (b - a - 1) >= 0;
  }

  lemma ScaledOrder(range: int, a: int, b: int, total: int)
    requires 0 <= range && 0 < total && a <= b
    ensures range * a / total <= range * b / total
  {
    if a < b {
      ScaledStep(range, a, b, total);
    }
  }

  lemma ScaledEnds(range: int, total: int)
    requires 0 < total
    ensures range * 0 / total == 0 && range * total / total == range
  {
    QuotientAtLeast(range * total, total, range);
    QuotientAtLeast(range * total, total, range + 1);
  }
}
