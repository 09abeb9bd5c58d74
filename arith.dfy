/** Facts about real multiplication and division that the solver needs spelled out. */
module RealArith {

  lemma MulNonNegative(a: real, b: real)
    requires a >= 0.0 && b >= 0.0
    ensures a * b >= 0.0
  {
  }

  lemma MulPositive(a: real, b: real)
    requires a > 0.0 && b > 0.0
    ensures a * b > 0.0
  {
  }

  /** Taking reciprocals reverses the order of positive reals. */
  lemma ReciprocalAntitone(a: real, b: real)
    requires 0.0 < a <= b
    ensures 1.0 / b <= 1.0 / a
  {
    var d := 1.0 / a - 1.0 / b;
    assert d * (a * b) == b - a;
    MulPositive(a, b);
    if d < 0.0 {
      MulPositive(-d, a * b);
    }
  }

  /** Dividing by a positive real keeps a strict order. */
  lemma DivIncreasing(a: real, b: real, m: real)
    requires 0.0 < m && a < b
    ensures a / m < b / m
  {
    var d := b / m - a / m;
    assert d * m == b - a;
    if d <= 0.0 {
      MulNonNegative(-d, m);
    }
  }

  /** c lies between a and b, in whichever order they come. */
  predicate Between(c: real, a: real, b: real)
  {
    (a <= c <= b) || (b <= c <= a)
  }

  /** c = t b + (1 - t) a lies between a and b for t in [0, 1]. */
  lemma BetweenEndpoints(t: real, a: real, b: real, c: real)
    requires 0.0 <= t <= 1.0
    requires c == t * b + (1.0 - t) * a
    ensures Between(c, a, b)
  {
    var d := b - a;
    assert c == a + t * d;
    if a <= b {
      MulNonNegative(t, d);
      MulNonNegative(1.0 - t, d);
      assert (1.0 - t) * d == d - t * d;
    } else {
      MulNonNegative(t, -d);
      MulNonNegative(1.0 - t, -d);
      assert (1.0 - t) * (-d) == t * d - d;
      assert t * (-d) == -(t * d);
    }
  }
}
