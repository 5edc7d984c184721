/** Ordered-field facts about reals, one product at a time, and exact square roots. */
module Reals {

  /** An exact square root on the non-negative reals. */
  ghost predicate IsRoot(sqrt: real -> real) {
    forall v | v >= 0.0 :: sqrt(v) >= 0.0 && sqrt(v) * sqrt(v) == v
  }

  lemma PositiveProduct(x: real, y: real, p: real)
    requires x > 0.0 && y > 0.0 && p == x * y
    ensures p > 0.0
  {}

  lemma ZeroSquare(x: real)
    requires x == 0.0
    ensures x * x == 0.0
  {}

  lemma SquareSign(p: real, d: real)
    requires p == d * d
    ensures p >= 0.0
    ensures d != 0.0 ==> p > 0.0
    ensures d == 0.0 ==> p == 0.0
  {
    if d > 0.0 {
      PositiveProduct(d, d, p);
    } else if d < 0.0 {
      PositiveProduct(-d, -d, p);
    }
  }

  lemma Divide(x: real, n: real, y: real)
    requires n != 0.0
    ensures x / n == y <==> x == n * y
  {
    assert (x / n) * n == x;
    if x == n * y {
      var d := x / n - y;
      assert d * n == 0.0;
      assert d == 0.0;
    }
  }

  lemma Cancel(x: real, y: real, k: real)
    requires k > 0.0
    ensures x * k > y * k <==> x > y
  {}

  lemma SquareOrder(a: real, b: real)
    requires a > 0.0 && b > 0.0
    ensures a * a > b * b <==> a > b
  {
    assert a * a - b * b == (a - b) * (a + b);
  }

  lemma StrictSquare(x: real, y: real)
    requires 0.0 <= x < y
    ensures x * x < y * y
  {
    var d, e := y - x, y + x;
    assert d * e > 0.0;
    assert d * e == y * y - x * x;
  }

  lemma RootScales(r: real, s: real, a: real, v: real, w: real)
    requires r >= 0.0 && s >= 0.0 && a > 0.0 && r * r == v && s * s == w && w == (a * a) * v
    ensures s == a * r
  {
    var t := a * r;
    assert t * t == a * a * (r * r) && t >= 0.0;
    if s < t {
      StrictSquare(s, t);
    } else if t < s {
      StrictSquare(t, s);
    }
  }

  lemma BelowOne(x: real, k: real, p: real)
    requires k > 0.0 && p == x * k
    ensures x < 1.0 ==> p < k
    ensures x >= 1.0 ==> p >= k
  {}

  lemma NotPositive(x: real, k: real, p: real)
    requires k > 0.0 && p == x * k
    ensures x <= 0.0 ==> p <= 0.0
  {}

  lemma QuotientMonotone(x: real, y: real, k: real)
    requires k > 0.0 && x <= y
    ensures x / k <= y / k
  {
    var a, b := x / k, y / k;
    assert a * k == x && b * k == y;
    Cancel(a, b, k);
  }
}
