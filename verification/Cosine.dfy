/** Cosine similarity of embedding vectors over exact reals, with the cache's clamp to [0, 1]. */
module Cosine {
  import opened Wrappers
  import R = Reals

  type Vector = seq<real>

  /** Raised when two vectors of different lengths are multiplied. */
  datatype Error = ShapeMismatch

  function Dot(a: Vector, b: Vector): real
    requires |a| == |b|
  {
    if a == [] then 0.0 else a[0] * b[0] + Dot(a[1..], b[1..])
  }

  function Norm(sqrt: real -> real, a: Vector): real {
    sqrt(Dot(a, a))
  }

  function Clip(x: real): real {
    if x < 0.0 then 0.0 else if x > 1.0 then 1.0 else x
  }

  /** The score of a dot product q between vectors of norms m and n. */
  function Clamped(q: real, m: real, n: real): real
    requires m != 0.0 && n != 0.0
  {
    NonZeroProduct(m, n);
    Clip(q / (m * n))
  }

  /** Vectors of length zero score 0 against anything, before their shapes are compared. */
  function Similarity(sqrt: real -> real, a: Vector, b: Vector): Result<real, Error> {
    if Norm(sqrt, a) == 0.0 || Norm(sqrt, b) == 0.0 then Ok(0.0)
    else if |a| != |b| then Err(ShapeMismatch)
    else Ok(Clamped(Dot(a, b), Norm(sqrt, a), Norm(sqrt, b)))
  }

  lemma NonZeroProduct(x: real, y: real)
    requires x != 0.0 && y != 0.0
    ensures x * y != 0.0
  {}

  // ----- The dot product -----

  lemma {:induction false} DotSymmetric(a: Vector, b: Vector)
    requires |a| == |b|
    ensures Dot(a, b) == Dot(b, a)
  {
    if a != [] {
      DotSymmetric(a[1..], b[1..]);
      Commute(a[0], b[0]);
    }
  }

  /** Every coordinate counts alike: a last one adds its product, as a first one does. */
  lemma {:induction false} DotOneMore(a: Vector, b: Vector, x: real, y: real)
    requires |a| == |b|
    ensures Dot(a + [x], b + [y]) == Dot(a, b) + x * y
  {
    if a != [] {
      assert (a + [x])[1..] == a[1..] + [x] && (b + [y])[1..] == b[1..] + [y];
      DotOneMore(a[1..], b[1..], x, y);
    }
  }

  lemma Commute(x: real, y: real)
    ensures x * y == y * x
  {}

  /** A vector's square is never negative, and is zero only for the zero vector. */
  lemma {:induction false} SquareSign(a: Vector)
    ensures Dot(a, a) >= 0.0
    ensures Dot(a, a) == 0.0 ==> forall i | 0 <= i < |a| :: a[i] == 0.0
  {
    if a != [] {
      SquareSign(a[1..]);
      R.SquareSign(a[0] * a[0], a[0]);
      if Dot(a, a) == 0.0 {
        assert a[0] == 0.0;
        assert forall i | 0 < i < |a| :: a[i] == a[1..][i - 1];
      }
    }
  }

  lemma {:induction false} ZeroDot(a: Vector, b: Vector)
    requires |a| == |b| && forall i | 0 <= i < |b| :: b[i] == 0.0
    ensures Dot(a, b) == 0.0
  {
    if a != [] {
      ZeroDot(a[1..], b[1..]);
      ZeroProduct(a[0], b[0]);
    }
  }

  lemma ZeroProduct(x: real, y: real)
    requires y == 0.0
    ensures x * y == 0.0
  {}

  /** k a + l b */
  function Combine(k: real, a: Vector, l: real, b: Vector): (c: Vector)
    requires |a| == |b|
    ensures |c| == |a|
  {
    if a == [] then [] else [k * a[0] + l * b[0]] + Combine(k, a[1..], l, b[1..])
  }

  lemma CombineStep(k: real, x: real, l: real, y: real, p: real, q: real, r: real, z: real, kk: real, kl: real,
                    ll: real)
    requires z == k * x + l * y && kk == k * k && kl == 2.0 * k * l && ll == l * l
    ensures z * z + (kk * p + kl * q + ll * r) == kk * (x * x + p) + kl * (x * y + q) + ll * (y * y + r)
  {}

  lemma {:induction false} CombineSquare(k: real, a: Vector, l: real, b: Vector, c: Vector, kk: real, kl: real,
                                         ll: real)
    requires |a| == |b| && c == Combine(k, a, l, b)
    requires kk == k * k && kl == 2.0 * k * l && ll == l * l
    ensures Dot(c, c) == kk * Dot(a, a) + kl * Dot(a, b) + ll * Dot(b, b)
    decreases a
  {
    if a != [] {
      CombineSquare(k, a[1..], l, b[1..], c[1..], kk, kl, ll);
      CombineStep(k, a[0], l, b[0], Dot(a[1..], a[1..]), Dot(a[1..], b[1..]), Dot(b[1..], b[1..]), c[0], kk, kl, ll);
    }
  }

  /** The square of a dot product is at most the product of the squares. */
  lemma CauchySchwarz(a: Vector, b: Vector)
    requires |a| == |b|
    ensures Dot(a, b) * Dot(a, b) <= Dot(a, a) * Dot(b, b)
  {
    var q, r := Dot(a, b), Dot(b, b);
    SquareSign(b);
    if r == 0.0 {
      ZeroDot(a, b);
    } else {
      CauchyAt(a, b, Dot(a, a), q, r, -q, r * r, -2.0 * (r * q), q * q);
    }
  }

  lemma CauchyAt(a: Vector, b: Vector, p: real, q: real, r: real, l: real, rr: real, rl: real, ll: real)
    requires |a| == |b| && p == Dot(a, a) && q == Dot(a, b) && r == Dot(b, b) && r > 0.0
    requires l == -q && rr == r * r && rl == -2.0 * (r * q) && ll == q * q
    ensures ll <= p * r
  {
    var c := Combine(r, a, l, b);
    SquareSign(c);
    SquareAt(a, b, c, p, q, r, l, Dot(c, c), rr, rl, ll);
  }

  lemma SquareAt(a: Vector, b: Vector, c: Vector, p: real, q: real, r: real, l: real, s: real, rr: real, rl: real,
                 ll: real)
    requires |a| == |b| && c == Combine(r, a, l, b)
    requires p == Dot(a, a) && q == Dot(a, b) && r == Dot(b, b) > 0.0 && s == Dot(c, c) >= 0.0
    requires l == -q && rr == r * r && rl == -2.0 * (r * q) && ll == q * q
    ensures ll <= p * r
  {
    Cross(r, q, l, rl, ll);
    CombineSquare(r, a, l, b, c, rr, rl, ll);
    Discriminant(p, q, r, s, rr, rl, ll, p * r - ll);
  }

  lemma Cross(r: real, q: real, l: real, rl: real, ll: real)
    requires l == -q && rl == -2.0 * (r * q) && ll == q * q
    ensures rl == 2.0 * r * l && ll == l * l
  {}

  lemma Discriminant(p: real, q: real, r: real, s: real, rr: real, rl: real, ll: real, d: real)
    requires r > 0.0 && s >= 0.0 && rr == r * r && rl == -2.0 * (r * q) && ll == q * q
    requires s == rr * p + rl * q + ll * r && d == p * r - ll
    ensures d >= 0.0
  {
    assert s == r * d;
    if d < 0.0 {
      R.PositiveProduct(r, -d, -s);
    }
  }

  // ----- The score -----

  lemma NormSign(sqrt: real -> real, a: Vector)
    requires R.IsRoot(sqrt)
    ensures Norm(sqrt, a) >= 0.0 && Norm(sqrt, a) * Norm(sqrt, a) == Dot(a, a)
  {
    SquareSign(a);
  }

  lemma AtMostOne(q: real, k: real, pr: real, x: real)
    requires k > 0.0 && k * k == pr && q * q <= pr && x == q / k
    ensures x <= 1.0 && (x < 0.0 <==> q < 0.0)
  {
    assert q == x * k;
    if q > k {
      R.StrictSquare(k, q);
    }
    R.BelowOne(x, k, q);
    R.NotPositive(x, k, q);
    if x < 0.0 {
      R.PositiveProduct(-x, k, -q);
    }
    if x == 0.0 {
      ZeroProduct(k, x);
    }
  }

  /** By Cauchy-Schwarz the quotient is at most 1. */
  lemma ClampedSound(q: real, m: real, n: real, p: real, r: real, k: real, x: real)
    requires m > 0.0 && n > 0.0 && m * m == p && n * n == r && q * q <= p * r && k == m * n
    requires k != 0.0 ==> x == q / k
    ensures k > 0.0 && x <= 1.0
    ensures Clamped(q, m, n) == Clamped(q, n, m) == if q < 0.0 then 0.0 else x
  {
    R.PositiveProduct(m, n, k);
    assert k * k == p * r;
    AtMostOne(q, k, p * r, x);
    assert k == n * m;
  }

  lemma Measures(sqrt: real -> real, a: Vector, b: Vector, m: real, n: real, p: real, q: real, r: real)
    requires R.IsRoot(sqrt) && |a| == |b| && m == Norm(sqrt, a) && n == Norm(sqrt, b)
    requires p == Dot(a, a) && q == Dot(a, b) && r == Dot(b, b)
    ensures m >= 0.0 && n >= 0.0 && m * m == p && n * n == r && q * q <= p * r
    ensures q == Dot(b, a)
  {
    NormSign(sqrt, a);
    NormSign(sqrt, b);
    CauchySchwarz(a, b);
    DotSymmetric(a, b);
  }

  /** With norms m and n, dot product q and exact quotient x: the upper clamp never changes x,
      and the lower one does only for a negative dot product. */
  lemma ClampOnlyBelow(sqrt: real -> real, a: Vector, b: Vector, m: real, n: real, q: real, k: real, x: real)
    requires R.IsRoot(sqrt) && |a| == |b| && m == Norm(sqrt, a) != 0.0 && n == Norm(sqrt, b) != 0.0
    requires q == Dot(a, b) && k == m * n && (k != 0.0 ==> x == q / k)
    ensures k > 0.0 && x <= 1.0
    ensures Similarity(sqrt, a, b) == Similarity(sqrt, b, a) == Ok(if q < 0.0 then 0.0 else x)
  {
    var p, r := Dot(a, a), Dot(b, b);
    Measures(sqrt, a, b, m, n, p, q, r);
    ClampedSound(q, m, n, p, r, k, x);
  }

  /** Every score lies in [0, 1], does not depend on the order of the two vectors, and fails
      only for different lengths. */
  lemma ScoreIsSound(sqrt: real -> real, a: Vector, b: Vector)
    requires R.IsRoot(sqrt)
    ensures Similarity(sqrt, a, b) == Similarity(sqrt, b, a)
    ensures Similarity(sqrt, a, b).Ok? ==> 0.0 <= Similarity(sqrt, a, b).value <= 1.0
    ensures Similarity(sqrt, a, b).Err? <==> |a| != |b| && Norm(sqrt, a) != 0.0 && Norm(sqrt, b) != 0.0
  {
    var m, n := Norm(sqrt, a), Norm(sqrt, b);
    if |a| == |b| && m != 0.0 && n != 0.0 {
      var q, k := Dot(a, b), m * n;
      var x := if k != 0.0 then q / k else 0.0;
      ClampOnlyBelow(sqrt, a, b, m, n, q, k, x);
      AtLeastZero(q, k, x);
    }
  }

  /** score is q / (m n), or 0 if that is negative. */
  predicate Quotient(score: real, q: real, m: real, n: real) {
    score * (m * n) == if q < 0.0 then 0.0 else q
  }

  /** Zero if either vector has no direction, an error if the shapes differ, and otherwise the
      dot product, or zero if that is negative, over the product of the two norms. */
  lemma ScoreExactly(sqrt: real -> real, a: Vector, b: Vector, m: real, n: real)
    requires R.IsRoot(sqrt) && m == sqrt(Dot(a, a)) && n == sqrt(Dot(b, b))
    ensures m == 0.0 || n == 0.0 ==> Similarity(sqrt, a, b) == Ok(0.0)
    ensures m != 0.0 && n != 0.0 && |a| != |b| ==> Similarity(sqrt, a, b) == Err(ShapeMismatch)
    ensures m != 0.0 && n != 0.0 && |a| == |b| ==>
              Similarity(sqrt, a, b).Ok? && Quotient(Similarity(sqrt, a, b).value, Dot(a, b), m, n)
  {
    if |a| == |b| && m != 0.0 && n != 0.0 {
      var q, k := Dot(a, b), m * n;
      var x := if k != 0.0 then q / k else 0.0;
      ClampOnlyBelow(sqrt, a, b, m, n, q, k, x);
      IsQuotient(q, m, n, k, x);
    }
  }

  lemma IsQuotient(q: real, m: real, n: real, k: real, x: real)
    requires k == m * n && k > 0.0 && x == q / k
    ensures Quotient(if q < 0.0 then 0.0 else x, q, m, n)
  {
    assert x * k == q;
  }

  lemma AtLeastZero(q: real, k: real, x: real)
    requires k > 0.0 && x == q / k
    ensures q >= 0.0 ==> x >= 0.0
  {
    assert q == x * k;
  }

  lemma RootIsZero(r: real, v: real)
    requires r * r == v
    ensures r == 0.0 <==> v == 0.0
  {
    R.SquareSign(v, r);
  }

  function Scale(k: real, a: Vector): (c: Vector)
    ensures |c| == |a|
  {
    if a == [] then [] else [k * a[0]] + Scale(k, a[1..])
  }

  lemma ScaleStep(k: real, x: real, y: real, d: real, z: real)
    requires z == k * x
    ensures z * y + k * d == k * (x * y + d)
  {}

  lemma {:induction false} ScaleDot(k: real, a: Vector, b: Vector)
    requires |a| == |b|
    ensures Dot(Scale(k, a), b) == k * Dot(a, b)
  {
    if a != [] {
      assert Scale(k, a)[1..] == Scale(k, a[1..]);
      ScaleDot(k, a[1..], b[1..]);
      ScaleStep(k, a[0], b[0], Dot(a[1..], b[1..]), Scale(k, a)[0]);
    }
  }

  lemma ScaleNorm(sqrt: real -> real, k: real, a: Vector)
    requires R.IsRoot(sqrt) && k > 0.0
    ensures Norm(sqrt, Scale(k, a)) == k * Norm(sqrt, a)
  {
    var c := Scale(k, a);
    ScaleDot(k, a, c);
    DotSymmetric(a, c);
    ScaleDot(k, a, a);
    NormSign(sqrt, a);
    NormSign(sqrt, c);
    ScaledSquare(k, Dot(a, a), Dot(a, c), Dot(c, c));
    R.RootScales(Norm(sqrt, a), Norm(sqrt, c), k, Dot(a, a), Dot(c, c));
  }

  lemma ScaledSquare(k: real, p: real, q: real, r: real)
    requires q == k * p && r == k * q
    ensures r == (k * k) * p
  {}

  /** Scaling either vector by a positive factor leaves the score as it was. */
  lemma ScoreIgnoresLength(sqrt: real -> real, k: real, a: Vector, b: Vector)
    requires R.IsRoot(sqrt) && k > 0.0
    ensures Similarity(sqrt, Scale(k, a), b) == Similarity(sqrt, a, b)
    ensures Similarity(sqrt, b, Scale(k, a)) == Similarity(sqrt, b, a)
  {
    var m, n, m' := Norm(sqrt, a), Norm(sqrt, b), Norm(sqrt, Scale(k, a));
    ScaleNorm(sqrt, k, a);
    PositiveFactor(k, m, m');
    if |a| == |b| && m != 0.0 && n != 0.0 {
      ScaleDot(k, a, b);
      ClampedScaled(k, Dot(a, b), m, n, Dot(Scale(k, a), b), m');
    }
    ScoreIsSound(sqrt, a, b);
    ScoreIsSound(sqrt, Scale(k, a), b);
  }

  lemma PositiveFactor(k: real, m: real, p: real)
    requires k > 0.0 && p == k * m
    ensures p == 0.0 <==> m == 0.0
  {}

  lemma ClampedScaled(k: real, q: real, m: real, n: real, q': real, m': real)
    requires k > 0.0 && m != 0.0 && n != 0.0 && m' != 0.0 && q' == k * q && m' == k * m
    ensures Clamped(q', m', n) == Clamped(q, m, n)
  {
    var d, d' := m * n, m' * n;
    NonZero(m, n, d);
    NonZero(m', n, d');
    Regroup(k, m, n, d, m', d');
    ScaledQuotient(k, q, q / d, d, q', d');
  }

  lemma Regroup(k: real, m: real, n: real, d: real, m': real, d': real)
    requires d == m * n && m' == k * m && d' == m' * n
    ensures d' == k * d
  {}

  lemma ScaledQuotient(k: real, q: real, x: real, d: real, q': real, d': real)
    requires d != 0.0 && d' != 0.0 && x == q / d && q' == k * q && d' == k * d
    ensures q' / d' == x
  {
    assert d * x == q;
    assert q' == d' * x;
    R.Divide(q', d', x);
  }

  lemma NonZero(x: real, y: real, p: real)
    requires x != 0.0 && y != 0.0 && p == x * y
    ensures p != 0.0
  {}

  lemma ClampedSelf(q: real, m: real)
    requires m != 0.0 && q == m * m
    ensures Clamped(q, m, m) == 1.0
  {
    NonZero(m, m, q);
    R.Divide(q, q, 1.0);
  }

  /** A vector with a direction scores 1 against itself. */
  lemma SelfScore(sqrt: real -> real, a: Vector)
    requires R.IsRoot(sqrt)
    ensures Similarity(sqrt, a, a) == Ok(if Dot(a, a) == 0.0 then 0.0 else 1.0)
  {
    NormSign(sqrt, a);
    RootIsZero(Norm(sqrt, a), Dot(a, a));
    if Norm(sqrt, a) != 0.0 {
      ClampedSelf(Dot(a, a), Norm(sqrt, a));
    }
  }
}
