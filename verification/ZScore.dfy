/** The statistical detector's Z-score test over exact reals: the decision it makes is a
    square-root-free comparison of sums, and that comparison does not depend on the order,
    the scale or the origin of the counts. */
module ZScore {
  import opened Reals
  import opened Sequences
  import opened Severities
  import opened Wrappers

  datatype Finding = Finding(zScore: real, severity: Severity, confidence: real, mean: real, points: nat)

  function Total(f: real -> real, xs: seq<real>): real {
    if xs == [] then 0.0 else f(xs[0]) + Total(f, xs[1..])
  }

  function Identity(): real -> real {
    x => x
  }

  function Square(): real -> real {
    x => x * x
  }

  /** Squared distance to m. */
  function Deviation(m: real): real -> real {
    x => (x - m) * (x - m)
  }

  function Sum(xs: seq<real>): real {
    Total(Identity(), xs)
  }

  function SquareSum(xs: seq<real>): real {
    Total(Square(), xs)
  }

  function Count(xs: seq<real>): real {
    |xs| as real
  }

  function Mean(xs: seq<real>): real
    requires xs != []
  {
    Sum(xs) / Count(xs)
  }

  /** The population variance: the mean squared distance to the mean. */
  function Variance(xs: seq<real>): (v: real)
    requires xs != []
    ensures v >= 0.0
  {
    Squares(Mean(xs), xs);
    Total(Deviation(Mean(xs)), xs) / Count(xs)
  }

  function MapSeverity(z: real): Severity {
    if z >= 7.0 then Critical
    else if z >= 5.0 then High
    else if z >= 4.0 then Medium
    else Low
  }

  /** A severity's rank is the number of boundaries the score has reached. */
  lemma SeverityCountsBoundaries(z: real)
    ensures Rank(MapSeverity(z)) == Bit(z >= 4.0) + Bit(z >= 5.0) + Bit(z >= 7.0)
  {}

  /** None when the baseline is empty or flat. */
  function Score(sqrt: real -> real, current: real, baseline: seq<real>): Option<real> {
    if baseline == [] then None
    else
      var std := sqrt(Variance(baseline));
      if std == 0.0 then None else Some((current - Mean(baseline)) / std)
  }

  function Check(sqrt: real -> real, minPoints: int, threshold: real, current: real,
                 baseline: seq<real>): Option<Finding>
    requires threshold > 0.0
  {
    if |baseline| < minPoints then None
    else
      match Score(sqrt, current, baseline)
      case None => None
      case Some(z) =>
        if z <= threshold then None
        else
          var over := (z - threshold) / threshold;
          Some(Finding(z, MapSeverity(z), if over < 1.0 then over else 1.0, Mean(baseline), |baseline|))
  }

  // ----- Sums -----

  lemma {:induction false} LinearCombination(f: real -> real, g: real -> real, h: real -> real, a: real, b: real,
                                             xs: seq<real>)
    requires forall x :: f(x) == g(x) + a * h(x) + b
    ensures Total(f, xs) == Total(g, xs) + a * Total(h, xs) + Count(xs) * b
  {
    if xs != [] {
      LinearCombination(f, g, h, a, b, xs[1..]);
      Distribute(a, h(xs[0]), Total(h, xs[1..]), Count(xs[1..]), b);
      assert Count(xs) == 1.0 + Count(xs[1..]);
    }
  }

  lemma Distribute(a: real, x: real, y: real, n: real, b: real)
    ensures a * (x + y) == a * x + a * y && (1.0 + n) * b == b + n * b
  {}

  lemma {:induction false} NonNegative(f: real -> real, xs: seq<real>)
    requires forall x :: f(x) >= 0.0
    ensures Total(f, xs) >= 0.0
    ensures (exists i :: 0 <= i < |xs| && f(xs[i]) > 0.0) ==> Total(f, xs) > 0.0
    ensures (forall i | 0 <= i < |xs| :: f(xs[i]) == 0.0) ==> Total(f, xs) == 0.0
  {
    if xs != [] {
      NonNegative(f, xs[1..]);
      assert forall i | 0 <= i < |xs[1..]| :: xs[1..][i] == xs[i + 1];
      assert forall i | 0 < i < |xs| :: xs[i] == xs[1..][i - 1];
    }
  }

  lemma DeviationSign(m: real, x: real)
    ensures Deviation(m)(x) >= 0.0
    ensures x != m ==> Deviation(m)(x) > 0.0
    ensures x == m ==> Deviation(m)(x) == 0.0
  {
    SquareSign(Deviation(m)(x), x - m);
  }

  /** Squared distances are never negative, and vanish together only when every count is m. */
  lemma Squares(m: real, xs: seq<real>)
    ensures Total(Deviation(m), xs) >= 0.0
    ensures Total(Deviation(m), xs) == 0.0 <==> forall i | 0 <= i < |xs| :: xs[i] == m
  {
    forall x ensures Deviation(m)(x) >= 0.0 {
      DeviationSign(m, x);
    }
    forall i | 0 <= i < |xs|
      ensures xs[i] != m ==> Deviation(m)(xs[i]) > 0.0
      ensures xs[i] == m ==> Deviation(m)(xs[i]) == 0.0
    {
      DeviationSign(m, xs[i]);
    }
    NonNegative(Deviation(m), xs);
  }

  lemma DeviationExpands(xs: seq<real>, m: real, a: real, b: real)
    requires a == -2.0 * m && b == m * m
    ensures Total(Deviation(m), xs) == SquareSum(xs) + a * Sum(xs) + Count(xs) * b
  {
    forall x ensures Deviation(m)(x) == Square()(x) + a * Identity()(x) + b {
      Expand(x, m, a, b);
    }
    LinearCombination(Deviation(m), Square(), Identity(), a, b, xs);
  }

  lemma Expand(x: real, m: real, a: real, b: real)
    requires a == -2.0 * m && b == m * m
    ensures (x - m) * (x - m) == x * x + a * x + b
  {}

  // ----- The decision without a square root -----

  /** n times the sum of squares minus the square of the sum. */
  function Dispersion(xs: seq<real>): real {
    Count(xs) * SquareSum(xs) - Sum(xs) * Sum(xs)
  }

  lemma SpreadAtMean(q: real, s: real, n: real, m: real, p: real, v: real, a: real, b: real)
    requires n > 0.0 && s == n * m && a == -2.0 * m && b == m * m && p == q + a * s + n * b && p == n * v
    ensures n * n * v == n * q - s * s
  {
    assert n * b == m * s && a * s == -2.0 * (m * s);
    assert p == q - m * s;
    assert n * p == n * q - (n * m) * s;
  }

  /** The dispersion is n squared times the variance. */
  lemma DispersionIsVariance(xs: seq<real>)
    requires xs != []
    ensures Count(xs) * Count(xs) * Variance(xs) == Dispersion(xs)
  {
    var m, v, p := Mean(xs), Variance(xs), Total(Deviation(Mean(xs)), xs);
    DeviationExpands(xs, m, -2.0 * m, m * m);
    Divide(Sum(xs), Count(xs), m);
    Divide(p, Count(xs), v);
    SpreadAtMean(SquareSum(xs), Sum(xs), Count(xs), m, p, v, -2.0 * m, m * m);
  }

  predicate Flat(xs: seq<real>) {
    forall i, j | 0 <= i < |xs| && 0 <= j < |xs| :: xs[i] == xs[j]
  }

  lemma {:induction false} ConstantSum(xs: seq<real>, m: real)
    requires forall i | 0 <= i < |xs| :: xs[i] == m
    ensures Sum(xs) == Count(xs) * m
  {
    if xs != [] {
      ConstantSum(xs[1..], m);
      Distribute(0.0, 0.0, 0.0, Count(xs[1..]), m);
      assert Count(xs) == 1.0 + Count(xs[1..]);
    }
  }

  /** The dispersion is never negative, and is zero exactly for a flat baseline. */
  lemma DispersionSign(xs: seq<real>)
    ensures Dispersion(xs) >= 0.0
    ensures Dispersion(xs) == 0.0 <==> Flat(xs)
  {
    if xs != [] {
      var n, m, v := Count(xs), Mean(xs), Variance(xs);
      DispersionIsVariance(xs);
      Squares(m, xs);
      Divide(Total(Deviation(m), xs), n, v);
      PositiveFactor(n, v);
      if Flat(xs) {
        ConstantSum(xs, xs[0]);
        Divide(Sum(xs), n, xs[0]);
      }
    }
  }

  lemma PositiveFactor(n: real, v: real)
    requires n > 0.0 && v >= 0.0
    ensures n * n * v >= 0.0 && (n * n * v == 0.0 <==> v == 0.0) && (n * v == 0.0 <==> v == 0.0)
  {
    if v > 0.0 {
      assert n * v > 0.0;
      assert n * (n * v) > 0.0;
    }
  }

  lemma Ratio(d: real, n: real, std: real, threshold: real, z: real)
    requires n > 0.0 && std > 0.0 && threshold > 0.0 && z == d / std
    ensures z > threshold <==> n * d > 0.0 && (n * d) * (n * d) > threshold * threshold * (n * n * (std * std))
  {
    var a, b := n * d, threshold * (n * std);
    assert z * std == d;
    assert b > 0.0 && b * b == threshold * threshold * (n * n * (std * std));
    Cancel(z, threshold, std);
    Cancel(d, threshold * std, n);
    if a > 0.0 {
      SquareOrder(a, b);
    }
  }

  lemma DecisionScalars(n: real, s: real, m: real, v: real, std: real, threshold: real, c: real, d: real)
    requires n > 0.0 && threshold > 0.0 && std >= 0.0 && std * std == v && s == n * m && n * n * v == d
    ensures std != 0.0 <==> d > 0.0
    ensures std != 0.0 ==> ((c - m) / std > threshold <==>
              n * c > s && (n * c - s) * (n * c - s) > threshold * threshold * d)
  {
    if std != 0.0 {
      var k := n * std;
      assert k > 0.0 && k * k == n * n * (std * std) == d;
      PositiveProduct(k, k, d);
      assert n * (c - m) == n * c - s;
      Ratio(c - m, n, std, threshold, (c - m) / std);
      assert threshold * threshold * (n * n * (std * std)) == threshold * threshold * d;
    } else {
      ZeroSquare(std);
      assert v == 0.0;
      assert d == n * n * 0.0;
    }
  }

  /** A count is flagged exactly when the baseline is long enough, is not flat, and
      (n c - S) is positive with a square above threshold^2 (n Q - S^2). */
  lemma DecisionIsExact(sqrt: real -> real, minPoints: int, threshold: real, current: real, baseline: seq<real>)
    requires IsRoot(sqrt) && threshold > 0.0
    ensures Check(sqrt, minPoints, threshold, current, baseline).Some? <==>
            && |baseline| >= minPoints
            && Dispersion(baseline) > 0.0
            && Count(baseline) * current > Sum(baseline)
            && (Count(baseline) * current - Sum(baseline)) * (Count(baseline) * current - Sum(baseline))
               > threshold * threshold * Dispersion(baseline)
  {
    if baseline != [] {
      var m, v := Mean(baseline), Variance(baseline);
      var std := sqrt(v);
      DispersionIsVariance(baseline);
      Divide(Sum(baseline), Count(baseline), m);
      assert std >= 0.0 && std * std == v;
      DecisionScalars(Count(baseline), Sum(baseline), m, v, std, threshold, current, Dispersion(baseline));
    }
  }

  // ----- What the decision depends on -----

  lemma {:induction false} TotalSplit(f: real -> real, xs: seq<real>, i: nat)
    requires i < |xs|
    ensures Total(f, xs) == f(xs[i]) + Total(f, xs[..i] + xs[i + 1..])
  {
    var rest := xs[..i] + xs[i + 1..];
    if i == 0 {
      assert rest == xs[1..];
    } else {
      TotalSplit(f, xs[1..], i - 1);
      assert rest[1..] == xs[1..][..i - 1] + xs[1..][i..];
    }
  }

  lemma {:induction false} TotalReorder(f: real -> real, xs: seq<real>, ys: seq<real>)
    requires multiset(xs) == multiset(ys)
    ensures |xs| == |ys| && Total(f, xs) == Total(f, ys)
  {
    assert |multiset(xs)| == |multiset(ys)|;
    if xs != [] {
      assert xs[0] in multiset(ys);
      var i := IndexOf(ys, xs[0]);
      MultisetSplit(xs, ys, i);
      TotalReorder(f, xs[1..], ys[..i] + ys[i + 1..]);
      TotalSplit(f, ys, i);
    }
  }

  /** The whole finding depends on the baseline only as a multiset. */
  lemma OrderIrrelevant(sqrt: real -> real, minPoints: int, threshold: real, current: real, xs: seq<real>,
                        ys: seq<real>)
    requires threshold > 0.0 && multiset(xs) == multiset(ys)
    ensures Check(sqrt, minPoints, threshold, current, xs) == Check(sqrt, minPoints, threshold, current, ys)
  {
    TotalReorder(Identity(), xs, ys);
    if xs != [] {
      TotalReorder(Deviation(Mean(xs)), xs, ys);
    }
  }

  /** The change of scale and origin x -> a x + b. */
  function Line(a: real, b: real): real -> real {
    x => a * x + b
  }

  function Image(f: real -> real, xs: seq<real>): (ys: seq<real>)
    ensures |ys| == |xs| && forall i | 0 <= i < |xs| :: ys[i] == f(xs[i])
  {
    if xs == [] then [] else [f(xs[0])] + Image(f, xs[1..])
  }

  function Affine(a: real, b: real, xs: seq<real>): seq<real> {
    Image(Line(a, b), xs)
  }

  lemma {:induction false} TotalOfImage(f: real -> real, line: real -> real, g: real -> real, xs: seq<real>)
    requires forall x :: f(line(x)) == g(x)
    ensures Total(f, Image(line, xs)) == Total(g, xs)
  {
    if xs != [] {
      TotalOfImage(f, line, g, xs[1..]);
      assert Image(line, xs)[1..] == Image(line, xs[1..]);
    }
  }

  function Scaled(k: real, f: real -> real): real -> real {
    x => k * f(x)
  }

  lemma {:induction false} TotalScaled(f: real -> real, k: real, xs: seq<real>)
    ensures Total(Scaled(k, f), xs) == k * Total(f, xs)
  {
    if xs != [] {
      TotalScaled(f, k, xs[1..]);
      Distribute(k, f(xs[0]), Total(f, xs[1..]), 0.0, 0.0);
    }
  }

  /** The sum of an affine image. */
  lemma {:induction false} AffineSum(a: real, b: real, xs: seq<real>)
    ensures Sum(Affine(a, b, xs)) == a * Sum(xs) + Count(xs) * b
  {
    if xs != [] {
      AffineSum(a, b, xs[1..]);
      assert Affine(a, b, xs)[1..] == Affine(a, b, xs[1..]);
      Distribute(a, xs[0], Sum(xs[1..]), Count(xs[1..]), b);
      assert Count(xs) == 1.0 + Count(xs[1..]);
    }
  }

  /** The squared distances of an affine image. */
  lemma AffineSpread(a: real, b: real, xs: seq<real>, m: real, m': real, k: real)
    requires m' == a * m + b && k == a * a
    ensures Total(Deviation(m'), Affine(a, b, xs)) == k * Total(Deviation(m), xs)
  {
    forall x ensures Deviation(m')(Line(a, b)(x)) == Scaled(k, Deviation(m))(x) {
      DeviationAt(a, b, x, m, Line(a, b)(x), m', k);
    }
    TotalOfImage(Deviation(m'), Line(a, b), Scaled(k, Deviation(m)), xs);
    TotalScaled(Deviation(m), k, xs);
  }

  lemma DeviationAt(a: real, b: real, x: real, m: real, y: real, m': real, k: real)
    requires y == a * x + b && m' == a * m + b && k == a * a
    ensures Deviation(m')(y) == Scaled(k, Deviation(m))(x)
  {
    DeviationScales(a, x - m, y - m', k);
  }

  lemma DeviationScales(a: real, d: real, e: real, k: real)
    requires e == a * d && k == a * a
    ensures e * e == k * (d * d)
  {}

  lemma AffineMean(a: real, b: real, xs: seq<real>, m: real)
    requires xs != [] && m == Mean(xs)
    ensures Mean(Affine(a, b, xs)) == a * m + b
  {
    AffineSum(a, b, xs);
    Divide(Sum(xs), Count(xs), m);
    AffineDivided(Count(xs), a, b, m);
    Divide(Sum(Affine(a, b, xs)), Count(xs), a * m + b);
  }

  lemma AffineDivided(n: real, a: real, b: real, m: real)
    ensures n * (a * m + b) == a * (n * m) + n * b
  {}

  lemma AffineVariance(a: real, b: real, xs: seq<real>, k: real)
    requires xs != [] && k == a * a
    ensures Variance(Affine(a, b, xs)) == k * Variance(xs)
  {
    var ys, m, v := Affine(a, b, xs), Mean(xs), Variance(xs);
    AffineMean(a, b, xs, m);
    AffineSpread(a, b, xs, m, Mean(ys), k);
    Scale(Total(Deviation(m), xs), Count(xs), v, k, Total(Deviation(Mean(ys)), ys));
  }

  lemma Scale(x: real, n: real, y: real, k: real, x': real)
    requires n > 0.0 && y == x / n && x' == k * x
    ensures x' / n == k * y
  {
    assert y * n == x;
    assert x' == n * (k * y);
    Divide(x', n, k * y);
  }

  lemma AffineScore(c: real, m: real, r: real, a: real, b: real, c': real, m': real, r': real)
    requires a > 0.0 && r > 0.0 && c' == a * c + b && m' == a * m + b && r' == a * r
    ensures r' > 0.0 && (c' - m') / r' == (c - m) / r
  {
    var z := (c - m) / r;
    assert z * r == c - m;
    assert c' - m' == a * (c - m) == r' * z;
    Divide(c' - m', r', z);
  }

  lemma ScoreInvariant(sqrt: real -> real, current: real, baseline: seq<real>, a: real, b: real)
    requires IsRoot(sqrt) && a > 0.0
    ensures Score(sqrt, a * current + b, Affine(a, b, baseline)) == Score(sqrt, current, baseline)
  {
    if baseline != [] {
      var ys, m, v, k := Affine(a, b, baseline), Mean(baseline), Variance(baseline), a * a;
      AffineMean(a, b, baseline, m);
      AffineVariance(a, b, baseline, k);
      var r, s := sqrt(v), sqrt(Variance(ys));
      RootScales(r, s, a, v, Variance(ys));
      if r > 0.0 {
        AffineScore(current, m, r, a, b, a * current + b, Mean(ys), s);
      }
    }
  }

  /** A positive change of scale and any change of origin, applied to every count, leaves the
      score, and with it verdict, severity and confidence, as they were. */
  lemma AffineInvariant(sqrt: real -> real, minPoints: int, threshold: real, current: real, baseline: seq<real>,
                        a: real, b: real)
    requires IsRoot(sqrt) && threshold > 0.0 && a > 0.0
    ensures Score(sqrt, a * current + b, Affine(a, b, baseline)) == Score(sqrt, current, baseline)
    ensures var before := Check(sqrt, minPoints, threshold, current, baseline);
            var after := Check(sqrt, minPoints, threshold, a * current + b, Affine(a, b, baseline));
            && (before.None? <==> after.None?)
            && (before.Some? ==> after.value == before.value.(mean := a * before.value.mean + b))
  {
    ScoreInvariant(sqrt, current, baseline, a, b);
    if baseline != [] {
      AffineMean(a, b, baseline, Mean(baseline));
    }
  }

  lemma {:induction false} TotalConcat(f: real -> real, xs: seq<real>, ys: seq<real>)
    ensures Total(f, xs + ys) == Total(f, xs) + Total(f, ys)
  {
    if xs == [] {
      assert xs + ys == ys;
    } else {
      TotalConcat(f, xs[1..], ys);
      assert (xs + ys)[1..] == xs[1..] + ys;
    }
  }

  /** Counting every baseline bucket twice leaves the score as it was. */
  lemma DoubledScore(sqrt: real -> real, current: real, baseline: seq<real>)
    ensures Score(sqrt, current, baseline + baseline) == Score(sqrt, current, baseline)
  {
    if baseline != [] {
      var n, m := Count(baseline), Mean(baseline);
      var p := Total(Deviation(m), baseline);
      TotalConcat(Identity(), baseline, baseline);
      TotalConcat(Deviation(m), baseline, baseline);
      Halve(Sum(baseline), n);
      Halve(p, n);
      assert Count(baseline + baseline) == 2.0 * n;
      assert Mean(baseline + baseline) == m;
      assert Variance(baseline + baseline) == Variance(baseline);
    }
  }

  lemma Halve(x: real, n: real)
    requires n > 0.0
    ensures (x + x) / (2.0 * n) == x / n
  {
    var y := x / n;
    assert n * y == x;
    Divide(x + x, 2.0 * n, y);
  }

  /** A larger count is flagged whenever a smaller one is, at least as severely and with at
      least the confidence; confidence lies in (0, 1] and is 1 from twice the threshold on. */
  lemma SeverityMonotone(sqrt: real -> real, minPoints: int, threshold: real, baseline: seq<real>, low: real,
                         high: real)
    requires IsRoot(sqrt) && threshold > 0.0 && low <= high
    ensures var l := Check(sqrt, minPoints, threshold, low, baseline);
            var h := Check(sqrt, minPoints, threshold, high, baseline);
            l.Some? ==>
              && h.Some? && l.value.zScore <= h.value.zScore
              && Rank(l.value.severity) <= Rank(h.value.severity)
              && 0.0 < l.value.confidence <= h.value.confidence <= 1.0
              && (l.value.confidence == 1.0 <==> l.value.zScore >= 2.0 * threshold)
  {
    if Check(sqrt, minPoints, threshold, low, baseline).Some? {
      var std, m := sqrt(Variance(baseline)), Mean(baseline);
      assert std > 0.0;
      QuotientMonotone(low - m, high - m, std);
      var z0, z1 := (low - m) / std, (high - m) / std;
      Confidence(z0, threshold);
      Confidence(z1, threshold);
      QuotientMonotone(z0 - threshold, z1 - threshold, threshold);
    }
  }

  /** What a finding says: the number of counts, their mean, the distance of the current count
      from it in standard deviations, the severity by its boundaries, and as confidence the
      share by which the threshold is exceeded, at most 1. */
  lemma FindingExactly(sqrt: real -> real, minPoints: int, threshold: real, current: real, baseline: seq<real>)
    returns (std: real)
    requires IsRoot(sqrt) && threshold > 0.0 && Check(sqrt, minPoints, threshold, current, baseline).Some?
    ensures var f := Check(sqrt, minPoints, threshold, current, baseline).value;
            && baseline != [] && f.points == |baseline| && |baseline| as real * f.mean == Sum(baseline)
            && std > 0.0 && std * std == Variance(baseline) && std * f.zScore == current - f.mean
            && (f.severity == Critical <==> f.zScore >= 7.0)
            && (f.severity == High <==> 5.0 <= f.zScore < 7.0)
            && (f.severity == Medium <==> 4.0 <= f.zScore < 5.0)
            && (f.severity == Low <==> f.zScore < 4.0)
            && threshold * f.confidence == if f.zScore < 2.0 * threshold then f.zScore - threshold else threshold
  {
    std := sqrt(Variance(baseline));
    var n, m := |baseline| as real, Mean(baseline);
    var z := (current - m) / std;
    Divide(Sum(baseline), n, m);
    Divide(current - m, std, z);
    Divide(z - threshold, threshold, (z - threshold) / threshold);
    Confidence(z, threshold);
  }

  lemma Confidence(z: real, threshold: real)
    requires z > threshold > 0.0
    ensures (z - threshold) / threshold > 0.0
    ensures (z - threshold) / threshold < 1.0 <==> z < 2.0 * threshold
  {
    var over := (z - threshold) / threshold;
    assert over * threshold == z - threshold;
    OverThreshold(over, threshold, z);
  }

  lemma OverThreshold(over: real, threshold: real, z: real)
    requires z > threshold > 0.0 && over * threshold == z - threshold
    ensures over > 0.0
    ensures over < 1.0 <==> z < 2.0 * threshold
  {
    BelowOne(over, threshold, over * threshold);
    NotPositive(over, threshold, over * threshold);
  }

}
