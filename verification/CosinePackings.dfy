/** Cosine similarity as the vector store computes it, and how many embeddings of one dimension
    can be pairwise dissimilar: finitely many exactly when the threshold is below 1. */
module CosinePackings {
  import opened CollectionBounds
  import opened SemanticDetector
  import opened Sequences
  import C = Cosine
  import R = Reals

  /** The vector scaled to length 1, unless it is zero. */
  function Unit(sqrt: real -> real, a: Embedding): (u: Embedding)
    ensures |u| == |a|
  {
    var m := C.Norm(sqrt, a);
    if m == 0.0 then a else C.Scale(1.0 / m, a)
  }

  /** 1 minus the store's cosine distance; vectors of different dimensions never meet. */
  function CosineSimilarity(sqrt: real -> real): (Embedding, Embedding) -> real {
    (a: Embedding, b: Embedding) => if |a| == |b| then C.Dot(Unit(sqrt, a), Unit(sqrt, b)) else 0.0
  }

  /** The d-dimensional vectors that have a direction. */
  function Directed(d: nat): Embedding -> bool {
    (e: Embedding) => |e| == d && C.Dot(e, e) != 0.0
  }

  function CosineConfig(sqrt: real -> real, threshold: real, maxSize: nat, batch: nat): Config {
    Config(CosineSimilarity(sqrt), threshold, maxSize, batch)
  }

  lemma CosineSymmetric(sqrt: real -> real, threshold: real, maxSize: nat, batch: nat)
    ensures Symmetric(CosineConfig(sqrt, threshold, maxSize, batch))
  {
    forall a: Embedding, b: Embedding ensures CosineSimilarity(sqrt)(a, b) == CosineSimilarity(sqrt)(b, a) {
      if |a| == |b| {
        C.DotSymmetric(Unit(sqrt, a), Unit(sqrt, b));
      }
    }
  }

  // ----- Unit vectors -----

  /** A directed vector's unit is the vector divided by its norm. */
  lemma UnitScales(sqrt: real -> real, a: Embedding) returns (m: real, k: real)
    requires R.IsRoot(sqrt) && C.Dot(a, a) != 0.0
    ensures m == C.Norm(sqrt, a) && m > 0.0 && m * m == C.Dot(a, a)
    ensures k > 0.0 && k * m == 1.0 && Unit(sqrt, a) == C.Scale(k, a)
  {
    m := C.Norm(sqrt, a);
    C.NormSign(sqrt, a);
    C.RootIsZero(m, C.Dot(a, a));
    k := 1.0 / m;
    Reciprocal(m, k);
  }

  lemma Reciprocal(m: real, k: real)
    requires m > 0.0 && k == 1.0 / m
    ensures k > 0.0 && k * m == 1.0
  {}

  lemma UnitLength(sqrt: real -> real, a: Embedding)
    requires R.IsRoot(sqrt) && C.Dot(a, a) != 0.0
    ensures C.Dot(Unit(sqrt, a), Unit(sqrt, a)) == 1.0
  {
    var m, k := UnitScales(sqrt, a);
    var q := C.Dot(a, a);
    ScaledDot(a, a, k, k, k * q);
    Cancelled(k, m, k, m, q, k * q, C.Dot(Unit(sqrt, a), Unit(sqrt, a)));
  }

  lemma ScaledDot(a: Embedding, b: Embedding, k: real, l: real, p: real)
    requires |a| == |b| && p == l * C.Dot(a, b)
    ensures C.Dot(C.Scale(k, a), C.Scale(l, b)) == k * p
  {
    ScaledSecond(a, b, l, C.Dot(a, b), p);
    ScaledFirst(a, C.Scale(l, b), k, p, k * p);
  }

  lemma ScaledFirst(a: Embedding, c: Embedding, k: real, p: real, x: real)
    requires |a| == |c| && p == C.Dot(a, c) && x == k * p
    ensures C.Dot(C.Scale(k, a), c) == x
  {
    C.ScaleDot(k, a, c);
  }

  lemma ScaledSecond(a: Embedding, b: Embedding, l: real, q: real, p: real)
    requires |a| == |b| && q == C.Dot(a, b) && p == l * q
    ensures C.Dot(a, C.Scale(l, b)) == p
  {
    C.DotSymmetric(b, a);
    C.ScaleDot(l, b, a);
    C.DotSymmetric(a, C.Scale(l, b));
  }

  /** x == q / (m n) */
  predicate Quotient(x: real, m: real, n: real, q: real) {
    m * n != 0.0 && x * (m * n) == q
  }

  lemma Cancelled(k: real, m: real, l: real, n: real, q: real, p: real, x: real)
    requires k * m == 1.0 && l * n == 1.0 && p == l * q && x == k * p && m > 0.0 && n > 0.0
    ensures Quotient(x, m, n, q)
    ensures q == m * n ==> x == 1.0
  {
    Undo(l, n, q, p);
    Undo(k, m, p, x);
    assert x * (m * n) == (x * m) * n;
    R.PositiveProduct(m, n, m * n);
    if q == m * n {
      assert p == (l * n) * m;
    }
  }

  lemma Undo(k: real, m: real, q: real, p: real)
    requires k * m == 1.0 && p == k * q
    ensures p * m == q
  {
    assert p * m == (k * m) * q;
  }

  /** The dot product of the units is the cosine: the dot product over the two norms. */
  lemma CosineIsQuotient(sqrt: real -> real, a: Embedding, b: Embedding)
    requires R.IsRoot(sqrt) && |a| == |b| && C.Dot(a, a) != 0.0 && C.Dot(b, b) != 0.0
    ensures Quotient(CosineSimilarity(sqrt)(a, b), C.Norm(sqrt, a), C.Norm(sqrt, b), C.Dot(a, b))
  {
    var m, k := UnitScales(sqrt, a);
    var n, l := UnitScales(sqrt, b);
    QuotientOf(a, b, Unit(sqrt, a), Unit(sqrt, b), k, l, m, n);
  }

  lemma QuotientOf(a: Embedding, b: Embedding, u: Embedding, v: Embedding, k: real, l: real, m: real, n: real)
    requires |a| == |b| && u == C.Scale(k, a) && v == C.Scale(l, b)
    requires k * m == 1.0 && l * n == 1.0 && m > 0.0 && n > 0.0
    ensures Quotient(C.Dot(u, v), m, n, C.Dot(a, b))
  {
    var q := C.Dot(a, b);
    ScaledDot(a, b, k, l, l * q);
    Cancelled(k, m, l, n, q, l * q, C.Dot(u, v));
  }

  lemma {:induction false} ScaleAt(k: real, a: Embedding, i: nat)
    requires i < |a|
    ensures C.Scale(k, a)[i] == k * a[i]
  {
    if i > 0 {
      ScaleAt(k, a[1..], i - 1);
    }
  }

  /** u - v */
  function Difference(u: Embedding, v: Embedding): Embedding
    requires |u| == |v|
  {
    C.Combine(1.0, u, -1.0, v)
  }

  lemma {:induction false} DifferenceAt(u: Embedding, v: Embedding, i: nat)
    requires |u| == |v| && i < |u|
    ensures Difference(u, v)[i] == u[i] - v[i]
  {
    if i > 0 {
      DifferenceAt(u[1..], v[1..], i - 1);
    }
  }

  /** The squared distance of two unit vectors. */
  lemma UnitDistance(u: Embedding, v: Embedding)
    requires |u| == |v| && C.Dot(u, u) == 1.0 && C.Dot(v, v) == 1.0
    ensures C.Dot(Difference(u, v), Difference(u, v)) == 2.0 - 2.0 * C.Dot(u, v)
  {
    C.CombineSquare(1.0, u, -1.0, v, Difference(u, v), 1.0, -2.0, 1.0);
  }

  // ----- From threshold 1 on any number of directions is dissimilar -----

  lemma DifferentDirections(u: Embedding, v: Embedding, i: nat)
    requires |u| == |v| && C.Dot(u, u) == 1.0 && C.Dot(v, v) == 1.0 && i < |u| && u[i] != v[i]
    ensures C.Dot(u, v) < 1.0
  {
    UnitDistance(u, v);
    C.SquareSign(Difference(u, v));
    DifferenceAt(u, v, i);
  }

  /** (1, i, 0, ..., 0) */
  function Planar(d: nat, i: nat): (e: Embedding)
    ensures |e| == d
  {
    seq(d, j => if j == 0 then 1.0 else if j == 1 then i as real else 0.0)
  }

  lemma PlanarDirected(d: nat, i: nat)
    requires d >= 2
    ensures Directed(d)(Planar(d, i))
  {
    C.SquareSign(Planar(d, i));
    assert Planar(d, i)[0] == 1.0;
  }

  lemma PlanarDissimilar(sqrt: real -> real, d: nat, i: nat, j: nat)
    requires R.IsRoot(sqrt) && d >= 2 && i != j
    ensures CosineSimilarity(sqrt)(Planar(d, i), Planar(d, j)) < 1.0
  {
    var a, b := Planar(d, i), Planar(d, j);
    PlanarDirected(d, i);
    PlanarDirected(d, j);
    UnitLength(sqrt, a);
    UnitLength(sqrt, b);
    var m, k := UnitScales(sqrt, a);
    var n, l := UnitScales(sqrt, b);
    ScaleAt(k, a, 0);
    ScaleAt(l, b, 0);
    ScaleAt(k, a, 1);
    ScaleAt(l, b, 1);
    if k != l {
      DifferentDirections(Unit(sqrt, a), Unit(sqrt, b), 0);
    } else {
      Injective(k, i as real, j as real);
      DifferentDirections(Unit(sqrt, a), Unit(sqrt, b), 1);
    }
  }

  lemma Injective(k: real, x: real, y: real)
    requires k > 0.0 && x != y
    ensures k * x != k * y
  {
    assert k * (x - y) != 0.0;
  }

  lemma PlanarPacks(sqrt: real -> real, cfg: Config, d: nat, n: nat)
    requires R.IsRoot(sqrt) && d >= 2 && cfg.similarity == CosineSimilarity(sqrt) && cfg.threshold >= 1.0
    ensures Packs(cfg, Directed(d), n)
  {
    var es := seq(n, i requires 0 <= i < n => Planar(d, i));
    forall i | 0 <= i < n ensures Directed(d)(es[i]) {
      PlanarDirected(d, i);
    }
    forall i, j | 0 <= i < n && 0 <= j < n && i != j ensures cfg.similarity(es[i], es[j]) < cfg.threshold {
      PlanarDissimilar(sqrt, d, i, j);
    }
    assert Packing(cfg, Directed(d), es);
  }

  // ----- Below threshold 1 a grid bounds every packing -----

  /** The grid cell of a vector: m cells per unit of length in each dimension. */
  function Cell(m: nat, u: Embedding): (c: seq<int>)
    ensures |c| == |u|
  {
    seq(|u|, i requires 0 <= i < |u| => (u[i] * m as real).Floor)
  }

  lemma CellAt(m: nat, u: Embedding, i: nat, n: real, p: real)
    requires i < |u| && n == m as real && p == u[i] * n
    ensures Cell(m, u)[i] == p.Floor
  {}

  /** The cells that the vectors of length 1 lie in, and some more. */
  function Cells(d: nat, m: int): set<seq<int>> {
    if d == 0 then {[]} else set x: int, c | -m <= x <= m && c in Cells(d - 1, m) :: [x] + c
  }

  lemma {:induction false} InCells(c: seq<int>, m: int)
    requires forall i | 0 <= i < |c| :: -m <= c[i] <= m
    ensures c in Cells(|c|, m)
  {
    if c != [] {
      InCells(c[1..], m);
      assert c == [c[0]] + c[1..];
    }
  }

  lemma {:induction false} CoordinateBound(u: Embedding, i: nat)
    requires i < |u|
    ensures u[i] * u[i] <= C.Dot(u, u)
  {
    C.SquareSign(u[1..]);
    R.SquareSign(u[0] * u[0], u[0]);
    if i > 0 {
      CoordinateBound(u[1..], i - 1);
    }
  }

  lemma WithinOne(x: real, m: int, p: real)
    requires m >= 0 && x * x <= 1.0 && p == x * m as real
    ensures -m <= p.Floor <= m
  {
    if x > 1.0 {
      R.StrictSquare(1.0, x);
    } else if x < -1.0 {
      R.StrictSquare(1.0, -x);
    }
    Between(x, m as real, p);
  }

  lemma Between(x: real, n: real, p: real)
    requires -1.0 <= x <= 1.0 && n >= 0.0 && p == x * n
    ensures -n <= p <= n
  {
    NonNegative(1.0 - x, n, n - p);
    NonNegative(1.0 + x, n, n + p);
  }

  lemma NonNegative(x: real, y: real, p: real)
    requires x >= 0.0 && y >= 0.0 && p == x * y
    ensures p >= 0.0
  {}

  lemma UnitInCells(u: Embedding, m: int)
    requires m >= 0 && C.Dot(u, u) == 1.0
    ensures Cell(m, u) in Cells(|u|, m)
  {
    forall i | 0 <= i < |u| ensures -m <= Cell(m, u)[i] <= m {
      CoordinateBound(u, i);
      WithinOne(u[i], m, u[i] * m as real);
    }
    InCells(Cell(m, u), m);
  }

  /** m n is 1 */
  predicate Reciprocals(m: real, n: real) {
    m > 0.0 && n > 0.0 && n * m == 1.0
  }

  lemma SameCell(x: real, y: real, n: real, h: real, p: real, q: real)
    requires Reciprocals(n, h) && p == x * n && q == y * n && p.Floor == q.Floor
    ensures -h <= x - y <= h
  {
    assert -1.0 < p - q < 1.0;
    Between(p - q, h, (p - q) * h);
    Undo(n, h, x, p);
    Undo(n, h, y, q);
  }

  lemma SameCellClose(u: Embedding, v: Embedding, m: nat, n: real, h: real, i: nat)
    requires |u| == |v| && i < |u| && n == m as real && Reciprocals(n, h) && Cell(m, u) == Cell(m, v)
    ensures -h <= Difference(u, v)[i] <= h
  {
    var p, q := u[i] * n, v[i] * n;
    CellAt(m, u, i, n, p);
    CellAt(m, v, i, n, q);
    SameCell(u[i], v[i], n, h, p, q);
    DifferenceAt(u, v, i);
  }

  lemma {:induction false} SmallSquares(w: Embedding, h: real)
    requires 0.0 <= h <= 1.0 && forall i | 0 <= i < |w| :: -h <= w[i] <= h
    ensures C.Dot(w, w) <= |w| as real * h
  {
    if w != [] {
      SmallSquares(w[1..], h);
      SmallSquare(w[0], h);
      assert |w| as real * h == h + |w[1..]| as real * h;
    }
  }

  lemma SmallSquare(x: real, h: real)
    requires -h <= x <= h && 0.0 <= h <= 1.0
    ensures x * x <= h
  {
    if x >= 0.0 {
      NonNegative(x, 1.0 - x, x - x * x);
    } else {
      NonNegative(-x, 1.0 + x, -x - x * x);
    }
  }

  /** Unit vectors in one cell are alike. */
  lemma SameCellAlike(u: Embedding, v: Embedding, m: nat, n: real, h: real)
    requires |u| == |v| && C.Dot(u, u) == 1.0 && C.Dot(v, v) == 1.0
    requires m > 0 && n == m as real && Reciprocals(n, h) && Cell(m, u) == Cell(m, v)
    ensures 2.0 - 2.0 * C.Dot(u, v) <= |u| as real * h
  {
    var w := Difference(u, v);
    forall i | 0 <= i < |w| ensures -h <= w[i] <= h {
      SameCellClose(u, v, m, n, h, i);
    }
    R.Cancel(h, 1.0, n);
    SmallSquares(w, h);
    UnitDistance(u, v);
  }

  /** A grid so fine that vectors of one cell reach the threshold. */
  function Fineness(d: nat, threshold: real): (m: nat)
    requires threshold < 1.0
    ensures m > 0 && d as real / (1.0 - threshold) <= m as real
  {
    NonNegativeQuotient(d as real, 1.0 - threshold, d as real / (1.0 - threshold));
    (d as real / (1.0 - threshold)).Floor + 1
  }

  lemma NonNegativeQuotient(x: real, y: real, q: real)
    requires x >= 0.0 && y > 0.0 && q == x / y
    ensures q >= 0.0
  {
    assert q * y == x;
    if q < 0.0 {
      R.PositiveProduct(-q, y, -x);
    }
  }

  lemma FineEnough(d: real, gap: real, q: real, n: real, h: real)
    requires gap > 0.0 && q == d / gap && q <= n && Reciprocals(n, h)
    ensures d * h <= gap
  {
    assert q * gap == d;
    NonNegative(n - q, h, 1.0 - q * h);
    NonNegative(1.0 - q * h, gap, gap - (q * h) * gap);
    assert (q * gap) * h == (q * h) * gap;
  }

  lemma OtherCell(u: Embedding, v: Embedding, threshold: real, m: nat)
    requires |u| == |v| && C.Dot(u, u) == 1.0 && C.Dot(v, v) == 1.0
    requires C.Dot(u, v) < threshold < 1.0 && m == Fineness(|u|, threshold)
    ensures Cell(m, u) != Cell(m, v)
  {
    if Cell(m, u) == Cell(m, v) {
      var n, d, gap := m as real, |u| as real, 1.0 - threshold;
      var h := 1.0 / n;
      Reciprocal(n, h);
      SameCellAlike(u, v, m, n, h);
      FineEnough(d, gap, d / gap, n, h);
    }
  }

  /** Pairwise dissimilar embeddings lie in different cells, of which there are finitely many. */
  lemma PackingInCells(sqrt: real -> real, cfg: Config, d: nat, m: nat, es: seq<Embedding>)
    requires R.IsRoot(sqrt) && cfg.similarity == CosineSimilarity(sqrt) && cfg.threshold < 1.0
    requires m == Fineness(d, cfg.threshold) && Packing(cfg, Directed(d), es)
    ensures |es| <= |Cells(d, m)|
  {
    var cells := seq(|es|, i requires 0 <= i < |es| => Cell(m, Unit(sqrt, es[i])));
    forall i | 0 <= i < |es| ensures C.Dot(Unit(sqrt, es[i]), Unit(sqrt, es[i])) == 1.0 && cells[i] in Cells(d, m) {
      assert Directed(d)(es[i]);
      UnitLength(sqrt, es[i]);
      UnitInCells(Unit(sqrt, es[i]), m);
    }
    forall i, j | 0 <= i < j < |es| ensures cells[i] != cells[j] {
      assert Directed(d)(es[i]) && Directed(d)(es[j]);
      assert cfg.similarity(es[i], es[j]) < cfg.threshold;
      OtherCell(Unit(sqrt, es[i]), Unit(sqrt, es[j]), cfg.threshold, m);
    }
    ElementsCount(cells);
    SubsetCount(Elements(cells), Cells(d, m));
  }

  // ----- The collection's size under cosine similarity -----

  /** Below threshold 1 the collection is bounded in every run, whatever fails in it, whatever
      its maximum and its batch: by the number of grid cells per service. */
  lemma CosineBounded(sqrt: real -> real, cfg: Config, calls: seq<Call>, watched: set<string>, d: nat)
    requires R.IsRoot(sqrt) && cfg == CosineConfig(sqrt, cfg.threshold, cfg.maxSize, cfg.batch)
    requires cfg.threshold < 1.0 && HonestRun(cfg, calls) && From(calls, watched, Directed(d))
    ensures |Exec(cfg, calls).items| <= |watched| * |Cells(d, Fineness(d, cfg.threshold))|
  {
    var m := Fineness(d, cfg.threshold);
    CosineSymmetric(sqrt, cfg.threshold, cfg.maxSize, cfg.batch);
    forall es | Packing(cfg, Directed(d), es) ensures |es| <= |Cells(d, m)| {
      PackingInCells(sqrt, cfg, d, m, es);
    }
    BoundedByPackings(cfg, calls, watched, Directed(d), |Cells(d, m)|);
  }

  /** With embeddings of two dimensions or more, the collection of a set of services has no
      bound exactly when they outnumber the batch and the threshold is at least 1. */
  lemma CosineUnboundedExactly(sqrt: real -> real, cfg: Config, watched: set<string>, d: nat)
    requires R.IsRoot(sqrt) && cfg == CosineConfig(sqrt, cfg.threshold, cfg.maxSize, cfg.batch) && d >= 2
    ensures Unbounded(cfg, watched, Directed(d)) <==> |watched| > cfg.batch && cfg.threshold >= 1.0
  {
    CosineSymmetric(sqrt, cfg.threshold, cfg.maxSize, cfg.batch);
    UnboundedExactly(cfg, watched, Directed(d));
    if cfg.threshold >= 1.0 {
      forall n: nat ensures Packs(cfg, Directed(d), n) {
        PlanarPacks(sqrt, cfg, d, n);
      }
    } else {
      var cells := |Cells(d, Fineness(d, cfg.threshold))|;
      assert !Packs(cfg, Directed(d), cells + 1) by {
        forall es | Packing(cfg, Directed(d), es) ensures |es| <= cells {
          PackingInCells(sqrt, cfg, d, Fineness(d, cfg.threshold), es);
        }
      }
    }
  }
}
