/**
 * Cosine similarity, trend strength and average embedding of the LINE webhook's
 * embedding service. Numbers are exact reals; the square root is a parameter.
 */
module EmbeddingService {
  type Vector = seq<real>

  /**
   * Real multiplication. Products are written through this function in the
   * sums below so that squares reach the solver as plain terms.
   */
  function Prod(x: real, y: real): real
  {
    x * y
  }

  /** `sqrt` is a square root on the non-negative reals. */
  ghost predicate IsSqrt(sqrt: real -> real)
  {
    forall x: real {:trigger sqrt(x)} :: 0.0 <= x ==> 0.0 <= sqrt(x) && Prod(sqrt(x), sqrt(x)) == x
  }

  /** The sum of `a[i] * b[i]` over the first `n` components. */
  function Dot(a: Vector, b: Vector, n: nat): real
    requires n <= |a| && n <= |b|
  {
    if n == 0 then 0.0 else Dot(a, b, n - 1) + Prod(a[n - 1], b[n - 1])
  }

  /** The squared Euclidean norm. */
  function Norm2(a: Vector): real
  {
    Dot(a, a, |a|)
  }

  /** Every component is 0. */
  predicate IsZero(a: Vector)
  {
    forall i :: 0 <= i < |a| ==> a[i] == 0.0
  }

  /**
   * `cosineSimilarity(a, b)`: 0 for vectors of different length or empty ones
   * and when the product of the norms is 0, otherwise the dot product divided
   * by that product.
   */
  function Cosine(a: Vector, b: Vector, sqrt: real -> real): real
  {
    if |a| != |b| || |a| == 0 then 0.0
    else
      var den := Prod(sqrt(Norm2(a)), sqrt(Norm2(b)));
      if den == 0.0 then 0.0 else Dot(a, b, |a|) / den
  }

  /** Cosine similarity as a two-argument function, for the pair counting. */
  function CosineFn(sqrt: real -> real): (Vector, Vector) -> real
  {
    (a: Vector, b: Vector) => Cosine(a, b, sqrt)
  }

  /** The loop of `cosineSimilarity`, accumulating the dot product and both norms. */
  method CosineSimilarity(a: Vector, b: Vector, sqrt: real -> real) returns (r: real)
    ensures r == Cosine(a, b, sqrt)
    ensures |a| != |b| || |a| == 0 ==> r == 0.0
  {
    if |a| != |b| || |a| == 0 {
      return 0.0;
    }
    var dot, normA, normB := 0.0, 0.0, 0.0;
    for i := 0 to |a|
      invariant dot == Dot(a, b, i)
      invariant normA == Dot(a, a, i)
      invariant normB == Dot(b, b, i)
    {
      dot := dot + a[i] * b[i];
      normA := normA + a[i] * a[i];
      normB := normB + b[i] * b[i];
    }
    var den := sqrt(normA) * sqrt(normB);
    r := if den == 0.0 then 0.0 else dot / den;
  }

  lemma {:induction false} DotSymmetric(a: Vector, b: Vector, n: nat)
    requires n <= |a| && n <= |b|
    ensures Dot(a, b, n) == Dot(b, a, n)
  {
    if n > 0 {
      DotSymmetric(a, b, n - 1);
      assert Prod(a[n - 1], b[n - 1]) == Prod(b[n - 1], a[n - 1]);
    }
  }

  /** Cosine similarity is symmetric. */
  lemma CosineSymmetric(a: Vector, b: Vector, sqrt: real -> real)
    ensures Cosine(a, b, sqrt) == Cosine(b, a, sqrt)
  {
    if |a| == |b| && |a| > 0 {
      DotSymmetric(a, b, |a|);
      assert Prod(sqrt(Norm2(a)), sqrt(Norm2(b))) == Prod(sqrt(Norm2(b)), sqrt(Norm2(a)));
    }
  }

  /** A product of two positive numbers is positive. */
  lemma ProdPositive(x: real, y: real)
    requires x > 0.0 && y > 0.0
    ensures Prod(x, y) > 0.0
  {
  }

  /** A square is non-negative, and positive unless its root is 0. */
  lemma SquarePositive(x: real)
    ensures Prod(x, x) >= 0.0
    ensures x != 0.0 ==> Prod(x, x) > 0.0
  {
    if x > 0.0 {
      ProdPositive(x, x);
    } else if x < 0.0 {
      ProdPositive(-x, -x);
      assert Prod(-x, -x) == Prod(x, x);
    }
  }

  /** A product is 0 exactly when a factor is. */
  lemma ProdZero(x: real, y: real)
    ensures Prod(x, y) == 0.0 <==> x == 0.0 || y == 0.0
  {
    var ax, ay := if x < 0.0 then -x else x, if y < 0.0 then -y else y;
    if x != 0.0 && y != 0.0 {
      ProdPositive(ax, ay);
      assert Prod(x, y) == Prod(ax, ay) || Prod(x, y) == -Prod(ax, ay);
    }
  }

  /** A sum of squares is non-negative, and 0 exactly when every term is 0. */
  lemma {:induction false} SquaresZero(a: Vector, n: nat)
    requires n <= |a|
    ensures Dot(a, a, n) >= 0.0
    ensures Dot(a, a, n) == 0.0 <==> forall i :: 0 <= i < n ==> a[i] == 0.0
  {
    if n > 0 {
      SquaresZero(a, n - 1);
      SquarePositive(a[n - 1]);
    }
  }

  lemma SqrtZero(sqrt: real -> real, x: real)
    requires IsSqrt(sqrt) && 0.0 <= x
    ensures sqrt(x) >= 0.0
    ensures sqrt(x) == 0.0 <==> x == 0.0
  {
    SquarePositive(sqrt(x));
  }

  /** Under a true square root the norm product vanishes exactly when one vector is all zeros. */
  lemma NormProductZero(a: Vector, b: Vector, sqrt: real -> real)
    requires IsSqrt(sqrt)
    ensures Prod(sqrt(Norm2(a)), sqrt(Norm2(b))) == 0.0 <==> IsZero(a) || IsZero(b)
  {
    SquaresZero(a, |a|);
    SquaresZero(b, |b|);
    SqrtZero(sqrt, Norm2(a));
    SqrtZero(sqrt, Norm2(b));
    ProdZero(sqrt(Norm2(a)), sqrt(Norm2(b)));
  }

  /** Cosine similarity of a vector with an all-zero vector is 0. */
  lemma CosineOfZero(a: Vector, b: Vector, sqrt: real -> real)
    requires IsSqrt(sqrt)
    requires IsZero(a) || IsZero(b)
    ensures Cosine(a, b, sqrt) == 0.0
  {
    NormProductZero(a, b, sqrt);
  }

  /** A non-zero vector is fully similar to itself. */
  lemma CosineSelf(a: Vector, sqrt: real -> real)
    requires IsSqrt(sqrt)
    requires !IsZero(a)
    ensures Cosine(a, a, sqrt) == 1.0
  {
    SquaresZero(a, |a|);
    var n := Norm2(a);
    assert n >= 0.0 && n != 0.0;
    assert Prod(sqrt(n), sqrt(n)) == n;
    assert n / n == 1.0;
  }

  /** The Cauchy–Schwarz step: the sum of squares of `y*a[i] - x*b[i]`, expanded, is non-negative. */
  lemma {:induction false} CrossNonNegative(a: Vector, b: Vector, x: real, y: real, n: nat)
    requires n <= |a| && n <= |b|
    ensures Prod(y, y) * Dot(a, a, n) + Prod(x, x) * Dot(b, b, n) - 2.0 * Prod(x, y) * Dot(a, b, n) >= 0.0
  {
    if n > 0 {
      CrossNonNegative(a, b, x, y, n - 1);
      var p, q := a[n - 1], b[n - 1];
      Expand(p, q, x, y);
      SquarePositive(y * p - x * q);
      Distribute(Prod(y, y), Dot(a, a, n - 1), Prod(p, p));
      Distribute(Prod(x, x), Dot(b, b, n - 1), Prod(q, q));
      Distribute(2.0 * Prod(x, y), Dot(a, b, n - 1), Prod(p, q));
    }
  }

  lemma Expand(p: real, q: real, x: real, y: real)
    ensures Prod(y * p - x * q, y * p - x * q)
         == Prod(y, y) * Prod(p, p) + Prod(x, x) * Prod(q, q) - 2.0 * Prod(x, y) * Prod(p, q)
  {
  }

  lemma Distribute(c: real, u: real, v: real)
    ensures c * (u + v) == c * u + c * v
  {
  }

  /** Cauchy–Schwarz: the squared dot product is at most the product of squared norms. */
  lemma CauchySchwarz(a: Vector, b: Vector)
    requires |a| == |b|
    ensures Prod(Dot(a, b, |a|), Dot(a, b, |a|)) <= Prod(Norm2(a), Norm2(b))
  {
    var na, nb, d := Norm2(a), Norm2(b), Dot(a, b, |a|);
    SquaresZero(a, |a|);
    if na == 0.0 {
      ZeroDot(a, b, |a|);
      assert d == 0.0;
      assert Prod(na, nb) == 0.0;
    } else {
      CrossNonNegative(a, b, na, d, |a|);
      CauchySchwarzIdentity(na, nb, d);
      PositiveFactor(na, Prod(na, nb) - Prod(d, d));
    }
  }

  lemma CauchySchwarzIdentity(na: real, nb: real, d: real)
    ensures Prod(d, d) * na + Prod(na, na) * nb - 2.0 * Prod(na, d) * d == na * (Prod(na, nb) - Prod(d, d))
  {
  }

  lemma PositiveFactor(p: real, q: real)
    requires p > 0.0 && Prod(p, q) >= 0.0
    ensures q >= 0.0
  {
  }

  lemma {:induction false} ZeroDot(a: Vector, b: Vector, n: nat)
    requires n <= |a| && n <= |b|
    requires forall i :: 0 <= i < n ==> a[i] == 0.0
    ensures Dot(a, b, n) == 0.0
  {
    if n > 0 {
      ZeroDot(a, b, n - 1);
    }
  }

  /** Cosine similarity lies between -1 and 1. */
  lemma CosineRange(a: Vector, b: Vector, sqrt: real -> real)
    requires IsSqrt(sqrt)
    ensures -1.0 <= Cosine(a, b, sqrt) <= 1.0
  {
    if |a| == |b| && |a| > 0 {
      var sa, sb := sqrt(Norm2(a)), sqrt(Norm2(b));
      var den := Prod(sa, sb);
      if den != 0.0 {
        var d := Dot(a, b, |a|);
        SquaresZero(a, |a|);
        SquaresZero(b, |b|);
        SqrtZero(sqrt, Norm2(a));
        SqrtZero(sqrt, Norm2(b));
        CauchySchwarz(a, b);
        ProdOfSquares(sa, sb);
        assert Prod(den, den) == Prod(Norm2(a), Norm2(b));
        ProdZero(sa, sb);
        ProdPositive(sa, sb);
        AbsBound(d, den);
        DivBound(d, den);
      }
    }
  }

  lemma ProdOfSquares(u: real, v: real)
    ensures Prod(Prod(u, v), Prod(u, v)) == Prod(Prod(u, u), Prod(v, v))
  {
  }

  lemma AbsBound(d: real, den: real)
    requires den > 0.0 && Prod(d, d) <= Prod(den, den)
    ensures -den <= d <= den
  {
    assert Prod(-d, -d) == Prod(d, d);
    if d > den {
      SquareMonotone(d, den);
    } else if d < -den {
      SquareMonotone(-d, den);
    }
  }

  lemma SquareMonotone(u: real, v: real)
    requires u > v >= 0.0
    ensures Prod(u, u) > Prod(v, v)
  {
    assert Prod(u - v, u + v) == Prod(u, u) - Prod(v, v);
    ProdPositive(u - v, u + v);
  }

  lemma DivMonotone(x: real, y: real, p: real)
    requires p > 0.0 && x <= y
    ensures x / p <= y / p
  {
    var w := y / p - x / p;
    assert Prod(p, w) == y - x;
    PositiveFactor(p, w);
  }

  lemma DivBound(d: real, den: real)
    requires den > 0.0 && -den <= d <= den
    ensures -1.0 <= d / den <= 1.0
  {
    assert d / den * den == d;
  }

  /** How strongly past meals resemble each other. */
  datatype Strength = Weak | Medium | Strong

  function Level(s: Strength): nat
  {
    match s
    case Weak => 0
    case Medium => 1
    case Strong => 2
  }

  /** The ratio thresholds: at least 60% strong, at least 30% medium, otherwise weak. */
  function Classify(ratio: real): Strength
  {
    if ratio >= 0.6 then Strong else if ratio >= 0.3 then Medium else Weak
  }

  /** A higher ratio never gives a lower strength. */
  lemma ClassifyMonotone(r1: real, r2: real)
    requires r1 <= r2
    ensures Level(Classify(r1)) <= Level(Classify(r2))
  {
  }

  /** Pair `(i, j)` counts as highly similar. */
  predicate High(e: seq<Vector>, sim: (Vector, Vector) -> real, t: real, i: nat, j: nat)
    requires i < |e| && j < |e|
  {
    sim(e[i], e[j]) >= t
  }

  /** The number of `j` with `i < j < m` for which pair `(i, j)` is high. */
  function RowHigh(e: seq<Vector>, sim: (Vector, Vector) -> real, t: real, i: nat, m: nat): (c: nat)
    requires i < |e| && m <= |e|
    ensures c <= if m <= i + 1 then 0 else m - i - 1
  {
    if m <= i + 1 then 0 else RowHigh(e, sim, t, i, m - 1) + (if High(e, sim, t, i, m - 1) then 1 else 0)
  }

  /** The number of high pairs `(p, q)`, `p < q`, whose first index is below `i`. */
  function HighBefore(e: seq<Vector>, sim: (Vector, Vector) -> real, t: real, i: nat): nat
    requires i <= |e|
  {
    if i == 0 then 0 else HighBefore(e, sim, t, i - 1) + RowHigh(e, sim, t, i - 1, |e|)
  }

  /** The number of unordered pairs whose similarity reaches the threshold. */
  function HighPairs(e: seq<Vector>, sim: (Vector, Vector) -> real, t: real): nat
  {
    HighBefore(e, sim, t, |e|)
  }

  /** The number of pairs `(p, q)`, `p < q < n`, with `p < i`. */
  function PairsBefore(n: nat, i: nat): nat
    requires i <= n
  {
    if i == 0 then 0 else PairsBefore(n, i - 1) + (n - i)
  }

  /** The number of unordered pairs of `n` items. */
  function PairCount(n: nat): nat
  {
    n * (n - 1) / 2
  }

  lemma {:induction false} PairsBeforeClosed(n: nat, i: nat)
    requires i <= n
    ensures 2 * PairsBefore(n, i) == i * (2 * n - i - 1)
  {
    if i > 0 {
      PairsBeforeClosed(n, i - 1);
    }
  }

  lemma PairCountPositive(n: nat)
    requires n >= 2
    ensures PairCount(n) >= 1
  {
    var m := n - 1;
    assert n * m >= n;
  }

  /** The pair loop visits `n(n-1)/2` pairs. */
  lemma AllPairs(n: nat)
    ensures PairsBefore(n, n) == PairCount(n)
  {
    PairsBeforeClosed(n, n);
    assert n * (2 * n - n - 1) == n * (n - 1);
  }

  /** The similarity threshold `detectTrendStrength` uses when its caller gives none. */
  const DefaultThreshold: real := 0.8

  /** `detectTrendStrength`: weak below two embeddings, else the ratio of high pairs classified. */
  function TrendStrength(e: seq<Vector>, sim: (Vector, Vector) -> real, t: real): Strength
  {
    if |e| < 2 then Weak
    else Classify(HighPairs(e, sim, t) as real / PairCount(|e|) as real)
  }

  /**
   * The nested pair loop of `detectTrendStrength`. The similarity is a parameter;
   * the source passes cosine similarity, `CosineFn(sqrt)`. A caller that gives
   * no threshold gets `DefaultThreshold`.
   */
  method DetectTrendStrength(e: seq<Vector>, sim: (Vector, Vector) -> real, threshold: real) returns (r: Strength)
    ensures r == TrendStrength(e, sim, threshold)
  {
    if |e| < 2 {
      return Weak;
    }
    var n := |e|;
    var high, total := 0, 0;
    for i := 0 to n
      invariant high == HighBefore(e, sim, threshold, i)
      invariant total == PairsBefore(n, i)
    {
      var j := i + 1;
      while j < n
        invariant i + 1 <= j <= n
        invariant high == HighBefore(e, sim, threshold, i) + RowHigh(e, sim, threshold, i, j)
        invariant total == PairsBefore(n, i) + (j - i - 1)
        decreases n - j
      {
        var s := sim(e[i], e[j]);
        if s >= threshold {
          high := high + 1;
        }
        total := total + 1;
        j := j + 1;
      }
    }
    AllPairs(n);
    assert high == HighPairs(e, sim, threshold);
    assert total == PairCount(n);
    r := Classify(high as real / total as real);
  }

  /** There are never more high pairs than pairs. */
  lemma {:induction false} HighBeforeBound(e: seq<Vector>, sim: (Vector, Vector) -> real, t: real, i: nat)
    requires i <= |e|
    ensures HighBefore(e, sim, t, i) <= PairsBefore(|e|, i)
  {
    if i > 0 {
      HighBeforeBound(e, sim, t, i - 1);
    }
  }

  lemma HighPairsBound(e: seq<Vector>, sim: (Vector, Vector) -> real, t: real)
    ensures HighPairs(e, sim, t) <= PairCount(|e|)
  {
    HighBeforeBound(e, sim, t, |e|);
    AllPairs(|e|);
  }

  /** `sim2` is at least `sim1` on every pair of distinct positions. */
  ghost predicate Dominates(e: seq<Vector>, sim1: (Vector, Vector) -> real, sim2: (Vector, Vector) -> real)
  {
    forall i, j :: 0 <= i < j < |e| ==> sim1(e[i], e[j]) <= sim2(e[i], e[j])
  }

  lemma {:induction false} RowHighMonotone(e: seq<Vector>, sim1: (Vector, Vector) -> real, sim2: (Vector, Vector) -> real,
                                           t1: real, t2: real, i: nat, m: nat)
    requires i < |e| && m <= |e|
    requires Dominates(e, sim1, sim2) && t2 <= t1
    ensures RowHigh(e, sim1, t1, i, m) <= RowHigh(e, sim2, t2, i, m)
  {
    if m > i + 1 {
      RowHighMonotone(e, sim1, sim2, t1, t2, i, m - 1);
      assert sim1(e[i], e[m - 1]) <= sim2(e[i], e[m - 1]);
    }
  }

  lemma {:induction false} HighBeforeMonotone(e: seq<Vector>, sim1: (Vector, Vector) -> real, sim2: (Vector, Vector) -> real,
                                              t1: real, t2: real, i: nat)
    requires i <= |e|
    requires Dominates(e, sim1, sim2) && t2 <= t1
    ensures HighBefore(e, sim1, t1, i) <= HighBefore(e, sim2, t2, i)
  {
    if i > 0 {
      HighBeforeMonotone(e, sim1, sim2, t1, t2, i - 1);
      RowHighMonotone(e, sim1, sim2, t1, t2, i - 1, |e|);
    }
  }

  /**
   * Raising similarities or lowering the threshold never weakens the trend:
   * turning a pair into a high-similarity pair never lowers the level.
   */
  lemma TrendMonotone(e: seq<Vector>, sim1: (Vector, Vector) -> real, sim2: (Vector, Vector) -> real, t1: real, t2: real)
    requires Dominates(e, sim1, sim2) && t2 <= t1
    ensures Level(TrendStrength(e, sim1, t1)) <= Level(TrendStrength(e, sim2, t2))
  {
    if |e| >= 2 {
      HighBeforeMonotone(e, sim1, sim2, t1, t2, |e|);
      var h1, h2, p := HighPairs(e, sim1, t1), HighPairs(e, sim2, t2), PairCount(|e|);
      PairCountPositive(|e|);
      DivMonotone(h1 as real, h2 as real, p as real);
      ClassifyMonotone(h1 as real / p as real, h2 as real / p as real);
    }
  }

  /** When every pair is highly similar, the trend is strong. */
  lemma {:induction false} RowHighAll(e: seq<Vector>, sim: (Vector, Vector) -> real, t: real, i: nat, m: nat)
    requires i < |e| && m <= |e|
    requires forall q :: i < q < |e| ==> sim(e[i], e[q]) >= t
    ensures RowHigh(e, sim, t, i, m) == if m <= i + 1 then 0 else m - i - 1
  {
    if m > i + 1 {
      RowHighAll(e, sim, t, i, m - 1);
    }
  }

  lemma {:induction false} HighBeforeAll(e: seq<Vector>, sim: (Vector, Vector) -> real, t: real, i: nat)
    requires i <= |e|
    requires forall p, q :: 0 <= p < q < |e| ==> sim(e[p], e[q]) >= t
    ensures HighBefore(e, sim, t, i) == PairsBefore(|e|, i)
  {
    if i > 0 {
      HighBeforeAll(e, sim, t, i - 1);
      RowHighAll(e, sim, t, i - 1, |e|);
    }
  }

  lemma AllHighIsStrong(e: seq<Vector>, sim: (Vector, Vector) -> real, t: real)
    requires |e| >= 2
    requires forall p, q :: 0 <= p < q < |e| ==> sim(e[p], e[q]) >= t
    ensures TrendStrength(e, sim, t) == Strong
  {
    HighBeforeAll(e, sim, t, |e|);
    AllPairs(|e|);
    PairCountPositive(|e|);
    var p := PairCount(|e|) as real;
    assert HighPairs(e, sim, t) as real == p;
    assert p / p == 1.0;
  }

  /** Meals with one and the same non-zero embedding form a strong trend under cosine similarity. */
  lemma SameDishIsStrong(e: seq<Vector>, sqrt: real -> real, t: real)
    requires IsSqrt(sqrt)
    requires |e| >= 2 && !IsZero(e[0])
    requires forall k :: 0 <= k < |e| ==> e[k] == e[0]
    requires t <= 1.0
    ensures TrendStrength(e, CosineFn(sqrt), t) == Strong
  {
    forall p, q | 0 <= p < q < |e|
      ensures CosineFn(sqrt)(e[p], e[q]) >= t
    {
      CosineSelf(e[0], sqrt);
    }
    AllHighIsStrong(e, CosineFn(sqrt), t);
  }

  /** When no pair is highly similar, the trend is weak. */
  lemma {:induction false} RowHighNone(e: seq<Vector>, sim: (Vector, Vector) -> real, t: real, i: nat, m: nat)
    requires i < |e| && m <= |e|
    requires forall q :: i < q < |e| ==> sim(e[i], e[q]) < t
    ensures RowHigh(e, sim, t, i, m) == 0
  {
    if m > i + 1 {
      RowHighNone(e, sim, t, i, m - 1);
    }
  }

  lemma {:induction false} HighBeforeNone(e: seq<Vector>, sim: (Vector, Vector) -> real, t: real, i: nat)
    requires i <= |e|
    requires forall p, q :: 0 <= p < q < |e| ==> sim(e[p], e[q]) < t
    ensures HighBefore(e, sim, t, i) == 0
  {
    if i > 0 {
      HighBeforeNone(e, sim, t, i - 1);
      RowHighNone(e, sim, t, i - 1, |e|);
    }
  }

  lemma NoHighIsWeak(e: seq<Vector>, sim: (Vector, Vector) -> real, t: real)
    requires forall p, q :: 0 <= p < q < |e| ==> sim(e[p], e[q]) < t
    ensures TrendStrength(e, sim, t) == Weak
  {
    HighBeforeNone(e, sim, t, |e|);
  }

  /** The sum of component `i` over the first `m` embeddings. */
  function ColumnSum(embs: seq<Vector>, i: nat, m: nat): real
    requires m <= |embs|
    requires forall k :: 0 <= k < m ==> i < |embs[k]|
  {
    if m == 0 then 0.0 else ColumnSum(embs, i, m - 1) + embs[m - 1][i]
  }

  /**
   * `averageEmbedding`: `[]` for no embeddings, otherwise the component-wise mean
   * over the dimension of the first embedding.
   */
  method AverageEmbedding(embs: seq<Vector>) returns (avg: Vector)
    requires forall k :: 0 <= k < |embs| ==> |embs[k]| >= |embs[0]|
    ensures |embs| == 0 ==> avg == []
    ensures |embs| > 0 ==> |avg| == |embs[0]|
    ensures |embs| > 0 ==> forall i :: 0 <= i < |avg| ==> avg[i] == ColumnSum(embs, i, |embs|) / |embs| as real
  {
    if |embs| == 0 {
      return [];
    }
    var dim := |embs[0]|;
    var a := new real[dim](_ => 0.0);
    for k := 0 to |embs|
      invariant forall x :: 0 <= x < dim ==> a[x] == ColumnSum(embs, x, k)
    {
      for i := 0 to dim
        invariant forall x :: 0 <= x < i ==> a[x] == ColumnSum(embs, x, k + 1)
        invariant forall x :: i <= x < dim ==> a[x] == ColumnSum(embs, x, k)
      {
        a[i] := a[i] + embs[k][i];
      }
    }
    for i := 0 to dim
      invariant forall x :: 0 <= x < i ==> a[x] == ColumnSum(embs, x, |embs|) / |embs| as real
      invariant forall x :: i <= x < dim ==> a[x] == ColumnSum(embs, x, |embs|)
    {
      a[i] := a[i] / |embs| as real;
    }
    avg := a[..];
  }

  /** The column sum over `m` copies of one vector is `m` times its component. */
  lemma {:induction false} ColumnSumCopies(embs: seq<Vector>, v: Vector, i: nat, m: nat)
    requires m <= |embs| && i < |v|
    requires forall k :: 0 <= k < |embs| ==> embs[k] == v
    ensures ColumnSum(embs, i, m) == m as real * v[i]
  {
    if m > 0 {
      ColumnSumCopies(embs, v, i, m - 1);
    }
  }

  /** The average of copies of one vector is that vector. */
  lemma AverageOfCopies(embs: seq<Vector>, v: Vector, i: nat)
    requires |embs| > 0 && i < |v|
    requires forall k :: 0 <= k < |embs| ==> embs[k] == v
    ensures ColumnSum(embs, i, |embs|) / |embs| as real == v[i]
  {
    ColumnSumCopies(embs, v, i, |embs|);
  }
}
