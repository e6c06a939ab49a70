/**
 Cosine similarity over the reals. The square root is given by its defining
 equation: a norm of a is a non-negative n with n * n == a . a.
 */
module Cosine {
  type Vector = seq<real>

  function Dot(a: Vector, b: Vector): real
    requires |a| == |b|
  {
    if a == [] then 0.0 else a[0] * b[0] + Dot(a[1..], b[1..])
  }

  predicate IsNorm(n: real, a: Vector) {
    n >= 0.0 && n * n == Dot(a, a)
  }

  /** na and nb stand for the square roots the source computes. */
  function Similarity(a: Vector, b: Vector, na: real, nb: real): real
    requires IsNorm(na, a) && IsNorm(nb, b)
  {
    if |a| != |b| || a == [] then 0.0
    else if na == 0.0 || nb == 0.0 then 0.0
    else Dot(a, b) / (na * nb)
  }

  function Scale(c: real, a: Vector): (r: Vector)
    ensures |r| == |a|
  {
    if a == [] then [] else [c * a[0]] + Scale(c, a[1..])
  }

  predicate NonNegative(a: Vector) {
    forall i :: 0 <= i < |a| ==> a[i] >= 0.0
  }

  // ---- Arithmetic ----

  lemma SquareNonNegative(x: real)
    ensures x * x >= 0.0
  {
  }

  lemma ProductPositive(x: real, y: real)
    requires x > 0.0 && y > 0.0
    ensures x * y > 0.0
  {
  }

  lemma ProductNonNegative(x: real, y: real)
    requires x >= 0.0 && y >= 0.0
    ensures x * y >= 0.0
  {
  }

  lemma PositiveFactor(x: real, y: real)
    requires x > 0.0
    ensures x * y >= 0.0 ==> y >= 0.0
    ensures x * y == 0.0 ==> y == 0.0
  {
    if y < 0.0 {
      ProductPositive(x, -y);
      assert x * -y == -(x * y);
    } else if y > 0.0 {
      ProductPositive(x, y);
    }
  }

  lemma SquareZero(x: real)
    requires x * x == 0.0
    ensures x == 0.0
  {
    if x > 0.0 {
      PositiveFactor(x, x);
    } else if x < 0.0 {
      assert (-x) * x == -(x * x);
      PositiveFactor(-x, x);
    }
  }

  lemma DifferenceOfSquares(x: real, y: real)
    ensures x * x - y * y == (x - y) * (x + y)
  {
    assert (x - y) * (x + y) == x * (x + y) - y * (x + y);
  }

  /** Squares order non-negative numbers. */
  lemma SquareOrder(x: real, y: real)
    requires y >= 0.0 && x * x <= y * y
    ensures -y <= x <= y
  {
    DifferenceOfSquares(x, y);
    assert (y - x) * (-y - x) == (x - y) * (x + y);
    if x > y {
      ProductPositive(x - y, x + y);
    } else if x < -y {
      ProductPositive(y - x, -y - x);
    }
  }

  lemma DivTimes(x: real, y: real)
    requires y != 0.0
    ensures (x / y) * y == x
  {
  }

  // ---- Cauchy-Schwarz ----

  /** The sum of (s * a[i] - t * b[i]) squared. */
  function SquaredGap(a: Vector, b: Vector, s: real, t: real): real
    requires |a| == |b|
  {
    if a == [] then 0.0
    else (s * a[0] - t * b[0]) * (s * a[0] - t * b[0]) + SquaredGap(a[1..], b[1..], s, t)
  }

  lemma {:induction false} SquaredGapNonNegative(a: Vector, b: Vector, s: real, t: real)
    requires |a| == |b|
    ensures SquaredGap(a, b, s, t) >= 0.0
    ensures SquaredGap(a, b, s, t) == 0.0 ==> forall i :: 0 <= i < |a| ==> s * a[i] == t * b[i]
  {
    if a != [] {
      var d := s * a[0] - t * b[0];
      SquareNonNegative(d);
      SquaredGapNonNegative(a[1..], b[1..], s, t);
      if SquaredGap(a, b, s, t) == 0.0 {
        SquareZero(d);
        forall i | 0 <= i < |a| ensures s * a[i] == t * b[i] {
          if i > 0 {
            assert s * a[1..][i - 1] == t * b[1..][i - 1];
          }
        }
      }
    }
  }

  lemma ExpandSquare(s: real, t: real, x: real, y: real)
    ensures (s * x - t * y) * (s * x - t * y) == (s * s) * (x * x) - 2.0 * ((s * t) * (x * y)) + (t * t) * (y * y)
  {
    var p, q := s * x, t * y;
    assert (p - q) * (p - q) == p * p - 2.0 * (p * q) + q * q;
    assert p * p == (s * s) * (x * x);
    assert q * q == (t * t) * (y * y);
    assert p * q == (s * t) * (x * y);
  }

  lemma {:induction false} SquaredGapExpansion(a: Vector, b: Vector, s: real, t: real)
    requires |a| == |b|
    ensures SquaredGap(a, b, s, t) == (s * s) * Dot(a, a) - 2.0 * ((s * t) * Dot(a, b)) + (t * t) * Dot(b, b)
  {
    if a != [] {
      SquaredGapExpansion(a[1..], b[1..], s, t);
      ExpandSquare(s, t, a[0], b[0]);
      var u, v, w := s * s, s * t, t * t;
      var x, y, z := a[0] * a[0], a[0] * b[0], b[0] * b[0];
      var da, dd, db := Dot(a[1..], a[1..]), Dot(a[1..], b[1..]), Dot(b[1..], b[1..]);
      assert u * (x + da) == u * x + u * da;
      assert v * (y + dd) == v * y + v * dd;
      assert w * (z + db) == w * z + w * db;
    }
  }

  lemma {:induction false} ZeroNorm(a: Vector)
    ensures Dot(a, a) >= 0.0
    ensures Dot(a, a) == 0.0 <==> forall i :: 0 <= i < |a| ==> a[i] == 0.0
  {
    if a != [] {
      SquareNonNegative(a[0]);
      ZeroNorm(a[1..]);
      if Dot(a, a) == 0.0 {
        SquareZero(a[0]);
        forall i | 0 <= i < |a| ensures a[i] == 0.0 {
          if i > 0 { assert a[i] == a[1..][i - 1]; }
        }
      }
      if forall i :: 0 <= i < |a| ==> a[i] == 0.0 {
        assert a[0] == 0.0;
      }
    }
  }

  lemma {:induction false} DotWithZero(a: Vector, b: Vector)
    requires |a| == |b| && forall i :: 0 <= i < |b| ==> b[i] == 0.0
    ensures Dot(a, b) == 0.0
  {
    if a != [] {
      DotWithZero(a[1..], b[1..]);
      assert b[0] == 0.0;
    }
  }

  lemma GapArithmetic(sa: real, sb: real, d: real)
    ensures (sb * sb) * sa - 2.0 * ((sb * d) * d) + (d * d) * sb == sb * (sa * sb - d * d)
  {
    assert (sb * sb) * sa == sb * (sa * sb);
    assert (sb * d) * d == sb * (d * d);
    assert sb * (sa * sb - d * d) == sb * (sa * sb) - sb * (d * d);
  }

  /** With sa = |a|^2, sb = |b|^2 and d = a . b. */
  lemma CauchySchwarz(a: Vector, b: Vector, sa: real, sb: real, d: real)
    requires |a| == |b| && sa == Dot(a, a) && sb == Dot(b, b) && d == Dot(a, b)
    ensures d * d <= sa * sb
    ensures d * d == sa * sb ==> SquaredGap(a, b, sb, d) == 0.0
  {
    GapValue(a, b, sb, d, sa, d, sb);
    ZeroProduct(a, b);
    GapBoundsProduct(sa, sb, d, SquaredGap(a, b, sb, d));
  }

  lemma GapValue(a: Vector, b: Vector, s: real, t: real, sa: real, d: real, sb: real)
    requires |a| == |b| && sa == Dot(a, a) && sb == Dot(b, b) && d == Dot(a, b)
    ensures SquaredGap(a, b, s, t) >= 0.0
    ensures SquaredGap(a, b, s, t) == (s * s) * sa - 2.0 * ((s * t) * d) + (t * t) * sb
  {
    SquaredGapNonNegative(a, b, s, t);
    SquaredGapExpansion(a, b, s, t);
  }

  /** What the gap says about sa = |a|^2, sb = |b|^2 and d = a . b. */
  lemma GapBoundsProduct(sa: real, sb: real, d: real, gap: real)
    ensures gap == (sb * sb) * sa - 2.0 * ((sb * d) * d) + (d * d) * sb ==>
      gap >= 0.0 && sb >= 0.0 && (sb == 0.0 ==> d == 0.0) ==>
      d * d <= sa * sb && (d * d == sa * sb ==> gap == 0.0)
  {
    if gap != (sb * sb) * sa - 2.0 * ((sb * d) * d) + (d * d) * sb || gap < 0.0 || sb < 0.0 {
      return;
    }
    if sb == 0.0 && d != 0.0 {
      return;
    }
    var rest := sa * sb - d * d;
    GapArithmetic(sa, sb, d);
    assert gap == sb * rest;
    if sb > 0.0 {
      PositiveFactor(sb, rest);
    } else {
      TimesZero(sa, sb);
      TimesZero(d, d);
    }
  }

  lemma TimesZero(x: real, y: real)
    requires y == 0.0
    ensures x * y == 0.0
  {
  }

  lemma ZeroProduct(a: Vector, b: Vector)
    requires |a| == |b|
    ensures Dot(b, b) >= 0.0 && (Dot(b, b) == 0.0 ==> Dot(a, b) == 0.0)
  {
    ZeroNorm(b);
    if Dot(b, b) == 0.0 {
      DotWithZero(a, b);
    }
  }

  /** The inner product adds up the products of the components, one pair after the other. */
  lemma {:induction false} DotSnoc(a: Vector, b: Vector, x: real, y: real)
    requires |a| == |b|
    ensures Dot(a + [x], b + [y]) == Dot(a, b) + x * y
    ensures a == [] ==> Dot(a, b) == 0.0
  {
    if a != [] {
      assert (a + [x])[1..] == a[1..] + [x] && (b + [y])[1..] == b[1..] + [y];
      DotSnoc(a[1..], b[1..], x, y);
    }
  }

  // ---- What the similarity means ----

  lemma ZeroNormDot(a: Vector, b: Vector, nb: real)
    requires |a| == |b| && IsNorm(nb, b) && nb == 0.0
    ensures Dot(a, b) == 0.0 && Dot(b, a) == 0.0
  {
    ZeroNorm(b);
    DotWithZero(a, b);
    DotSymmetric(a, b);
  }

  /**
   The defining law: the similarity times the norms is the inner product; there
   is none, 0 is answered, when a norm is zero or the lengths differ.
   */
  lemma SimilarityLaw(a: Vector, b: Vector, na: real, nb: real)
    requires IsNorm(na, a) && IsNorm(nb, b)
    ensures |a| == |b| ==> Similarity(a, b, na, nb) * (na * nb) == Dot(a, b)
    ensures |a| != |b| || na == 0.0 || nb == 0.0 ==> Similarity(a, b, na, nb) == 0.0
  {
    if |a| == |b| {
      if nb == 0.0 {
        ZeroNormDot(a, b, nb);
      } else if na == 0.0 {
        ZeroNormDot(b, a, na);
      } else if a != [] {
        ProductPositive(na, nb);
        DivTimes(Dot(a, b), na * nb);
      }
    }
  }

  lemma ReachesIff(q: real, n: real, t: real)
    requires n > 0.0
    ensures q >= t <==> q * n >= t * n
  {
    assert n * (q - t) == q * n - t * n;
    PositiveFactor(n, q - t);
    if q >= t {
      ProductNonNegative(n, q - t);
    }
  }

  /** A similarity reaches a positive threshold exactly when the inner product reaches its share of the norms. */
  lemma ThresholdIff(a: Vector, b: Vector, na: real, nb: real, t: real, q: real, d: real)
    requires IsNorm(na, a) && IsNorm(nb, b) && t > 0.0 && |a| == |b|
    requires q == Similarity(a, b, na, nb) && d == Dot(a, b)
    ensures q >= t <==> na > 0.0 && nb > 0.0 && d >= t * (na * nb)
  {
    SimilarityLaw(a, b, na, nb);
    ThresholdValues(na, nb, q, d, t);
  }

  lemma ThresholdValues(na: real, nb: real, q: real, d: real, t: real)
    requires na >= 0.0 && nb >= 0.0 && t > 0.0
    ensures q * (na * nb) == d && (na == 0.0 || nb == 0.0 ==> q == 0.0) ==>
      (q >= t <==> na > 0.0 && nb > 0.0 && d >= t * (na * nb))
  {
    if na > 0.0 && nb > 0.0 {
      ProductPositive(na, nb);
      ReachesIff(q, na * nb, t);
    }
  }

  lemma DivBounds(x: real, y: real)
    requires y > 0.0 && -y <= x <= y
    ensures -1.0 <= x / y <= 1.0
  {
    var q := x / y;
    DivTimes(x, y);
    assert y * (1.0 - q) == y - x;
    PositiveFactor(y, 1.0 - q);
    assert y * (1.0 + q) == y + x;
    PositiveFactor(y, 1.0 + q);
  }

  /** Always between -1 and 1. */
  lemma SimilarityRange(a: Vector, b: Vector, na: real, nb: real)
    requires IsNorm(na, a) && IsNorm(nb, b)
    ensures -1.0 <= Similarity(a, b, na, nb) <= 1.0
  {
    if |a| == |b| && na != 0.0 && nb != 0.0 {
      CauchySchwarz(a, b, na * na, nb * nb, Dot(a, b));
      var n := na * nb;
      ProductPositive(na, nb);
      assert n * n == (na * na) * (nb * nb);
      SquareOrder(Dot(a, b), n);
      DivBounds(Dot(a, b), n);
    }
  }

  lemma {:induction false} DotSymmetric(a: Vector, b: Vector)
    requires |a| == |b|
    ensures Dot(a, b) == Dot(b, a)
  {
    if a != [] {
      DotSymmetric(a[1..], b[1..]);
    }
  }

  lemma SimilaritySymmetric(a: Vector, b: Vector, na: real, nb: real)
    requires IsNorm(na, a) && IsNorm(nb, b)
    ensures Similarity(a, b, na, nb) == Similarity(b, a, nb, na)
  {
    if |a| == |b| {
      DotSymmetric(a, b);
      assert na * nb == nb * na;
    }
  }

  lemma {:induction false} DotScale(c: real, a: Vector, b: Vector)
    requires |a| == |b|
    ensures Dot(Scale(c, a), b) == c * Dot(a, b)
  {
    if a != [] {
      DotScale(c, a[1..], b[1..]);
      var x, d := a[0] * b[0], Dot(a[1..], b[1..]);
      assert c * (x + d) == c * x + c * d;
      assert (c * a[0]) * b[0] == c * x;
    }
  }

  lemma ScaledNorm(c: real, a: Vector, na: real)
    requires c > 0.0 && IsNorm(na, a)
    ensures IsNorm(c * na, Scale(c, a))
  {
    var sa := Scale(c, a);
    DotScale(c, a, sa);
    DotSymmetric(a, sa);
    DotScale(c, a, a);
    assert Dot(sa, sa) == c * (c * (na * na));
    assert (c * na) * (c * na) == c * (c * (na * na));
    ProductNonNegative(c, na);
  }

  /** Unchanged when one vector is scaled by a positive factor. */
  lemma SimilarityScaleInvariant(c: real, a: Vector, b: Vector, na: real, nb: real)
    requires c > 0.0 && IsNorm(na, a) && IsNorm(nb, b)
    ensures IsNorm(c * na, Scale(c, a))
    ensures Similarity(Scale(c, a), b, c * na, nb) == Similarity(a, b, na, nb)
  {
    ScaledNorm(c, a, na);
    if |a| == |b| && a != [] && nb != 0.0 {
      DotScale(c, a, b);
      if na > 0.0 {
        ProductPositive(na, nb);
        ProductPositive(c, na);
        assert (c * na) * nb == c * (na * nb);
      }
    }
  }

  lemma {:induction false} DotNonNegative(a: Vector, b: Vector)
    requires |a| == |b| && NonNegative(a) && NonNegative(b)
    ensures Dot(a, b) >= 0.0
  {
    if a != [] {
      DotNonNegative(a[1..], b[1..]);
      ProductNonNegative(a[0], b[0]);
    }
  }

  /** Between 0 and 1 on vectors without negative components. */
  lemma NonNegativeSimilarity(a: Vector, b: Vector, na: real, nb: real)
    requires NonNegative(a) && NonNegative(b) && IsNorm(na, a) && IsNorm(nb, b)
    ensures 0.0 <= Similarity(a, b, na, nb) <= 1.0
  {
    SimilarityRange(a, b, na, nb);
    if |a| == |b| && na != 0.0 && nb != 0.0 {
      DotNonNegative(a, b);
      ProductPositive(na, nb);
      var q := Dot(a, b) / (na * nb);
      DivTimes(Dot(a, b), na * nb);
      PositiveFactor(na * nb, q);
    }
  }

  /** Two non-zero vectors of one length point the same way. */
  ghost predicate SameDirection(a: Vector, b: Vector) {
    |a| == |b| && exists c :: c > 0.0 && a == Scale(c, b)
  }

  lemma {:induction false} ScaleElements(c: real, a: Vector)
    ensures forall i :: 0 <= i < |a| ==> Scale(c, a)[i] == c * a[i]
  {
    if a != [] {
      ScaleElements(c, a[1..]);
    }
  }

  /** Vectors of one direction: the norms are in the same ratio. */
  lemma SameDirectionNorms(c: real, a: Vector, b: Vector, na: real, nb: real)
    requires c > 0.0 && a == Scale(c, b) && IsNorm(na, a) && IsNorm(nb, b)
    ensures na == c * nb && Dot(a, b) == na * nb
  {
    DotScale(c, b, b);
    ScaledNorm(c, b, nb);
    SquareOrder(na, c * nb);
    SquareOrder(c * nb, na);
    assert c * (nb * nb) == (c * nb) * nb;
  }

  lemma PositiveQuotient(x: real, y: real)
    requires x > 0.0 && y > 0.0
    ensures x / y > 0.0 && (x / y) * y == x
  {
    DivTimes(x, y);
    assert y * (x / y) == x;
    PositiveFactor(y, x / y);
  }

  /** In the equality case of Cauchy-Schwarz the two vectors are proportional. */
  lemma EqualityCase(a: Vector, b: Vector, sb: real, d: real)
    requires |a| == |b| && d > 0.0 && sb > 0.0
    requires SquaredGap(a, b, sb, d) == 0.0
    ensures SameDirection(a, b)
  {
    SquaredGapNonNegative(a, b, sb, d);
    PositiveQuotient(d, sb);
    var c := d / sb;
    ScaleElements(c, b);
    forall i | 0 <= i < |a| ensures a[i] == c * b[i] {
    }
    assert a == Scale(c, b);
  }

  /** Similarity 1 means exactly the same direction; in particular a non-zero vector has it with itself. */
  lemma SimilarityOneIff(a: Vector, b: Vector, na: real, nb: real)
    requires IsNorm(na, a) && IsNorm(nb, b) && na != 0.0 && nb != 0.0
    ensures Similarity(a, b, na, nb) == 1.0 <==> SameDirection(a, b)
  {
    ProductPositive(na, nb);
    ProductPositive(nb, nb);
    if |a| == |b| {
      var n := na * nb;
      DivTimes(Dot(a, b), n);
      if SameDirection(a, b) {
        var c :| c > 0.0 && a == Scale(c, b);
        SameDirectionNorms(c, a, b, na, nb);
      }
      if Similarity(a, b, na, nb) == 1.0 {
        assert Dot(a, b) == n;
        assert n * n == (na * na) * (nb * nb);
        CauchySchwarz(a, b, na * na, nb * nb, n);
        EqualityCase(a, b, nb * nb, n);
      }
    }
  }

  /** A non-zero vector has similarity 1 with itself. */
  lemma SelfSimilarity(a: Vector, na: real)
    requires IsNorm(na, a) && exists i :: 0 <= i < |a| && a[i] != 0.0
    ensures Similarity(a, a, na, na) == 1.0
  {
    ZeroNorm(a);
    ProductPositive(na, na);
    var q := Dot(a, a) / (na * na);
    DivTimes(Dot(a, a), na * na);
    assert (na * na) * (q - 1.0) == 0.0;
    PositiveFactor(na * na, q - 1.0);
  }
}
