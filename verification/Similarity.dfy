/** `similarity.py`: the three symmetric tests that decide whether two findings are duplicates. */
module Similarity {
  import opened Common

  /** All that is used of `math.sqrt`: positive numbers have positive roots. */
  type SquareRoot = f: real -> real | forall x :: x > 0.0 ==> f(x) > 0.0 witness (x => x)

  // ---------------------------------------------------------------- cosine similarity

  function Dot(a: seq<real>, b: seq<real>): real
    requires |a| == |b|
  {
    if a == [] then 0.0
    else
      var n := |a| - 1;
      Dot(a[..n], b[..n]) + a[n] * b[n]
  }

  lemma DotSelf(a: seq<real>)
    ensures Dot(a, a) >= 0.0
  {
    if a != [] {
      DotSelf(a[..|a| - 1]);
      assert a[|a| - 1] * a[|a| - 1] >= 0.0;
    }
  }

  lemma {:induction false} DotSymmetric(a: seq<real>, b: seq<real>)
    requires |a| == |b|
    ensures Dot(a, b) == Dot(b, a)
  {
    if a != [] {
      DotSymmetric(a[..|a| - 1], b[..|b| - 1]);
    }
  }

  function Ratio(dot: real, normA: real, normB: real, sqrt: SquareRoot): real
    requires normA > 0.0 && normB > 0.0
  {
    dot / (sqrt(normA) * sqrt(normB))
  }

  /** Zero for vectors that are empty, null or of different lengths. */
  function Cosine(a: seq<real>, b: seq<real>, sqrt: SquareRoot): real {
    if |a| != |b| || a == [] || Dot(a, a) == 0.0 || Dot(b, b) == 0.0 then 0.0
    else
      DotSelf(a);
      DotSelf(b);
      Ratio(Dot(a, b), Dot(a, a), Dot(b, b), sqrt)
  }

  lemma CosineSymmetric(a: seq<real>, b: seq<real>, sqrt: SquareRoot)
    ensures Cosine(a, b, sqrt) == Cosine(b, a, sqrt)
  {
    if |a| == |b| {
      DotSymmetric(a, b);
    }
  }

  // ---------------------------------------------------------------- the greatest similarity

  lemma SquareNonnegative(x: real)
    ensures x * x >= 0.0
  {}

  lemma SquareOfDifference(x: real, y: real, t: real)
    ensures x * x - 2.0 * t * (x * y) + t * t * (y * y) >= 0.0
  {
    SquareNonnegative(x - t * y);
    assert (x - t * y) * (x - t * y) == x * x - 2.0 * t * (x * y) + t * t * (y * y);
  }

  lemma AddUp(a: real, d: real, b: real, p: real, q: real, r: real, t: real)
    ensures (a + p) - 2.0 * t * (d + q) + t * t * (b + r)
            == (a - 2.0 * t * d + t * t * b) + (p - 2.0 * t * q + t * t * r)
  {}

  /** The squared length of `a - t * b` is not negative. */
  lemma {:induction false} DistanceNonnegative(a: seq<real>, b: seq<real>, t: real)
    requires |a| == |b|
    ensures Dot(a, a) - 2.0 * t * Dot(a, b) + t * t * Dot(b, b) >= 0.0
  {
    if a != [] {
      var n := |a| - 1;
      DistanceNonnegative(a[..n], b[..n], t);
      SquareOfDifference(a[n], b[n], t);
      AddUp(Dot(a[..n], a[..n]), Dot(a[..n], b[..n]), Dot(b[..n], b[..n]), a[n] * a[n], a[n] * b[n], b[n] * b[n], t);
    }
  }

  ghost predicate SquareBelow(d: real, x: real, y: real) {
    d * d <= x * y
  }

  lemma Discriminant(a: real, d: real, b: real, t: real)
    requires b > 0.0 && t == d / b && a - 2.0 * t * d + t * t * b >= 0.0
    ensures SquareBelow(d, a, b)
  {
    assert t * b == d;
    assert t * t * b == t * d;
    assert (a - t * d) * b >= 0.0;
    assert t * d * b == d * d;
  }

  lemma CauchySchwarz(a: seq<real>, b: seq<real>)
    requires |a| == |b| && Dot(b, b) > 0.0
    ensures SquareBelow(Dot(a, b), Dot(a, a), Dot(b, b))
  {
    var t := Dot(a, b) / Dot(b, b);
    DistanceNonnegative(a, b, t);
    Discriminant(Dot(a, a), Dot(a, b), Dot(b, b), t);
  }

  ghost predicate RootAt(sqrt: SquareRoot, x: real) {
    x > 0.0 ==> sqrt(x) * sqrt(x) == x
  }

  /** `sqrt` really is the square root. */
  ghost predicate TrueRoot(sqrt: SquareRoot) {
    forall x :: RootAt(sqrt, x)
  }

  lemma GreaterSquare(d: real, s: real)
    requires 0.0 < s < d
    ensures d * d > s * s
  {
    assert d * d > d * s > s * s;
  }

  lemma RatioAtMostOne(d: real, p: real, q: real)
    requires p > 0.0 && q > 0.0 && d * d <= (p * p) * (q * q)
    ensures p * q > 0.0 && d / (p * q) <= 1.0
  {
    assert (p * p) * (q * q) == (p * q) * (p * q);
    if d > p * q {
      GreaterSquare(d, p * q);
    }
  }

  lemma RootRatio(d: real, x: real, y: real, sqrt: SquareRoot)
    requires x > 0.0 && y > 0.0 && SquareBelow(d, x, y) && RootAt(sqrt, x) && RootAt(sqrt, y)
    ensures Ratio(d, x, y, sqrt) <= 1.0
  {
    RatioAtMostOne(d, sqrt(x), sqrt(y));
  }

  lemma RootRatioOfSelf(x: real, sqrt: SquareRoot)
    requires x > 0.0 && RootAt(sqrt, x)
    ensures Ratio(x, x, x, sqrt) == 1.0
  {
    assert sqrt(x) * sqrt(x) == x;
    assert x / x == 1.0;
  }

  /** No two vectors are more similar than a vector is to itself. */
  lemma CosineAtMostOne(a: seq<real>, b: seq<real>, sqrt: SquareRoot)
    requires TrueRoot(sqrt)
    ensures Cosine(a, b, sqrt) <= 1.0
  {
    if |a| == |b| && a != [] && Dot(a, a) != 0.0 && Dot(b, b) != 0.0 {
      DotSelf(a);
      DotSelf(b);
      CauchySchwarz(a, b);
      assert RootAt(sqrt, Dot(a, a)) && RootAt(sqrt, Dot(b, b));
      RootRatio(Dot(a, b), Dot(a, a), Dot(b, b), sqrt);
    }
  }

  lemma CosineOfSelf(v: seq<real>, sqrt: SquareRoot)
    requires TrueRoot(sqrt)
    ensures Cosine(v, v, sqrt) == if Dot(v, v) == 0.0 then 0.0 else 1.0
  {
    if Dot(v, v) != 0.0 {
      DotSelf(v);
      assert RootAt(sqrt, Dot(v, v));
      RootRatioOfSelf(Dot(v, v), sqrt);
    }
  }

  // ---------------------------------------------------------------- the loop

  /** The accumulation loop of `cosine_similarity`. */
  method Accumulate(a: seq<real>, b: seq<real>) returns (dot: real, normA: real, normB: real)
    requires |a| == |b|
    ensures dot == Dot(a, b) && normA == Dot(a, a) && normB == Dot(b, b)
  {
    dot, normA, normB := 0.0, 0.0, 0.0;
    for i := 0 to |a|
      invariant dot == Dot(a[..i], b[..i])
      invariant normA == Dot(a[..i], a[..i]) && normB == Dot(b[..i], b[..i])
    {
      assert a[..i + 1][..i] == a[..i] && b[..i + 1][..i] == b[..i];
      dot := dot + a[i] * b[i];
      normA := normA + a[i] * a[i];
      normB := normB + b[i] * b[i];
    }
    assert a[..|a|] == a && b[..|b|] == b;
  }

  method CosineSimilarity(a: seq<real>, b: seq<real>, sqrt: SquareRoot) returns (r: real)
    ensures r == Cosine(a, b, sqrt)
  {
    if |a| != |b| || a == [] {
      return 0.0;
    }
    var dot, normA, normB := Accumulate(a, b);
    if normA == 0.0 || normB == 0.0 {
      return 0.0;
    }
    DotSelf(a);
    DotSelf(b);
    return Ratio(dot, normA, normB, sqrt);
  }

  // ---------------------------------------------------------------- lines and categories

  /** `_bounded`: a missing bound is taken from the other one. */
  function Bounded(start: Option<int>, end: Option<int>): Option<(int, int)> {
    match (start, end)
    case (None, None) => None
    case (None, Some(e)) => Some((e, e))
    case (Some(s), None) => Some((s, s))
    case (Some(s), Some(e)) => Some((s, e))
  }

  function Abs(x: int): nat {
    if x < 0 then -x else x
  }

  predicate LineRangesClose(a: (Option<int>, Option<int>), b: (Option<int>, Option<int>), maxLineGap: int) {
    var (p, q) := (Bounded(a.0, a.1), Bounded(b.0, b.1));
    p.None? || q.None? ||
    (var d0 := Abs(q.value.0 - p.value.1);
     var d1 := Abs(p.value.0 - q.value.1);
     (if d0 < d1 then d0 else d1) <= maxLineGap + 1)
  }

  lemma LineRangesCloseSymmetric(a: (Option<int>, Option<int>), b: (Option<int>, Option<int>), maxLineGap: int)
    ensures LineRangesClose(a, b, maxLineGap) == LineRangesClose(b, a, maxLineGap)
  {
  }

  /** The documented reading: at most `maxLineGap` lines lie strictly between, overlaps included. */
  ghost predicate FewLinesBetween(a: (int, int), b: (int, int), maxLineGap: int) {
    b.0 - a.1 - 1 <= maxLineGap && a.0 - b.1 - 1 <= maxLineGap
  }

  /**
    The test agrees with the documented reading exactly when one range ends at most `maxLineGap + 1`
    lines after the other begins. It fails on deep overlaps only.
   */
  lemma CloseAsDocumentedIff(a: (int, int), b: (int, int), maxLineGap: nat)
    requires a.0 <= a.1 && b.0 <= b.1
    ensures (LineRangesClose((Some(a.0), Some(a.1)), (Some(b.0), Some(b.1)), maxLineGap)
              == FewLinesBetween(a, b, maxLineGap))
            <==> (a.1 <= b.0 + maxLineGap + 1 || b.1 <= a.0 + maxLineGap + 1)
  {
  }

  /** An overlap the test calls far apart although no line lies between the ranges. */
  lemma DeepOverlapIsNotClose()
    ensures FewLinesBetween((1, 100), (50, 50), 5)
    ensures !LineRangesClose((Some(1), Some(100)), (Some(50), Some(50)), 5)
  {
  }

  /** Equal, or one is a path prefix of the other. */
  predicate CategoriesAligned(a: string, b: string) {
    a == b || b + "/" <= a || a + "/" <= b
  }

  lemma CategoriesAlignedSymmetric(a: string, b: string)
    ensures CategoriesAligned(a, b) == CategoriesAligned(b, a)
  {
  }

  /** Two categories are aligned when they are the same or one names something below the other. */
  lemma CategoriesAlignedIff(a: string, b: string)
    ensures CategoriesAligned(a, b) <==>
      a == b || exists rest: string :: a == b + "/" + rest || b == a + "/" + rest
  {
    if b + "/" <= a {
      assert a == b + "/" + a[|b| + 1..];
    }
    if a + "/" <= b {
      assert b == a + "/" + b[|a| + 1..];
    }
    if rest: string :| a == b + "/" + rest {
      assert b + "/" <= a;
    }
    if rest: string :| b == a + "/" + rest {
      assert a + "/" <= b;
    }
  }

  /** A missing bound is the other one, and a finding without lines is close to everything. */
  lemma MissingBounds(line: int, b: (Option<int>, Option<int>), maxLineGap: int)
    ensures LineRangesClose((Some(line), None), b, maxLineGap)
         == LineRangesClose((None, Some(line)), b, maxLineGap)
         == LineRangesClose((Some(line), Some(line)), b, maxLineGap)
    ensures LineRangesClose((None, None), b, maxLineGap)
  {}
}
