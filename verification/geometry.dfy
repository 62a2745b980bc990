/**
  The two arithmetic helpers of the RANSAC line fitter: the implicit line
  through two points (get_coefficients) and the perpendicular distance from a
  point to such a line (distance).

  Coordinates are exact reals. Dafny has no square root, so the distance is
  represented by its square, and the test `distance < threshold` by the
  equivalent comparison of squares.
 */
module Geometry {

  /** A point of the plane; the source stores it as a pair `[x, y]`. */
  datatype Point = Point(x: real, y: real)

  /** The implicit line `a·x + b·y + c = 0`. */
  datatype Line = Line(a: real, b: real, c: real)

  /** The value `a·x + b·y + c` of a point under a line's equation. */
  function Residual(l: Line, p: Point): real {
    l.a * p.x + l.b * p.y + l.c
  }

  predicate OnLine(l: Line, p: Point) {
    Residual(l, p) == 0.0
  }

  /** `a² + b²`, the square of the denominator of the distance formula. */
  function Norm2(l: Line): real {
    l.a * l.a + l.b * l.b
  }

  /** A "line" whose equation has no x and no y term; its distance divides by zero. */
  predicate Degenerate(l: Line) {
    l.a == 0.0 && l.b == 0.0
  }

  /** The cross product of `p2 - p1` and `q - p1`: zero exactly when `q` is collinear with `p1` and `p2`. */
  function Cross(p1: Point, p2: Point, q: Point): real {
    (p2.x - p1.x) * (q.y - p1.y) - (p2.y - p1.y) * (q.x - p1.x)
  }

  /** Squared Euclidean distance between two points. */
  function SqDist(p: Point, q: Point): real {
    (p.x - q.x) * (p.x - q.x) + (p.y - q.y) * (p.y - q.y)
  }

  lemma SquarePositive(x: real)
    requires x != 0.0
    ensures x * x > 0.0
  {
    if x < 0.0 {
      assert x * x == (-x) * (-x);
    }
  }

  lemma SquareSign(x: real)
    ensures x * x >= 0.0
    ensures x * x == 0.0 ==> x == 0.0
  {
    if x != 0.0 {
      SquarePositive(x);
      assert x * x / x == x;
    }
  }

  lemma NormPositive(l: Line)
    requires !Degenerate(l)
    ensures Norm2(l) > 0.0
  {
    SquareSign(l.a);
    SquareSign(l.b);
    if l.a != 0.0 {
      SquarePositive(l.a);
    } else {
      SquarePositive(l.b);
    }
  }

  /**
    get_coefficients: the two-point form of the line. Its equation is the
    collinearity test against the two points, so both lie on it, and it is
    degenerate (the zero triple) exactly when the two points coincide.
   */
  function GetCoefficients(p1: Point, p2: Point): (l: Line)
    ensures OnLine(l, p1) && OnLine(l, p2)
    ensures Degenerate(l) <==> p1 == p2
    ensures p1 == p2 ==> l == Line(0.0, 0.0, 0.0)
  {
    Line(p1.y - p2.y, p2.x - p1.x, p1.x * p2.y - p2.x * p1.y)
  }

  /**
    A point is on the line through two points exactly when it is collinear
    with them: the line's equation is their cross product.
   */
  lemma LineIsCollinearity(p1: Point, p2: Point, q: Point)
    ensures Residual(GetCoefficients(p1, p2), q) == Cross(p1, p2, q)
  {
  }

  /**
    The square of distance(x, y, a, b, c) = |a·x + b·y + c| / sqrt(a² + b²).
    The source divides by zero on a degenerate line, so that is excluded here.
   */
  function SquaredDistance(p: Point, l: Line): (d2: real)
    requires !Degenerate(l)
    ensures d2 >= 0.0
    ensures d2 == 0.0 <==> OnLine(l, p)
  {
    NormPositive(l);
    var r := Residual(l, p);
    SquareSign(r);
    assert r * r / Norm2(l) * Norm2(l) == r * r;
    r * r / Norm2(l)
  }

  /** The foot of the perpendicular dropped from `p` onto `l`. */
  function Foot(p: Point, l: Line): Point
    requires !Degenerate(l)
  {
    NormPositive(l);
    var k := Residual(l, p) / Norm2(l);
    Point(p.x - k * l.a, p.y - k * l.b)
  }

  /**
    The distance formula is the perpendicular distance: the foot of the
    perpendicular is on the line at exactly that (squared) distance from `p`,
    and no point of the line is closer.
   */
  lemma FootIsNearest(p: Point, l: Line)
    requires !Degenerate(l)
    ensures OnLine(l, Foot(p, l))
    ensures SqDist(p, Foot(p, l)) == SquaredDistance(p, l)
    ensures forall q :: OnLine(l, q) ==> SqDist(p, q) >= SquaredDistance(p, l)
  {
    var k := FootScale(p, l);
    var f := Foot(p, l);
    forall q | OnLine(l, q)
      ensures SqDist(p, q) >= SqDist(p, f)
    {
      Pythagoras(p, f, q, l, k);
      SquareSign(f.x - q.x);
      SquareSign(f.y - q.y);
    }
  }

  /** The foot is `p - k·(a, b)` for the scale `k = r / (a² + b²)`; it is on the line at squared distance `r² / (a² + b²)`. */
  lemma FootScale(p: Point, l: Line) returns (k: real)
    requires !Degenerate(l)
    ensures p.x - Foot(p, l).x == k * l.a && p.y - Foot(p, l).y == k * l.b
    ensures OnLine(l, Foot(p, l))
    ensures SqDist(p, Foot(p, l)) == SquaredDistance(p, l)
  {
    k := FootOffset(p, l);
    FootResidual(l.a, l.b, l.c, p.x, p.y, k, Norm2(l), Residual(l, p));
    FootDistance(l.a, l.b, k, Norm2(l), Residual(l, p));
    SqDistOffset(p, Foot(p, l), k * l.a, k * l.b);
    assert SquaredDistance(p, l) == Residual(l, p) * Residual(l, p) / Norm2(l);
  }

  lemma FootOffset(p: Point, l: Line) returns (k: real)
    requires !Degenerate(l)
    ensures Norm2(l) > 0.0 && k * Norm2(l) == Residual(l, p)
    ensures Foot(p, l) == Point(p.x - k * l.a, p.y - k * l.b)
  {
    NormPositive(l);
    k := Residual(l, p) / Norm2(l);
  }

  lemma SqDistOffset(p: Point, f: Point, u: real, v: real)
    requires p.x - f.x == u && p.y - f.y == v
    ensures SqDist(p, f) == u * u + v * v
  {
  }

  /** The foot of the perpendicular satisfies the line's equation. */
  lemma FootResidual(a: real, b: real, c: real, x: real, y: real, k: real, n: real, r: real)
    requires n == a * a + b * b && r == a * x + b * y + c && k * n == r
    ensures a * (x - k * a) + b * (y - k * b) + c == 0.0
  {
    assert a * (x - k * a) + b * (y - k * b) + c == r - k * n;
  }

  /** The squared length of `k·(a, b)` with `k = r / (a² + b²)` is `r² / (a² + b²)`. */
  lemma FootDistance(a: real, b: real, k: real, n: real, r: real)
    requires n == a * a + b * b && k * n == r && n > 0.0
    ensures (k * a) * (k * a) + (k * b) * (k * b) == r * r / n
  {
    assert (k * a) * (k * a) + (k * b) * (k * b) == k * (k * n);
    assert k * (k * n) == k * r;
    assert r * r / n == k * r;
  }

  /** `p - f` is a multiple of the normal `(a, b)` and `f - q` runs along the line, so they are orthogonal. */
  lemma Pythagoras(p: Point, f: Point, q: Point, l: Line, k: real)
    requires p.x - f.x == k * l.a && p.y - f.y == k * l.b
    requires OnLine(l, f) && OnLine(l, q)
    ensures SqDist(p, q) == SqDist(p, f) + SqDist(f, q)
  {
    var u1, u2 := p.x - f.x, p.y - f.y;
    var v1, v2 := f.x - q.x, f.y - q.y;
    assert l.a * v1 + l.b * v2 == Residual(l, f) - Residual(l, q);
    assert u1 * v1 + u2 * v2 == k * (l.a * v1 + l.b * v2);
    assert (u1 + v1) * (u1 + v1) + (u2 + v2) * (u2 + v2)
        == u1 * u1 + u2 * u2 + v1 * v1 + v2 * v2 + 2.0 * (u1 * v1 + u2 * v2);
  }

  /**
    The inlier test `distance(...) < threshold` of the loop. A distance is
    never negative, so a threshold that is not positive admits no point;
    otherwise the test compares squares.
   */
  predicate IsInlier(p: Point, l: Line, threshold: real)
    requires !Degenerate(l)
  {
    threshold > 0.0 && SquaredDistance(p, l) < threshold * threshold
  }

  /**
    The inlier test without division: `(a·x + b·y + c)² < threshold²·(a² + b²)`.
    The comparison is strict, so a point at exactly the threshold is an outlier.
   */
  lemma InlierSquaredTest(p: Point, l: Line, threshold: real)
    requires !Degenerate(l)
    ensures IsInlier(p, l, threshold)
        <==> threshold > 0.0 && Residual(l, p) * Residual(l, p) < threshold * threshold * Norm2(l)
    ensures SquaredDistance(p, l) == threshold * threshold ==> !IsInlier(p, l, threshold)
  {
    NormPositive(l);
    var n := Norm2(l);
    var r2 := Residual(l, p) * Residual(l, p);
    var t2 := threshold * threshold;
    var d2 := SquaredDistance(p, l);
    assert d2 * n == r2;
    if d2 < t2 {
      assert d2 * n < t2 * n;
    }
    if r2 < t2 * n {
      assert d2 * n < t2 * n;
    }
  }

  /** Squaring keeps the order of two non-negative numbers: `0 <= d < t` gives `d² < t²`. */
  lemma SquareBelow(d: real, t: real)
    requires 0.0 <= d < t
    ensures d * d < t * t
  {
    var e := t - d;
    assert t * t == d * d + e * (2.0 * d + e);
    assert e * (2.0 * d + e) > 0.0;
  }

  /** `0 < t <= d` gives `t² <= d²`. */
  lemma SquareAtLeast(d: real, t: real)
    requires 0.0 < t <= d
    ensures t * t <= d * d
  {
    var e := d - t;
    assert d * d == t * t + e * (2.0 * t + e);
    assert e * (2.0 * t + e) >= 0.0;
  }

  /**
    The loop's test `distance(...) < threshold`, for `d` the non-negative
    square root of the squared distance, holds exactly when `IsInlier` does.
   */
  lemma DistanceTest(p: Point, l: Line, threshold: real, d: real)
    requires !Degenerate(l)
    requires d >= 0.0 && d * d == SquaredDistance(p, l)
    ensures d < threshold <==> IsInlier(p, l, threshold)
  {
    if d < threshold {
      SquareBelow(d, threshold);
    } else if threshold > 0.0 {
      SquareAtLeast(d, threshold);
    }
  }
}
