/** Points of the plane and the distance between them (vptree.py:5-6).

    The source computes `sqrt((y1 - y2)^2 + (x1 - x2)^2)`. Dafny's reals have
    no square root, so the distance is a parameter `dist` of the model, and
    two predicates describe it: `IsEuclidean` pins it to the source's formula
    (the non-negative root of the sum of squares), and `IsDistance` lists the
    three facts the vantage-point tree relies on. */
module Metric {

  /** A 2D point, the `[x, y]` list of the source. */
  datatype Point = Point(x: real, y: real)

  /** The radicand of vptree.py:6, in the source's order of terms. */
  function SquaredDistance(p: Point, q: Point): (s: real)
    ensures 0.0 <= s
    ensures s == 0.0 <==> p == q
  {
    SquareZero(p.y - q.y);
    SquareZero(p.x - q.x);
    (p.y - q.y) * (p.y - q.y) + (p.x - q.x) * (p.x - q.x)
  }

  /** `dist` is the Euclidean distance: the non-negative square root of
      `SquaredDistance`. */
  ghost predicate IsEuclidean(dist: (Point, Point) -> real)
  {
    forall p, q :: 0.0 <= dist(p, q) && dist(p, q) * dist(p, q) == SquaredDistance(p, q)
  }

  ghost predicate NonNegative(dist: (Point, Point) -> real)
  {
    forall p, q :: 0.0 <= dist(p, q)
  }

  ghost predicate Symmetric(dist: (Point, Point) -> real)
  {
    forall p, q :: dist(p, q) == dist(q, p)
  }

  ghost predicate ZeroOnSelf(dist: (Point, Point) -> real)
  {
    forall p :: dist(p, p) == 0.0
  }

  /** What the vantage-point tree assumes of its distance. */
  ghost predicate IsDistance(dist: (Point, Point) -> real)
  {
    NonNegative(dist) && Symmetric(dist) && ZeroOnSelf(dist)
  }

  /** The triangle inequality: going through `q` is never shorter. */
  ghost predicate Triangle(dist: (Point, Point) -> real)
  {
    forall p, q, r :: dist(p, r) <= dist(p, q) + dist(q, r)
  }

  /** Squaring is strictly increasing on the non-negative reals. */
  lemma SquareStrict(x: real, y: real)
    requires 0.0 <= x < y
    ensures x * x < y * y
  {
    calc {
      x * x;
    <=  { MulLeft(x, x, y); }
      x * y;
    <  { MulRight(y, x, y); }
      y * y;
    }
  }

  lemma MulLeft(c: real, a: real, b: real)
    requires 0.0 <= c && a <= b
    ensures c * a <= c * b
  {
  }

  lemma MulRight(c: real, a: real, b: real)
    requires 0.0 < c && a < b
    ensures a * c < b * c
  {
  }

  /** A non-negative square root is unique. */
  lemma RootUnique(a: real, b: real)
    requires 0.0 <= a && 0.0 <= b && a * a == b * b
    ensures a == b
  {
    if a < b {
      SquareStrict(a, b);
    } else if b < a {
      SquareStrict(b, a);
    }
  }

  lemma SquareZero(x: real)
    ensures 0.0 <= x * x
    ensures x * x == 0.0 <==> x == 0.0
  {
    if x < 0.0 {
      SquareStrict(0.0, -x);
    } else if 0.0 < x {
      SquareStrict(0.0, x);
    }
  }

  /** The source's formula has the three properties the tree relies on, and
      it is zero exactly between equal points. */
  lemma EuclideanIsDistance(dist: (Point, Point) -> real)
    requires IsEuclidean(dist)
    ensures IsDistance(dist)
    ensures forall p, q :: dist(p, q) == 0.0 <==> p == q
  {
    forall p, q ensures dist(p, q) == dist(q, p) {
      assert SquaredDistance(p, q) == SquaredDistance(q, p);
      RootUnique(dist(p, q), dist(q, p));
    }
    forall p, q ensures dist(p, q) == 0.0 <==> p == q {
      SquareZero(dist(p, q));
    }
  }

  /** The distance between two points that share a y-coordinate is the
      absolute difference of their x-coordinates. */
  lemma EuclideanOnLine(dist: (Point, Point) -> real, p: Point, q: Point)
    requires IsEuclidean(dist)
    requires p.y == q.y
    ensures dist(p, q) == if p.x <= q.x then q.x - p.x else p.x - q.x
  {
    var a := if p.x <= q.x then q.x - p.x else p.x - q.x;
    assert a * a == SquaredDistance(p, q);
    RootUnique(dist(p, q), a);
  }

  /** The source's formula obeys the triangle inequality. */
  lemma EuclideanTriangle(dist: (Point, Point) -> real)
    requires IsEuclidean(dist)
    ensures Triangle(dist)
  {
    forall p, q, r ensures dist(p, r) <= dist(p, q) + dist(q, r) {
      EuclideanTriangleAt(dist, p, q, r);
    }
  }

  lemma EuclideanTriangleAt(dist: (Point, Point) -> real, p: Point, q: Point, r: Point)
    requires IsEuclidean(dist)
    ensures dist(p, r) <= dist(p, q) + dist(q, r)
  {
    var a, b, c := dist(p, q), dist(q, r), dist(p, r);
    var ux, uy, vx, vy := q.x - p.x, q.y - p.y, r.x - q.x, r.y - q.y;
    assert a * a == ux * ux + uy * uy;
    assert b * b == vx * vx + vy * vy;
    assert c * c == (ux + vx) * (ux + vx) + (uy + vy) * (uy + vy);
    var s := ux * vx + uy * vy;
    MulLeft(a, 0.0, b);
    if 0.0 < s {
      CauchySchwarz(ux, uy, vx, vy);
      assert s * s <= (a * b) * (a * b);
      SquareAtMost(s, a * b);
    }
    assert c * c == a * a + b * b + 2.0 * s;
    assert c * c <= (a + b) * (a + b);
    SquareAtMost(c, a + b);
  }

  /** Cauchy-Schwarz in the plane. */
  lemma CauchySchwarz(ux: real, uy: real, vx: real, vy: real)
    ensures (ux * vx + uy * vy) * (ux * vx + uy * vy) <= (ux * ux + uy * uy) * (vx * vx + vy * vy)
  {
    var w := ux * vy - uy * vx;
    SquareZero(w);
    assert (ux * ux + uy * uy) * (vx * vx + vy * vy) == (ux * vx + uy * vy) * (ux * vx + uy * vy) + w * w;
  }

  /** Between non-negative reals, squares compare as the reals do. */
  lemma SquareAtMost(x: real, y: real)
    requires 0.0 <= x && 0.0 <= y && x * x <= y * y
    ensures x <= y
  {
    if y < x {
      SquareStrict(y, x);
    }
  }
}
