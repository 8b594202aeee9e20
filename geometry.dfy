/** Points in image coordinates (`QPointF`, or a two-element numpy vector) and vector arithmetic on them. */
module Geometry {
  datatype Point = Point(x: real, y: real)

  function Sub(p: Point, q: Point): (d: Point) { Point(p.x - q.x, p.y - q.y) }

  function Add(p: Point, q: Point): (s: Point) { Point(p.x + q.x, p.y + q.y) }

  function Scale(t: real, p: Point): (s: Point) { Point(t * p.x, t * p.y) }

  function Dot(p: Point, q: Point): (d: real) { p.x * q.x + p.y * q.y }

  /** The squared Euclidean length, `np.sum(v ** 2)`. */
  function SqNorm(p: Point): (n: real) { Dot(p, p) }

  function SqDist(p: Point, q: Point): (d: real) { SqNorm(Sub(p, q)) }

  /** The click test shared by the drawing widgets: `0 <= x < width` and `0 <= y < height`. */
  predicate InImage(p: Point, width: int, height: int) {
    0.0 <= p.x < width as real && 0.0 <= p.y < height as real
  }

  lemma SqNormNonNegative(p: Point)
    ensures SqNorm(p) >= 0.0
    ensures SqNorm(p) == 0.0 <==> p == Point(0.0, 0.0)
  {
    SquareNonNegative(p.x);
    SquareNonNegative(p.y);
    if SqNorm(p) == 0.0 {
      SquareZero(p.x, p.y);
    }
  }

  /** Only a point coincides with itself: a zero squared distance means equal points. */
  lemma SqDistZero(p: Point, q: Point)
    requires SqDist(p, q) == 0.0
    ensures p == q
  {
    SquareZero(p.x - q.x, p.y - q.y);
  }

  /** Two non-negative squares add up to zero only when both roots are zero. */
  lemma SquareZero(a: real, b: real)
    requires a * a + b * b == 0.0
    ensures a == 0.0 && b == 0.0
  {
    SquareNonNegative(a);
    SquareNonNegative(b);
    ZeroProduct(a, a);
    ZeroProduct(b, b);
  }

  lemma SqDistSymmetric(p: Point, q: Point)
    ensures SqDist(p, q) == SqDist(q, p)
    ensures SqDist(p, q) >= 0.0
    ensures SqDist(p, q) == 0.0 <==> p == q
  {
    var d := Sub(p, q);
    assert Sub(q, p) == Point(-d.x, -d.y);
    SqNormNegated(d);
    SqNormNonNegative(d);
    if SqDist(p, q) == 0.0 {
      SqDistZero(p, q);
    }
  }

  /** Reversing a vector keeps its squared length. */
  lemma SqNormNegated(d: Point)
    ensures SqNorm(Point(-d.x, -d.y)) == SqNorm(d)
  {
    NegProduct(d.x, d.x);
    NegProduct(d.y, d.y);
  }

  lemma NegProduct(a: real, b: real)
    ensures (-a) * (-b) == a * b
  {
  }

  lemma SquareNonNegative(a: real)
    ensures a * a >= 0.0
  {
    if a > 0.0 {
      PosProduct(a, a);
    } else if a < 0.0 {
      PosProduct(-a, -a);
      assert (-a) * (-a) == a * a;
    }
  }

  lemma PosProduct(a: real, b: real)
    requires a > 0.0 && b > 0.0
    ensures a * b > 0.0
  {
  }

  lemma ZeroProduct(a: real, b: real)
    requires a * b == 0.0
    ensures a == 0.0 || b == 0.0
  {
  }
}
