/**
 * Coordinate pairs and the distance functions the pipeline uses.
 *
 * The scripts measure distances with a haversine formula or with the square root of a sum of
 * squares; both are floating-point computations with trigonometry or roots, so the model takes
 * them as function parameters of type Metric. Where a script compares projected Euclidean
 * distances, the parameter is required to be EuclideanLike: a non-negative, non-decreasing
 * function of the exact squared distance, which is what the square root of SqDist is.
 */
module Geometry {

  /** A coordinate pair. Which component is longitude is fixed by each caller. */
  datatype Point = Point(x: real, y: real)

  type Metric = (Point, Point) -> real

  function Abs(r: real): real { if r < 0.0 then -r else r }

  /** Python's round() to an integer: the nearest integer, ties going to the even one. */
  function RoundHalfEven(r: real): (n: int)
    ensures -0.5 <= r - n as real <= 0.5
    ensures (r - n as real == 0.5 || n as real - r == 0.5) ==> n % 2 == 0
  {
    var f := r.Floor;
    var frac := r - f as real;
    if frac < 0.5 then f
    else if frac > 0.5 then f + 1
    else if f % 2 == 0 then f else f + 1
  }

  /** Rounding never reverses an order: a larger value never rounds to a smaller integer. */
  lemma {:induction false} RoundHalfEvenMonotone(a: real, b: real)
    requires a <= b
    ensures RoundHalfEven(a) <= RoundHalfEven(b)
  {
    if a < b {
      assert RoundHalfEven(a) as real - RoundHalfEven(b) as real < 1.0;
    }
  }

  function SqDist(p: Point, q: Point): real {
    (p.x - q.x) * (p.x - q.x) + (p.y - q.y) * (p.y - q.y)
  }

  /** |dlat| + |dlon|: the cheap comparison the route assembler uses to orient a track. */
  function Manhattan(p: Point, q: Point): real {
    Abs(p.x - q.x) + Abs(p.y - q.y)
  }

  ghost predicate NonNegative(dist: Metric) {
    forall p, q :: dist(p, q) >= 0.0
  }

  /** dist is the square root of SqDist, up to any monotone re-scaling. */
  ghost predicate EuclideanLike(dist: Metric) {
    && NonNegative(dist)
    && forall p, q, r, s :: SqDist(p, q) <= SqDist(r, s) ==> dist(p, q) <= dist(r, s)
  }

  /** The point a + t * (b - a). */
  function Lerp(a: Point, b: Point, t: real): Point {
    Point(a.x + t * (b.x - a.x), a.y + t * (b.y - a.y))
  }

  /** The dot product of p - a with the chord direction b - a. */
  function Dot(p: Point, a: Point, b: Point): real {
    (p.x - a.x) * (b.x - a.x) + (p.y - a.y) * (b.y - a.y)
  }

  /** The quadratic c - 2 s d + s^2 l in s. */
  function Quad(c: real, d: real, l: real, s: real): real {
    c - 2.0 * s * d + s * s * l
  }

  lemma {:induction false} SqDistNonNegative(p: Point, q: Point)
    ensures SqDist(p, q) >= 0.0
  {
  }

  /** The first coordinate's share of the squared distance from p to the chord point at s. */
  lemma {:induction false} ChordX(p: Point, a: Point, b: Point, s: real)
    ensures (p.x - Lerp(a, b, s).x) * (p.x - Lerp(a, b, s).x)
         == Quad((p.x - a.x) * (p.x - a.x), (p.x - a.x) * (b.x - a.x), (b.x - a.x) * (b.x - a.x), s)
  {
  }

  /** The second coordinate's share of the squared distance from p to the chord point at s. */
  lemma {:induction false} ChordY(p: Point, a: Point, b: Point, s: real)
    ensures (p.y - Lerp(a, b, s).y) * (p.y - Lerp(a, b, s).y)
         == Quad((p.y - a.y) * (p.y - a.y), (p.y - a.y) * (b.y - a.y), (b.y - a.y) * (b.y - a.y), s)
  {
  }

  /** Two quadratics in the same s add coefficient by coefficient. */
  lemma {:induction false} QuadAdd(c1: real, d1: real, l1: real, c2: real, d2: real, l2: real, s: real,
                                   c: real, d: real, l: real)
    requires c == c1 + c2 && d == d1 + d2 && l == l1 + l2
    ensures Quad(c1, d1, l1, s) + Quad(c2, d2, l2, s) == Quad(c, d, l, s)
  {
  }

  /** The squared distance to the chord point at s, one quadratic per coordinate. */
  lemma {:induction false} ChordSplit(p: Point, a: Point, b: Point, s: real)
    ensures SqDist(p, Lerp(a, b, s))
         == Quad((p.x - a.x) * (p.x - a.x), (p.x - a.x) * (b.x - a.x), (b.x - a.x) * (b.x - a.x), s)
          + Quad((p.y - a.y) * (p.y - a.y), (p.y - a.y) * (b.y - a.y), (b.y - a.y) * (b.y - a.y), s)
  {
    ChordX(p, a, b, s);
    ChordY(p, a, b, s);
  }

  /** The two coordinates' quadratics add up to one in the squared distances and the dot product. */
  lemma {:induction false} ChordJoin(p: Point, a: Point, b: Point, s: real)
    ensures Quad((p.x - a.x) * (p.x - a.x), (p.x - a.x) * (b.x - a.x), (b.x - a.x) * (b.x - a.x), s)
          + Quad((p.y - a.y) * (p.y - a.y), (p.y - a.y) * (b.y - a.y), (b.y - a.y) * (b.y - a.y), s)
         == Quad(SqDist(p, a), Dot(p, a, b), SqDist(b, a), s)
  {
    QuadAdd((p.x - a.x) * (p.x - a.x), (p.x - a.x) * (b.x - a.x), (b.x - a.x) * (b.x - a.x),
            (p.y - a.y) * (p.y - a.y), (p.y - a.y) * (b.y - a.y), (b.y - a.y) * (b.y - a.y), s,
            SqDist(p, a), Dot(p, a, b), SqDist(b, a));
  }

  /** The squared distance from p to the chord point at s is a quadratic in s. */
  lemma {:induction false} SqDistAlongChord(p: Point, a: Point, b: Point, s: real)
    ensures SqDist(p, Lerp(a, b, s)) == Quad(SqDist(p, a), Dot(p, a, b), SqDist(b, a), s)
  {
    ChordSplit(p, a, b, s);
    ChordJoin(p, a, b, s);
  }

  function Last<T>(s: seq<T>): T
    requires |s| > 0
  {
    s[|s| - 1]
  }

  function Reverse<T>(s: seq<T>): (r: seq<T>)
    ensures |r| == |s|
    ensures forall i :: 0 <= i < |s| ==> r[i] == s[|s| - 1 - i]
  {
    if |s| == 0 then [] else Reverse(s[1..]) + [s[0]]
  }

  function Sum(xs: seq<real>): real {
    if |xs| == 0 then 0.0 else Sum(xs[..|xs| - 1]) + xs[|xs| - 1]
  }

  /**
   * The length of a polyline: the sum of the distances between consecutive points, 0 for fewer
   * than two points.
   */
  function PolylineLength(pts: seq<Point>, dist: Metric): (len: real)
    ensures |pts| < 2 ==> len == 0.0
    ensures NonNegative(dist) ==> len >= 0.0
    decreases |pts|
  {
    if |pts| < 2 then 0.0
    else PolylineLength(pts[..|pts| - 1], dist) + dist(pts[|pts| - 2], pts[|pts| - 1])
  }

  /**
   * Joining two polylines at a shared point adds their lengths: splitting a track at one of its
   * points neither creates nor loses length.
   */
  lemma {:induction false} PolylineLengthJoin(a: seq<Point>, b: seq<Point>, dist: Metric)
    requires |a| > 0 && |b| > 0 && Last(a) == b[0]
    ensures PolylineLength(a + b[1..], dist) == PolylineLength(a, dist) + PolylineLength(b, dist)
    decreases |b|
  {
    if |b| == 1 {
      assert a + b[1..] == a;
    } else {
      var b' := b[..|b| - 1];
      PolylineLengthJoin(a, b', dist);
      var j := a + b[1..];
      assert j[..|j| - 1] == a + b'[1..];
      assert j[|j| - 1] == b[|b| - 1];
      assert j[|j| - 2] == b[|b| - 2] by {
        if |b| == 2 {
          assert j[|j| - 2] == Last(a);
        }
      }
    }
  }
}
