/** Point-to-segment geometry used by the snapping logic: squared distances
    and the projection of a point onto a segment, with the projection
    parameter clamped to [0, 1]. Coordinates are exact reals. */
module Geometry {

  /** A 2D point in canvas coordinates. */
  datatype Point = Point(x: real, y: real)

  /** The square of a number. */
  function Sqr(a: real): (r: real)
    ensures r >= 0.0
    ensures r == 0.0 <==> a == 0.0
  {
    ZeroProduct(a, a);
    a * a
  }

  /** Squared Euclidean distance between two points. */
  function Dist2(v: Point, w: Point): (r: real)
    ensures r >= 0.0
    ensures r == 0.0 <==> v == w
  {
    Sqr(v.x - w.x) + Sqr(v.y - w.y)
  }

  /** Squared distance does not depend on the order of its arguments. */
  lemma Dist2Symmetric(v: Point, w: Point)
    ensures Dist2(v, w) == Dist2(w, v)
  {
  }

  function Min(a: real, b: real): real { if a <= b then a else b }
  function Max(a: real, b: real): real { if a >= b then a else b }

  /** The projection parameter clamped to [0, 1], as max(0, min(1, t)). */
  function Clamp01(t: real): (c: real)
    ensures 0.0 <= c <= 1.0
  {
    Max(0.0, Min(1.0, t))
  }

  /** The point at parameter t on the line through v (t = 0) and w (t = 1). */
  function Lerp(v: Point, w: Point, t: real): Point
  {
    Point(v.x + t * (w.x - v.x), v.y + t * (w.y - v.y))
  }

  /** q lies on the closed segment from v to w. */
  ghost predicate OnSegment(q: Point, v: Point, w: Point)
  {
    exists s :: 0.0 <= s <= 1.0 && q == Lerp(v, w, s)
  }

  /** The dot product of p - v and w - v. */
  function Dot(p: Point, v: Point, w: Point): real
  {
    (p.x - v.x) * (w.x - v.x) + (p.y - v.y) * (w.y - v.y)
  }

  /** The unclamped projection parameter of p onto the line through v and w. */
  function RawParam(p: Point, v: Point, w: Point): (t: real)
    requires v != w
    ensures t * Dist2(v, w) == Dot(p, v, w)
  {
    Dot(p, v, w) / Dist2(v, w)
  }

  /** What the segment distance computation returns: for a zero-length
      segment a bare number (the squared distance to its single point),
      otherwise a record holding the projected point and its distance.
      The record's distance is kept squared: the square root is monotone
      on non-negative numbers, so every comparison made on it gives the
      same answer on the square. */
  datatype Measure =
    | Number(value: real)
    | Projection(distance2: real, x: real, y: real)
  {
    function At(): Point
      requires Projection?
    {
      Point(x, y)
    }
  }

  /** Closest point on the segment [v, w] to p. */
  function DistToSegment(p: Point, v: Point, w: Point): (r: Measure)
    ensures r.Number? <==> v == w
    ensures r.Number? ==> r.value == Dist2(p, v)
    ensures r.Projection? ==> r.distance2 == Dist2(p, r.At())
    ensures r.Projection? ==> OnSegment(r.At(), v, w)
  {
    var l2 := Dist2(v, w);
    if l2 == 0.0 then
      Number(Dist2(p, v))
    else
      var t := Clamp01(RawParam(p, v, w));
      var q := Lerp(v, w, t);
      Projection(Dist2(p, q), q.x, q.y)
  }

  /** The projection snaps to v when the raw parameter is at most 0, to w
      when it is at least 1, and is the foot of the perpendicular otherwise. */
  lemma ClampedEnds(p: Point, v: Point, w: Point)
    requires v != w
    ensures DistToSegment(p, v, w).Projection?
    ensures RawParam(p, v, w) <= 0.0 ==> DistToSegment(p, v, w).At() == v
    ensures RawParam(p, v, w) >= 1.0 ==> DistToSegment(p, v, w).At() == w
    ensures 0.0 <= RawParam(p, v, w) <= 1.0 ==>
              DistToSegment(p, v, w).At() == Lerp(v, w, RawParam(p, v, w))
  {
  }

  /** q - 2 s d + s^2 l: the squared distance from p to the point at
      parameter s, with q = |p - v|^2, d = (p - v).(w - v), l = |w - v|^2. */
  function Quad(q: real, d: real, l: real, s: real): real
  {
    q - 2.0 * s * d + s * s * l
  }

  /** Squared distance from p to the point at parameter s, as a quadratic in s. */
  lemma DistAlong(p: Point, v: Point, w: Point, s: real)
    ensures Dist2(p, Lerp(v, w, s)) == Quad(Dist2(p, v), Dot(p, v, w), Dist2(v, w), s)
  {
    var qx, qy := p.x - v.x, p.y - v.y;
    var dx, dy := w.x - v.x, w.y - v.y;
    var q := Lerp(v, w, s);
    assert p.x - q.x == qx - s * dx;
    assert p.y - q.y == qy - s * dy;
    assert Sqr(qx - s * dx) == qx * qx - 2.0 * s * (qx * dx) + s * s * (dx * dx);
    assert Sqr(qy - s * dy) == qy * qy - 2.0 * s * (qy * dy) + s * s * (dy * dy);
    assert Sqr(v.x - w.x) == dx * dx;
    assert Sqr(v.y - w.y) == dy * dy;
  }

  /** The returned point is the closest point of the closed segment to p:
      no point of the segment is nearer. */
  lemma ClosestOnSegment(p: Point, v: Point, w: Point, s: real)
    requires v != w
    requires 0.0 <= s <= 1.0
    ensures DistToSegment(p, v, w).Projection?
    ensures DistToSegment(p, v, w).distance2 <= Dist2(p, Lerp(v, w, s))
  {
    assert DistToSegment(p, v, w).distance2 == Dist2(p, Lerp(v, w, Clamp01(RawParam(p, v, w))));
    ClampedNoFarther(p, v, w, s);
  }

  /** The point at the clamped parameter is no farther from p than the point
      at any parameter in [0, 1]. */
  lemma ClampedNoFarther(p: Point, v: Point, w: Point, s: real)
    requires v != w
    requires 0.0 <= s <= 1.0
    ensures Dist2(p, Lerp(v, w, Clamp01(RawParam(p, v, w)))) <= Dist2(p, Lerp(v, w, s))
  {
    var t := RawParam(p, v, w);
    var c := Clamp01(t);
    var q, d, l := Dist2(p, v), Dot(p, v, w), Dist2(v, w);
    assert Dist2(p, Lerp(v, w, c)) == Quad(q, d, l, c) by {
      DistAlong(p, v, w, c);
    }
    assert Dist2(p, Lerp(v, w, s)) == Quad(q, d, l, s) by {
      DistAlong(p, v, w, s);
    }
    assert Quad(q, d, l, c) <= Quad(q, d, l, s) by {
      ClampMinimizes(q, d, l, t, s);
    }
  }

  /** Over [0, 1], the quadratic with minimum at t is least at the clamped t. */
  lemma ClampMinimizes(q: real, d: real, l: real, t: real, s: real)
    requires l > 0.0 && t * l == d
    requires 0.0 <= s <= 1.0
    ensures Quad(q, d, l, Clamp01(t)) <= Quad(q, d, l, s)
  {
    if t <= 0.0 {
      assert d <= 0.0 by {
        NonNegProduct(-t, l);
      }
      QuadLeft(l, d, s);
    } else if t >= 1.0 {
      assert d >= l by {
        NonNegProduct(t - 1.0, l);
      }
      QuadRight(l, d, s);
    } else {
      assert Quad(q, d, l, s) - Quad(q, d, l, t) == l * Sqr(s - t) by {
        CompleteSquare(l, s, t, d);
      }
      NonNegProduct(l, Sqr(s - t));
    }
  }

  /** With a non-positive dot product, parameter 0 is no worse than s. */
  lemma QuadLeft(l: real, d: real, s: real)
    requires l > 0.0 && d <= 0.0 && s >= 0.0
    ensures 0.0 <= -2.0 * s * d + s * s * l
  {
    NonNegProduct(s, -d);
    NonNegProduct(s * s, l);
  }

  /** With a dot product of at least l, parameter 1 is no worse than s. */
  lemma QuadRight(l: real, d: real, s: real)
    requires l > 0.0 && d >= l && 0.0 <= s <= 1.0
    ensures -2.0 * d + l <= -2.0 * s * d + s * s * l
  {
    NonNegProduct(1.0 - s, 2.0 * d - l - s * l);
    assert (1.0 - s) * (2.0 * d - l - s * l) == -2.0 * s * d + s * s * l - (-2.0 * d + l);
  }

  /** Completing the square when d == c * l. */
  lemma CompleteSquare(l: real, s: real, c: real, d: real)
    requires d == c * l
    ensures -2.0 * s * d + s * s * l - (-2.0 * c * d + c * c * l) == l * Sqr(s - c)
  {
  }

  /** The returned distance is zero exactly when p itself lies on the segment. */
  lemma ZeroDistanceIffOnSegment(p: Point, v: Point, w: Point)
    requires v != w
    ensures DistToSegment(p, v, w).Projection?
    ensures DistToSegment(p, v, w).distance2 == 0.0 <==> OnSegment(p, v, w)
  {
    var r := DistToSegment(p, v, w);
    if OnSegment(p, v, w) {
      var s :| 0.0 <= s <= 1.0 && p == Lerp(v, w, s);
      ClosestOnSegment(p, v, w, s);
    }
    if r.distance2 == 0.0 {
      assert p == r.At();
    }
  }

  /** The squared distance as the sum of the squared coordinate differences. */
  lemma Dist2Squares(v: Point, w: Point)
    ensures Dist2(v, w) == Sqr(v.x - w.x) + Sqr(v.y - w.y)
  {
  }

  /** Worked example, first step: the segment from (0, 0) to (10, 0) has
      squared length 100. */
  lemma ExampleLength(v: Point, w: Point)
    requires v == Point(0.0, 0.0) && w == Point(10.0, 0.0)
    ensures Dist2(v, w) == 100.0
  {
    Dist2Symmetric(v, w);
    Dist2Squares(w, v);
    assert w.x - v.x == 10.0 && w.y - v.y == 0.0;
  }

  /** Worked example, second step: p = (5, 5) has raw parameter 0.5 on
      that segment. */
  lemma ExampleParam(p: Point, v: Point, w: Point)
    requires p == Point(5.0, 5.0) && v == Point(0.0, 0.0) && w == Point(10.0, 0.0)
    ensures v != w
    ensures RawParam(p, v, w) == 0.5
  {
    ExampleLength(v, w);
    assert Dot(p, v, w) == 50.0;
  }

  /** Worked example, third step: p projects onto (5, 0), the middle of
      the segment. */
  lemma ExampleFootPoint(p: Point, v: Point, w: Point)
    requires p == Point(5.0, 5.0) && v == Point(0.0, 0.0) && w == Point(10.0, 0.0)
    ensures DistToSegment(p, v, w).Projection?
    ensures DistToSegment(p, v, w).At() == Point(5.0, 0.0)
  {
    ExampleParam(p, v, w);
    ExampleMidpoint(v, w, RawParam(p, v, w));
    ClampedEnds(p, v, w);
  }

  /** The point at parameter 0.5 on the segment from (0, 0) to (10, 0). */
  lemma ExampleMidpoint(v: Point, w: Point, t: real)
    requires v == Point(0.0, 0.0) && w == Point(10.0, 0.0) && t == 0.5
    ensures Lerp(v, w, t) == Point(5.0, 0.0)
  {
  }

  /** Worked example, fourth step: (5, 5) is at squared distance 25 from (5, 0). */
  lemma ExampleFootDistance(p: Point, f: Point)
    requires p == Point(5.0, 5.0) && f == Point(5.0, 0.0)
    ensures Dist2(p, f) == 25.0
  {
    Dist2Squares(p, f);
    assert p.x - f.x == 0.0 && p.y - f.y == 5.0;
  }

  /** Worked example: p = (5, 5) against the segment from (0, 0) to (10, 0)
      gives the point (5, 0) at squared distance 25. */
  lemma ProjectionExample()
    ensures DistToSegment(Point(5.0, 5.0), Point(0.0, 0.0), Point(10.0, 0.0)) == Projection(25.0, 5.0, 0.0)
  {
    ExampleFootPoint(Point(5.0, 5.0), Point(0.0, 0.0), Point(10.0, 0.0));
    ExampleFootDistance(Point(5.0, 5.0), Point(5.0, 0.0));
  }

  lemma ZeroProduct(a: real, b: real)
    ensures a * b == 0.0 ==> a == 0.0 || b == 0.0
  {
  }

  lemma NonNegProduct(a: real, b: real)
    requires a >= 0.0 && b >= 0.0
    ensures a * b >= 0.0
  {
  }
}
