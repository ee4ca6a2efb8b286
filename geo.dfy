/**
 * Geometry on latitude/longitude pairs: the metric abstraction, the clamped
 * projection of a point onto a route segment, the "near the route" test,
 * the first-wins nearest-point scan and the straight-line simulation path.
 */
module Geo {
  import opened Wrappers

  datatype LatLng = LatLng(lat: real, lng: real)

  /**
   * A distance in metres between two points. One metric stands both for the
   * haversine formula with Earth radius 6 371 000 m and for the map
   * library's spherical distance, so the model takes the two to agree;
   * nothing else about it is assumed.
   */
  type Metric = (LatLng, LatLng) -> real

  /** The number at fraction t of the way from u to v. */
  function Mix(u: real, v: real, t: real): real
  {
    u + t * (v - u)
  }

  /** The point at fraction t of the way from a to b. */
  function Lerp(a: LatLng, b: LatLng, t: real): LatLng
  {
    LatLng(Mix(a.lat, b.lat, t), Mix(a.lng, b.lng, t))
  }

  function Sq(x: real): real
  {
    x * x
  }

  /** Squared planar distance, treating latitude and longitude as plane coordinates. */
  function SqPlanar(p: LatLng, q: LatLng): real
  {
    Sq(p.lat - q.lat) + Sq(p.lng - q.lng)
  }

  /** `Math.max(0, Math.min(1, x))`. */
  function Clamp01(x: real): real
  {
    if x < 0.0 then 0.0 else if x > 1.0 then 1.0 else x
  }

  /** `Math.round`: the nearest integer, halves rounded up. */
  function Round(x: real): (r: int)
    ensures x - 0.5 < r as real <= x + 0.5
  {
    (x + 0.5).Floor
  }

  /** `Math.ceil`: the least integer not below x. */
  function Ceil(x: real): (r: int)
    ensures x <= r as real < x + 1.0
  {
    -((-x).Floor)
  }

  // ---------------------------------------------------------------------
  // Closest point on a segment
  // ---------------------------------------------------------------------

  /** `dx * dx + dy * dy`: the squared length of the segment's direction vector. */
  function SegmentSqLength(a: LatLng, b: LatLng): real
  {
    Sq(b.lat - a.lat) + Sq(b.lng - a.lng)
  }

  /** The dot product of (p - a) with the direction (b - a). */
  function AlongDot(p: LatLng, a: LatLng, b: LatLng): real
  {
    (p.lat - a.lat) * (b.lat - a.lat) + (p.lng - a.lng) * (b.lng - a.lng)
  }

  /** The quadratic e - 2xw + x^2 len: the squared distance from p to Lerp(a, b, x). */
  function Quad(e: real, w: real, len: real, x: real): real
  {
    e - 2.0 * x * w + x * x * len
  }

  /** The projection parameter before clamping; the source divides only when a != b. */
  function RawParam(p: LatLng, a: LatLng, b: LatLng): real
    requires a != b
  {
    SegmentSqLengthPositive(a, b);
    AlongDot(p, a, b) / SegmentSqLength(a, b)
  }

  /**
   * The clamped projection of p onto segment [a, b]; a degenerate segment
   * (dx and dy both 0) gives its start point.
   */
  function ClosestPointOnSegment(p: LatLng, a: LatLng, b: LatLng): (c: LatLng)
    ensures a == b ==> c == a
    ensures exists t: real :: 0.0 <= t <= 1.0 && c == Lerp(a, b, t)
  {
    var dx := b.lat - a.lat;
    var dy := b.lng - a.lng;
    if dx == 0.0 && dy == 0.0 then
      assert a == Lerp(a, b, 0.0);
      a
    else
      var t := Clamp01(RawParam(p, a, b));
      assert LatLng(a.lat + t * dx, a.lng + t * dy) == Lerp(a, b, t);
      LatLng(a.lat + t * dx, a.lng + t * dy)
  }

  lemma SqNonNegative(x: real)
    ensures Sq(x) >= 0.0
  {
  }

  lemma SqPositive(x: real)
    requires x != 0.0
    ensures Sq(x) > 0.0
  {
    if x > 0.0 {
      calc { Sq(x); == x * x; > 0.0; }
    } else {
      calc { Sq(x); == (-x) * (-x); > 0.0; }
    }
  }

  /** A segment between two distinct points has positive squared length. */
  lemma SegmentSqLengthPositive(a: LatLng, b: LatLng)
    requires a != b
    ensures SegmentSqLength(a, b) > 0.0
  {
    SqNonNegative(b.lat - a.lat);
    SqNonNegative(b.lng - a.lng);
    if b.lat - a.lat != 0.0 {
      SqPositive(b.lat - a.lat);
    } else {
      assert a == LatLng(a.lat, a.lng) && b == LatLng(b.lat, b.lng);
      SqPositive(b.lng - a.lng);
    }
  }

  lemma RawParamScaled(p: LatLng, a: LatLng, b: LatLng)
    requires a != b
    ensures AlongDot(p, a, b) == RawParam(p, a, b) * SegmentSqLength(a, b)
  {
    SegmentSqLengthPositive(a, b);
  }

  lemma ClosestIsLerp(p: LatLng, a: LatLng, b: LatLng)
    requires a != b
    ensures ClosestPointOnSegment(p, a, b) == Lerp(a, b, Clamp01(RawParam(p, a, b)))
  {
    assert a == LatLng(a.lat, a.lng) && b == LatLng(b.lat, b.lng);
  }

  lemma SqOfDifference(e: real, x: real, d: real)
    ensures Sq(e - x * d) == Quad(Sq(e), e * d, Sq(d), x)
  {
  }

  /** One coordinate of the squared distance along the line, as a quadratic in x. */
  lemma SqAlongLine(p: real, u: real, v: real, x: real)
    ensures Sq(p - Mix(u, v, x)) == Quad(Sq(p - u), (p - u) * (v - u), Sq(v - u), x)
  {
    calc {
      Sq(p - Mix(u, v, x));
      == Sq((p - u) - x * (v - u));
      == { SqOfDifference(p - u, x, v - u); }
         Quad(Sq(p - u), (p - u) * (v - u), Sq(v - u), x);
    }
  }

  lemma QuadSum(e1: real, e2: real, w1: real, w2: real, l1: real, l2: real, x: real)
    ensures Quad(e1, w1, l1, x) + Quad(e2, w2, l2, x) == Quad(e1 + e2, w1 + w2, l1 + l2, x)
  {
  }

  /** The squared planar distance from p to the point at x along [a, b]. */
  lemma SqPlanarAlongLine(p: LatLng, a: LatLng, b: LatLng, x: real)
    ensures SqPlanar(p, Lerp(a, b, x)) == Quad(SqPlanar(p, a), AlongDot(p, a, b), SegmentSqLength(a, b), x)
  {
    SqAlongLine(p.lat, a.lat, b.lat, x);
    SqAlongLine(p.lng, a.lng, b.lng, x);
    QuadSum(Sq(p.lat - a.lat), Sq(p.lng - a.lng), (p.lat - a.lat) * (b.lat - a.lat), (p.lng - a.lng) * (b.lng - a.lng),
            Sq(b.lat - a.lat), Sq(b.lng - a.lng), x);
  }

  lemma QuadraticGap(e: real, w: real, len: real, s: real, t: real, u: real)
    requires w == u * len
    ensures Quad(e, w, len, s) - Quad(e, w, len, t) == len * ((s - t) * (s + t - 2.0 * u))
  {
    assert 2.0 * s * w - 2.0 * t * w == len * (2.0 * (s - t) * u);
    assert s * s * len - t * t * len == len * ((s - t) * (s + t));
  }

  lemma ProductNonNegative(x: real, y: real)
    requires x >= 0.0 && y >= 0.0
    ensures x * y >= 0.0
  {
  }

  /** Clamping the vertex u of the parabola to [0, 1] never moves it away from any s in [0, 1]. */
  lemma ClampGapNonNegative(s: real, u: real)
    requires 0.0 <= s <= 1.0
    ensures (s - Clamp01(u)) * (s + Clamp01(u) - 2.0 * u) >= 0.0
  {
    var t := Clamp01(u);
    if u < 0.0 {
      ProductNonNegative(s, s - 2.0 * u);
    } else if u > 1.0 {
      ProductNonNegative(1.0 - s, 2.0 * u - s - 1.0);
      assert (s - 1.0) * (s + 1.0 - 2.0 * u) == (1.0 - s) * (2.0 * u - s - 1.0);
    } else {
      assert (s - t) * (s + t - 2.0 * u) == (s - t) * (s - t);
    }
  }

  /** An upward parabola with vertex u is smallest on [0, 1] at the clamped vertex. */
  lemma QuadMinimizedAtClamp(e: real, w: real, len: real, u: real, s: real)
    requires len > 0.0 && w == u * len && 0.0 <= s <= 1.0
    ensures Quad(e, w, len, Clamp01(u)) <= Quad(e, w, len, s)
  {
    var t := Clamp01(u);
    QuadraticGap(e, w, len, s, t, u);
    ClampGapNonNegative(s, u);
    ProductNonNegative(len, (s - t) * (s + t - 2.0 * u));
  }

  /**
   * In the planar coordinates the projection works in, the returned point is a
   * nearest point of the segment to p.
   */
  lemma ClosestPointIsNearest(p: LatLng, a: LatLng, b: LatLng, s: real)
    requires 0.0 <= s <= 1.0
    ensures SqPlanar(p, ClosestPointOnSegment(p, a, b)) <= SqPlanar(p, Lerp(a, b, s))
  {
    if a == b {
      assert Lerp(a, b, s) == a;
    } else {
      var u := RawParam(p, a, b);
      RawParamScaled(p, a, b);
      ClosestIsLerp(p, a, b);
      SqPlanarAlongLine(p, a, b, s);
      SqPlanarAlongLine(p, a, b, Clamp01(u));
      SegmentSqLengthPositive(a, b);
      QuadMinimizedAtClamp(SqPlanar(p, a), AlongDot(p, a, b), SegmentSqLength(a, b), u, s);
    }
  }

  lemma HalfFromScaled(u: real, w: real, len: real)
    requires len > 0.0 && w == u * len && 2.0 * w == len
    ensures u == 0.5
  {
  }

  /** A point equally far (in the plane) from both ends projects to the midpoint. */
  lemma EquidistantProjectsToMidpoint(p: LatLng, a: LatLng, b: LatLng)
    requires a != b
    requires SqPlanar(p, a) == SqPlanar(p, b)
    ensures ClosestPointOnSegment(p, a, b) == Lerp(a, b, 0.5)
  {
    var e, w, len := SqPlanar(p, a), AlongDot(p, a, b), SegmentSqLength(a, b);
    SegmentSqLengthPositive(a, b);
    SqPlanarAlongLine(p, a, b, 1.0);
    assert Lerp(a, b, 1.0) == b;
    assert Quad(e, w, len, 1.0) == e - 2.0 * w + len;
    assert 2.0 * w == len;
    var u := RawParam(p, a, b);
    RawParamScaled(p, a, b);
    HalfFromScaled(u, w, len);
    ClosestIsLerp(p, a, b);
  }


  // ---------------------------------------------------------------------
  // Near the route
  // ---------------------------------------------------------------------

  /** The metric distance from p to its projection onto segment [a, b]. */
  function SegmentDistance(p: LatLng, a: LatLng, b: LatLng, dist: Metric): real
  {
    dist(p, ClosestPointOnSegment(p, a, b))
  }

  /** Some consecutive pair of the path is within maxDistance of p (inclusive). */
  ghost predicate NearPath(p: LatLng, path: seq<LatLng>, maxDistance: real, dist: Metric)
  {
    exists i :: 0 <= i < |path| - 1 && SegmentDistance(p, path[i], path[i + 1], dist) <= maxDistance
  }

  /** The segment loop of the route test; it stops at the first segment close enough. */
  method IsPointNearPath(p: LatLng, path: seq<LatLng>, maxDistance: real, dist: Metric)
    returns (near: bool)
    ensures near <==> NearPath(p, path, maxDistance, dist)
    ensures |path| < 2 ==> !near
  {
    var i := 0;
    while i < |path| - 1
      invariant 0 <= i <= if |path| == 0 then 0 else |path| - 1
      invariant forall j :: 0 <= j < i ==> SegmentDistance(p, path[j], path[j + 1], dist) > maxDistance
    {
      if SegmentDistance(p, path[i], path[i + 1], dist) <= maxDistance {
        return true;
      }
      i := i + 1;
    }
    return false;
  }

  /** Allowing a larger distance never turns a near point into a far one. */
  lemma NearPathMonotone(p: LatLng, path: seq<LatLng>, m1: real, m2: real, dist: Metric)
    requires m1 <= m2
    requires NearPath(p, path, m1, dist)
    ensures NearPath(p, path, m2, dist)
  {
    var i :| 0 <= i < |path| - 1 && SegmentDistance(p, path[i], path[i + 1], dist) <= m1;
    assert SegmentDistance(p, path[i], path[i + 1], dist) <= m2;
  }

  /** A point near a route stays near when more points are appended to the route. */
  lemma NearPathExtend(p: LatLng, path: seq<LatLng>, more: seq<LatLng>, maxDistance: real, dist: Metric)
    requires NearPath(p, path, maxDistance, dist)
    ensures NearPath(p, path + more, maxDistance, dist)
  {
    var i :| 0 <= i < |path| - 1 && SegmentDistance(p, path[i], path[i + 1], dist) <= maxDistance;
    assert (path + more)[i] == path[i] && (path + more)[i + 1] == path[i + 1];
  }

  // ---------------------------------------------------------------------
  // First-wins nearest point
  // ---------------------------------------------------------------------

  /**
   * pts[k] is at minimum distance from pos, and no earlier point is equally
   * close: what a left-to-right scan with a strict `<` replace test finds.
   */
  ghost predicate IsFirstNearest(pos: LatLng, pts: seq<LatLng>, dist: Metric, k: nat)
  {
    && k < |pts|
    && (forall j :: 0 <= j < |pts| ==> dist(pos, pts[k]) <= dist(pos, pts[j]))
    && (forall j :: 0 <= j < k ==> dist(pos, pts[j]) > dist(pos, pts[k]))
  }

  lemma FirstNearestUnique(pos: LatLng, pts: seq<LatLng>, dist: Metric, k1: nat, k2: nat)
    requires IsFirstNearest(pos, pts, dist, k1) && IsFirstNearest(pos, pts, dist, k2)
    ensures k1 == k2
  {
    assert dist(pos, pts[k1]) <= dist(pos, pts[k2]);
    assert dist(pos, pts[k2]) <= dist(pos, pts[k1]);
  }

  /**
   * The nearest point, defined from the right: the head wins unless some
   * later point is strictly closer. None exactly for the empty list.
   */
  function Nearest(pos: LatLng, pts: seq<LatLng>, dist: Metric): (r: Option<nat>)
    ensures r.None? <==> pts == []
    ensures r.Some? ==> IsFirstNearest(pos, pts, dist, r.value)
  {
    if pts == [] then None
    else
      var rest := Nearest(pos, pts[1..], dist);
      if rest.None? || dist(pos, pts[0]) <= dist(pos, pts[1 + rest.value]) then Some(0)
      else
        assert forall j :: 1 <= j < |pts| ==> pts[j] == pts[1..][j - 1];
        Some(1 + rest.value)
  }

  /** The accumulator loop shared by the hazard check and the navigation display. */
  method ScanNearest(pos: LatLng, pts: seq<LatLng>, dist: Metric) returns (best: Option<nat>, closest: real)
    ensures best == Nearest(pos, pts, dist)
    ensures best.Some? ==> best.value < |pts| && closest == dist(pos, pts[best.value])
  {
    best, closest := None, 0.0;
    for i := 0 to |pts|
      invariant best.None? <==> i == 0
      invariant best.Some? ==> IsFirstNearest(pos, pts[..i], dist, best.value)
      invariant best.Some? ==> closest == dist(pos, pts[best.value])
    {
      var d := dist(pos, pts[i]);
      if best.None? || d < closest {
        best, closest := Some(i), d;
      }
    }
    assert pts[..|pts|] == pts;
    if best.Some? {
      FirstNearestUnique(pos, pts, dist, best.value, Nearest(pos, pts, dist).value);
    }
  }

  // ---------------------------------------------------------------------
  // Straight-line simulation path
  // ---------------------------------------------------------------------

  /** `Math.max(20, Math.ceil(d / 10))`: one point about every 10 metres, at least 20 segments. */
  function PathSteps(d: real): (n: nat)
    ensures n >= 20
    ensures n as real >= d / 10.0
    ensures n > 20 ==> (n - 1) as real < d / 10.0
  {
    var c := Ceil(d / 10.0);
    if c > 20 then c else 20
  }

  /** steps + 1 evenly spaced points from start to end, both included. */
  method CreateSimulationPath(start: LatLng, end: LatLng, dist: Metric) returns (path: seq<LatLng>)
    ensures |path| == PathSteps(dist(start, end)) + 1
    ensures forall i :: 0 <= i < |path| ==> path[i] == Lerp(start, end, i as real / (|path| - 1) as real)
    ensures path[0] == start && path[|path| - 1] == end
  {
    var steps := PathSteps(dist(start, end));
    path := [];
    for i := 0 to steps + 1
      invariant |path| == i
      invariant forall j :: 0 <= j < i ==> path[j] == Lerp(start, end, j as real / steps as real)
    {
      var t := i as real / steps as real;
      path := path + [LatLng(start.lat + (end.lat - start.lat) * t, start.lng + (end.lng - start.lng) * t)];
      assert path[i] == Lerp(start, end, t);
    }
    assert path[0] == Lerp(start, end, 0.0) == start;
    assert path[steps] == Lerp(start, end, 1.0) == end;
  }
}
