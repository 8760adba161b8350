/** Points, the abstract distance and the two geometric notions both
    services share: the length of a route and the nearest-point scan. */
module Geometry {
  import opened Wrappers

  /** A planar point (Commons Math's DoublePoint over two coordinates);
      equality is exact coordinate equality, as DoublePoint.equals is. */
  datatype Point = Point(x: real, y: real)

  /** The Euclidean distance of calculateDistance, kept abstract: every
      operation receives it as a parameter. */
  type Distance = (Point, Point) -> real

  /** What the routing code relies on of a distance. */
  ghost predicate IsDistance(dist: Distance) {
    && (forall p, q :: dist(p, q) >= 0.0)
    && (forall p :: dist(p, p) == 0.0)
  }

  /** The sum of the distances between consecutive points of a route; zero for
      a route of fewer than two points. */
  function RouteDistance(route: seq<Point>, dist: Distance): real
    decreases |route|
  {
    if |route| < 2 then 0.0
    else RouteDistance(route[..|route| - 1], dist) + dist(route[|route| - 2], route[|route| - 1])
  }

  /** Extending a route by one point adds exactly the last leg. */
  lemma RouteDistanceAppend(route: seq<Point>, p: Point, dist: Distance)
    requires |route| >= 1
    ensures RouteDistance(route + [p], dist) == RouteDistance(route, dist) + dist(route[|route| - 1], p)
  {
    assert (route + [p])[..|route|] == route;
  }

  /** A route is never of negative length. */
  lemma {:induction false} RouteDistanceNonNegative(route: seq<Point>, dist: Distance)
    requires IsDistance(dist)
    ensures RouteDistance(route, dist) >= 0.0
    decreases |route|
  {
    if |route| >= 2 {
      RouteDistanceNonNegative(route[..|route| - 1], dist);
      assert dist(route[|route| - 2], route[|route| - 1]) >= 0.0;
    }
  }

  /** The index a left-to-right scan with a strict `<` settles on: the first
      point outside `visited` whose distance from `from` is least, or None when
      every point is in `visited`. */
  function FindNearest(from: Point, points: seq<Point>, visited: set<Point>, dist: Distance): (r: Option<nat>)
    ensures r.None? <==> forall k :: 0 <= k < |points| ==> points[k] in visited
    ensures r.Some? ==> r.value < |points| && points[r.value] !in visited
    ensures r.Some? ==> forall k :: 0 <= k < |points| && points[k] !in visited ==>
                          dist(from, points[r.value]) <= dist(from, points[k])
    ensures r.Some? ==> forall k :: 0 <= k < r.value && points[k] !in visited ==>
                          dist(from, points[r.value]) < dist(from, points[k])
    decreases |points|
  {
    if points == [] then None
    else
      var last := |points| - 1;
      var best := FindNearest(from, points[..last], visited, dist);
      if points[last] in visited then best
      else if best.None? || dist(from, points[last]) < dist(from, points[best.value]) then Some(last)
      else best
  }

  /** The point FindNearest picks, if any. */
  function NearestUnvisited(from: Point, points: seq<Point>, visited: set<Point>, dist: Distance): (r: Option<Point>)
    ensures r.None? <==> forall k :: 0 <= k < |points| ==> points[k] in visited
    ensures r.Some? ==> r.value in points && r.value !in visited
  {
    match FindNearest(from, points, visited, dist)
    case None => None
    case Some(i) => Some(points[i])
  }

}
