/** The dynamic mode's route building (OptimizationService): the mobile
    depot's nearest-neighbour tour over the cluster centres, and the couriers'
    star-shaped routes inside each cluster. */
module OptimizationService {
  import opened Wrappers
  import opened Seqs
  import opened Geometry
  import opened Couriers
  import opened StarRoutes

  /** The depot's tour (calculateRoute): from `start`, repeatedly move to the
      nearest point not yet visited, ties going to the earliest in `points`.
      The Java loop runs until it has visited |points| + 1 distinct points; when
      `points` repeats a point or contains `start` that never happens and the
      loop spins forever without changing anything: the model returns None
      there. */
  method CalculateRoute(start: Point, points: seq<Point>, dist: Distance) returns (r: Option<seq<Point>>)
    ensures r.Some? <==> Distinct(points) && start !in points
    ensures r.Some? ==> |r.value| == |points| + 1 && r.value[0] == start && Distinct(r.value)
    ensures r.Some? ==> multiset(r.value[1..]) == multiset(points)
    ensures r.Some? ==> Greedy(points, r.value, dist)
  {
    var route := [start];
    var visited := {start};
    var current := start;
    assert Elems(route) == {start};
    while |visited| < |points| + 1
      invariant PartialTour(start, points, route, dist)
      invariant visited == Elems(route) && current == route[|route| - 1]
      decreases |points| + 1 - |visited|
    {
      CardOfSet(route);
      var nearestPoint := ScanNearest(current, points, visited, dist);
      if nearestPoint.None? {
        // Every point is visited and yet fewer than |points| + 1 are: the
        // source's loop makes no further progress.
        NoProgressMeansRepetition(start, points, route);
        return None;
      }
      var next := nearestPoint.value;
      ExtendPartialTour(start, points, route, next, dist);
      route := route + [next];
      visited := visited + {next};
      current := next;
    }
    CardOfSet(route);
    FullTourIsPermutation(start, points, route);
    r := Some(route);
  }

  /** A tour from `start` as calculateRoute builds it: no point twice, every
      point after the start taken from `points` by a nearest-neighbour step. */
  ghost predicate PartialTour(start: Point, points: seq<Point>, route: seq<Point>, dist: Distance) {
    && |route| >= 1 && route[0] == start
    && Distinct(route)
    && (forall k :: 1 <= k < |route| ==> route[k] in points)
    && Greedy(points, route, dist)
  }

  /** Moving on to the nearest unvisited point extends the tour by one
      visited point. */
  lemma ExtendPartialTour(start: Point, points: seq<Point>, route: seq<Point>, next: Point, dist: Distance)
    requires PartialTour(start, points, route, dist)
    requires NearestUnvisited(route[|route| - 1], points, Elems(route), dist) == Some(next)
    ensures PartialTour(start, points, route + [next], dist)
    ensures Elems(route + [next]) == Elems(route) + {next}
    ensures |Elems(route) + {next}| == |Elems(route)| + 1
  {
    GreedyStep(points, route, next, dist);
    ExtendTour(route, next);
  }

  /** Every point after the first is the nearest point, ties going to the
      earliest in `points`, among those not already on the route before it. */
  ghost predicate Greedy(points: seq<Point>, route: seq<Point>, dist: Distance) {
    forall k :: 1 <= k < |route| ==>
      NearestUnvisited(route[k - 1], points, Elems(route[..k]), dist) == Some(route[k])
  }

  /** The inner scan of calculateRoute: the nearest point not in `visited`,
      found with a running minimum and a strict `<`. None stands for the null
      that nearestPoint starts as (the Double.MAX_VALUE sentinel). */
  method ScanNearest(current: Point, points: seq<Point>, visited: set<Point>, dist: Distance)
    returns (nearestPoint: Option<Point>)
    ensures nearestPoint == NearestUnvisited(current, points, visited, dist)
  {
    nearestPoint := None;
    var minDistance := 0.0;
    for j := 0 to |points|
      invariant nearestPoint == NearestUnvisited(current, points[..j], visited, dist)
      invariant nearestPoint.Some? ==> minDistance == dist(current, nearestPoint.value)
    {
      assert points[..j + 1][..j] == points[..j];
      var point := points[j];
      if point !in visited {
        var distance := dist(current, point);
        if nearestPoint.None? || distance < minDistance {
          minDistance := distance;
          nearestPoint := Some(point);
        }
      }
    }
    assert points[..|points|] == points;
  }

  /** Appending the nearest unvisited point keeps every step of the tour a
      nearest-neighbour step. */
  lemma GreedyStep(points: seq<Point>, route: seq<Point>, next: Point, dist: Distance)
    requires |route| >= 1
    requires Greedy(points, route, dist)
    requires NearestUnvisited(route[|route| - 1], points, Elems(route), dist) == Some(next)
    ensures Greedy(points, route + [next], dist)
  {
    forall k | 1 <= k < |route| + 1
      ensures NearestUnvisited((route + [next])[k - 1], points, Elems((route + [next])[..k]), dist) == Some((route + [next])[k])
    {
      assert (route + [next])[..k] == route[..k];
    }
  }

  /** Appending a point not on the tour keeps the tour free of repetitions
      and adds that point to the visited set. */
  lemma ExtendTour(route: seq<Point>, next: Point)
    requires Distinct(route) && next !in Elems(route)
    ensures Distinct(route + [next]) && Elems(route + [next]) == Elems(route) + {next}
    ensures |Elems(route) + {next}| == |Elems(route)| + 1
  {
  }

  /** When every point is visited but the tour holds at most |points| points,
      `points` repeats a point or contains the start. */
  lemma NoProgressMeansRepetition(start: Point, points: seq<Point>, route: seq<Point>)
    requires |route| >= 1 && route[0] == start && Distinct(route)
    requires forall k :: 1 <= k < |route| ==> route[k] in points
    requires forall k :: 0 <= k < |points| ==> points[k] in Elems(route)
    requires |route| < |points| + 1
    ensures !(Distinct(points) && start !in points)
  {
    if Distinct(points) && start !in points {
      CardOfSet(points);
      assert Elems(points) + {start} <= Elems(route);
      assert |Elems(points) + {start}| == |points| + 1;
      CardOfSet(route);
      SubsetCardLe(Elems(points) + {start}, Elems(route));
    }
  }

  /** A repetition-free tour from `start` through points of `points` that is
      |points| + 1 long visits every point once, and `points` itself repeats
      nothing and avoids `start`. */
  lemma FullTourIsPermutation(start: Point, points: seq<Point>, route: seq<Point>)
    requires |route| >= 1 && route[0] == start && Distinct(route)
    requires forall k :: 1 <= k < |route| ==> route[k] in points
    requires |route| >= |points| + 1
    ensures Distinct(points) && start !in points
    ensures |route| == |points| + 1
    ensures multiset(route[1..]) == multiset(points)
  {
    CardOfSet(route);
    CardOfSet(points);
    var tail := route[1..];
    assert Elems(route) == Elems(tail) + {start};
    assert start !in tail;
    assert Elems(tail) <= Elems(points);
    CardOfSet(tail);
    assert Distinct(tail);
    SubsetCardEq(Elems(tail), Elems(points));
    assert Elems(tail) == Elems(points);
    DistinctSameSet(tail, points);
  }

  /** addingPointAndDistance: appends `point` to the courier's route and adds
      the length of the new last leg to the courier's load. */
  method AddingPointAndDistance(point: Point, courier: Courier, points: seq<Point>, dist: Distance)
    returns (courier': Courier, points': seq<Point>)
    requires |points| >= 1
    ensures points' == points + [point]
    ensures courier' == courier.(currentDistance := courier'.currentDistance)
    ensures courier'.currentDistance - RouteDistance(points', dist) == courier.currentDistance - RouteDistance(points, dist)
  {
    points' := points + [point];
    var distanceToAdd := dist(points'[|points'| - 2], point);
    courier' := courier.(currentDistance := courier.currentDistance + distanceToAdd);
    RouteDistanceAppend(points, point, dist);
  }

  /** The points a courier records for one cluster: its first stop when that
      stop is assigned, and its last stop when the route is closed, unless the
      record already holds it. */
  function NewVisits(visited: seq<Point>, stops: seq<Point>): seq<Point>
  {
    if stops == [] then visited
    else
      var first := visited + [stops[0]];
      if stops[|stops| - 1] in first then first else first + [stops[|stops| - 1]]
  }

  /** The route extension in one pass of the assignment loop: a courier out
      at an earlier point goes back to the centre (twice, as the code appends
      it twice) and then to `point`; a courier at the centre goes straight to
      `point` and records it. */
  method SendTo(center: Point, point: Point, courier: Courier, points: seq<Point>, dist: Distance)
    returns (courier': Courier, points': seq<Point>)
    requires |points| >= 1 && courier.countPoints == |courier.visitedPoints|
    ensures points' == if points[|points| - 1] != center then points + [center, center, point] else points + [point]
    ensures courier'.id == courier.id && courier'.countPoints == |courier'.visitedPoints|
    ensures courier'.currentDistance - RouteDistance(points', dist) == courier.currentDistance - RouteDistance(points, dist)
    ensures courier'.visitedPoints == courier.visitedPoints + if points[|points| - 1] == center then [point] else []
  {
    courier', points' := courier, points;
    if points[|points| - 1] != center {
      courier', points' := AddingPointAndDistance(center, courier', points', dist);
      courier', points' := AddingPointAndDistance(center, courier', points', dist);
    } else {
      courier' := courier'.(visitedPoints := courier'.visitedPoints + [point], countPoints := courier'.countPoints + 1);
    }
    courier', points' := AddingPointAndDistance(point, courier', points', dist);
  }

  /** One pass of the assignment loop of calculateCourierRoutes: poll a
      courier, send it from the centre to `point` (first returning to the
      centre if it is out at an earlier point) and queue it again. */
  method AssignPoint(center: Point, point: Point, couriers: nat, pq: CourierQueue, routes: seq<seq<Point>>, dist: Distance)
    returns (routes': seq<seq<Point>>, id: nat)
    requires couriers > 0 && pq.Valid(couriers) && |routes| == couriers
    requires forall i :: 0 <= i < couriers ==> |routes[i]| >= 1
    modifies pq
    ensures pq.Valid(couriers) && pq.ordered == old(pq.ordered)
    ensures multiset(pq.queued) == multiset(old(pq.queued))
    ensures id < couriers
    ensures old(pq.ordered) ==> forall i :: 0 <= i < couriers ==>
              old(pq.couriers)[id].currentDistance <= old(pq.couriers)[i].currentDistance
    ensures |routes'| == couriers && routes' == routes[id := routes'[id]]
    ensures routes'[id] == if routes[id][|routes[id]| - 1] != center
                           then routes[id] + [center, center, point]
                           else routes[id] + [point]
    ensures pq.couriers == old(pq.couriers)[id := pq.couriers[id]]
    ensures pq.couriers[id].currentDistance - RouteDistance(routes'[id], dist)
            == old(pq.couriers)[id].currentDistance - RouteDistance(routes[id], dist)
    ensures pq.couriers[id].visitedPoints == old(pq.couriers)[id].visitedPoints +
              if routes[id][|routes[id]| - 1] == center then [point] else []
  {
    ghost var q0 := pq.queued;
    id := pq.Poll();
    ghost var polled := pq.queued;
    var courier, points := SendTo(center, point, pq.couriers[id], routes[id], dist);
    routes' := routes[id := points];
    RecordsUpdate(pq.couriers, couriers, courier);
    pq.Add(courier);
    Requeue(q0, polled, id, couriers);
  }

  /** One pass of the closing loop of calculateCourierRoutes: a route that
      ends away from the centre returns to it (and the courier, found in the
      queue by id and changed there, records the route's last stop unless it
      already holds it); a route that is still only the centre is emptied. */
  method CloseRoute(center: Point, i: nat, couriers: nat, pq: CourierQueue, routes: seq<seq<Point>>, dist: Distance)
    returns (routes': seq<seq<Point>>)
    requires pq.Valid(couriers) && i < couriers && |routes| == couriers
    requires |routes[i]| >= 1 && routes[i][0] == center
    modifies pq
    ensures pq.Valid(couriers) && pq.queued == old(pq.queued)
    ensures |routes'| == |routes| && routes' == routes[i := routes'[i]]
    ensures routes[i][|routes[i]| - 1] == center ==>
              routes'[i] == routes[i][..|routes[i]| - 1] && pq.couriers == old(pq.couriers) && pq.ordered == old(pq.ordered)
    ensures routes[i][|routes[i]| - 1] != center ==>
              && routes'[i] == routes[i] + [center]
              && !pq.ordered
              && pq.couriers == old(pq.couriers)[i := pq.couriers[i]]
              && pq.couriers[i].currentDistance - RouteDistance(routes'[i], dist)
                 == old(pq.couriers)[i].currentDistance - RouteDistance(routes[i], dist)
              && pq.couriers[i].visitedPoints ==
                   var last := routes[i][|routes[i]| - 1];
                   var before := old(pq.couriers)[i].visitedPoints;
                   if last in before then before else before + [last]
  {
    var points := routes[i];
    if points[|points| - 1] != center {
      routes' := routes;
      // The Java code walks the queue for the courier with id i; Valid
      // guarantees it is there.
      if i in pq.queued {
        var courier := pq.couriers[i];
        courier, points := AddingPointAndDistance(center, courier, points, dist);
        var point := points[|points| - 2];
        if point !in courier.visitedPoints {
          courier := courier.(visitedPoints := courier.visitedPoints + [point], countPoints := courier.countPoints + 1);
        }
        RecordsUpdate(pq.couriers, couriers, courier);
        pq.UpdateInPlace(courier);
        routes' := routes[i := points];
      }
    } else {
      routes' := routes[i := points[..|points| - 1]];
    }
  }

  /** calculateCourierRoutes: splits the points of one cluster among the
      couriers. Each point other than the centre goes to the courier the queue
      polls (AssignPoint), then every courier's route is closed at the centre
      or, if it got no point, emptied (CloseRoute). A cluster of exactly one
      point gets no courier routes. */
  method CalculateCourierRoutes(center: Point, clusterPoints: seq<Point>, couriers: nat, pq: CourierQueue, dist: Distance)
    returns (routes: seq<seq<Point>>, ghost ids: seq<nat>)
    requires couriers > 0 && pq.Valid(couriers)
    modifies pq
    ensures pq.Valid(couriers)
    ensures multiset(pq.queued) == multiset(old(pq.queued))
    ensures |clusterPoints| == 1 ==>
              routes == [] && pq.couriers == old(pq.couriers) && pq.queued == old(pq.queued) && pq.ordered == old(pq.ordered)
    ensures |clusterPoints| != 1 ==> |routes| == couriers
    ensures |clusterPoints| != 1 ==> |ids| == |clusterPoints| && AllBelow(ids, couriers)
    ensures |clusterPoints| != 1 ==> forall i :: 0 <= i < couriers ==>
              Stops(routes[i], center) == Distribute(center, couriers, clusterPoints, ids)[i]
    ensures |clusterPoints| != 1 && old(pq.ordered) ==> LeastTurns(center, old(pq.couriers), clusterPoints, ids, dist)
    ensures |clusterPoints| != 1 ==> forall i :: 0 <= i < couriers ==>
              routes[i] == StarRoute(center, Stops(routes[i], center))
    ensures |clusterPoints| != 1 ==> forall i :: 0 <= i < couriers ==>
              routes[i] == [] || (routes[i][0] == center && routes[i][|routes[i]| - 1] == center)
    ensures |clusterPoints| != 1 ==>
              multiset(Concat(StopLists(routes, center))) == multiset(Stops(clusterPoints, center))
    ensures |clusterPoints| != 1 ==> forall i :: 0 <= i < couriers ==>
              pq.couriers[i].currentDistance == old(pq.couriers)[i].currentDistance + RouteDistance(routes[i], dist)
    ensures |clusterPoints| != 1 ==> forall i :: 0 <= i < couriers ==>
              pq.couriers[i].visitedPoints == NewVisits(old(pq.couriers)[i].visitedPoints, Stops(routes[i], center))
    ensures |clusterPoints| != 1 ==>
              (pq.ordered <==> old(pq.ordered) && forall i :: 0 <= i < couriers ==> routes[i] == [])
  {
    routes, ids := [], [];
    if |clusterPoints| != 1 {
      routes, ids := RouteCluster(center, clusterPoints, couriers, pq, dist);
    }
  }

  /** calculateCourierRoutes for a cluster of other than one point. */
  method RouteCluster(center: Point, clusterPoints: seq<Point>, couriers: nat, pq: CourierQueue, dist: Distance)
    returns (routes: seq<seq<Point>>, ghost ids: seq<nat>)
    requires couriers > 0 && pq.Valid(couriers)
    modifies pq
    ensures pq.Valid(couriers)
    ensures multiset(pq.queued) == multiset(old(pq.queued))
    ensures |routes| == couriers
    ensures |ids| == |clusterPoints| && AllBelow(ids, couriers)
    ensures forall i :: 0 <= i < couriers ==> Stops(routes[i], center) == Distribute(center, couriers, clusterPoints, ids)[i]
    ensures old(pq.ordered) ==> LeastTurns(center, old(pq.couriers), clusterPoints, ids, dist)
    ensures forall i :: 0 <= i < couriers ==> routes[i] == StarRoute(center, Stops(routes[i], center))
    ensures forall i :: 0 <= i < couriers ==>
              routes[i] == [] || (routes[i][0] == center && routes[i][|routes[i]| - 1] == center)
    ensures multiset(Concat(StopLists(routes, center))) == multiset(Stops(clusterPoints, center))
    ensures forall i :: 0 <= i < couriers ==>
              pq.couriers[i].currentDistance == old(pq.couriers)[i].currentDistance + RouteDistance(routes[i], dist)
    ensures forall i :: 0 <= i < couriers ==>
              pq.couriers[i].visitedPoints == NewVisits(old(pq.couriers)[i].visitedPoints, Stops(routes[i], center))
    ensures pq.ordered <==> old(pq.ordered) && forall i :: 0 <= i < couriers ==> routes[i] == []
  {
    var start := StartRoutes(center, couriers);
    ghost var before := pq.couriers;
    ghost var stops;
    var open;
    open, stops, ids := AssignPoints(center, clusterPoints, couriers, pq, start, dist);
    ghost var middle := pq.couriers;
    routes := CloseRoutes(center, couriers, pq, open, stops, dist);
    ClusterServed(center, clusterPoints, couriers, stops, before, middle, pq.couriers, open, routes,
                  old(pq.ordered), pq.ordered, dist);
  }

  /** The routes every courier starts a cluster with: the centre alone. */
  method StartRoutes(center: Point, couriers: nat) returns (start: seq<seq<Point>>)
    ensures |start| == couriers && forall m :: 0 <= m < couriers ==> start[m] == [center]
  {
    start := [];
    for i := 0 to couriers
      invariant |start| == i && forall m :: 0 <= m < i ==> start[m] == [center]
    {
      start := start + [[center]];
    }
  }

  /** The assignment loop followed by the closing loop serve the cluster:
      every courier's route is the closed star of its stops, the stops cover
      the cluster's non-centre points, and the loads and visits grew
      accordingly. */
  lemma ClusterServed(center: Point, clusterPoints: seq<Point>, couriers: nat, stops: seq<seq<Point>>,
                      before: seq<Courier>, middle: seq<Courier>, after: seq<Courier>,
                      open: seq<seq<Point>>, routes: seq<seq<Point>>, ordered0: bool, ordered1: bool, dist: Distance)
    requires Assigned(center, couriers, before, middle, open, stops, dist)
    requires multiset(Concat(stops)) == multiset(Stops(clusterPoints, center))
    requires Closed(center, couriers, couriers, middle, after, open, routes, stops, dist)
    requires ordered1 <==> ordered0 && NoneBusy(stops, couriers)
    ensures forall i :: 0 <= i < couriers ==> Stops(routes[i], center) == stops[i]
    ensures forall i :: 0 <= i < couriers ==> routes[i] == StarRoute(center, Stops(routes[i], center))
    ensures forall i :: 0 <= i < couriers ==>
              routes[i] == [] || (routes[i][0] == center && routes[i][|routes[i]| - 1] == center)
    ensures multiset(Concat(StopLists(routes, center))) == multiset(Stops(clusterPoints, center))
    ensures forall i :: 0 <= i < couriers ==>
              after[i].currentDistance == before[i].currentDistance + RouteDistance(routes[i], dist)
    ensures forall i :: 0 <= i < couriers ==>
              after[i].visitedPoints == NewVisits(before[i].visitedPoints, Stops(routes[i], center))
    ensures ordered1 <==> ordered0 && forall i :: 0 <= i < couriers ==> routes[i] == []
  {
    StopsOfStars(center, routes, stops);
    NoneBusyAll(stops, couriers);
    forall i | 0 <= i < couriers
      ensures routes[i] == StarRoute(center, Stops(routes[i], center))
      ensures routes[i] == [] || (routes[i][0] == center && routes[i][|routes[i]| - 1] == center)
      ensures after[i].currentDistance == before[i].currentDistance + RouteDistance(routes[i], dist)
      ensures after[i].visitedPoints == NewVisits(before[i].visitedPoints, Stops(routes[i], center))
    {
      ServedCourier(center, stops[i], before[i], middle[i], after[i], open[i], routes[i], dist);
    }
  }

  /** One courier over a whole cluster: the assignment loop gave it the open
      star of its stops, the closing loop closed it; together its load grew
      by the closed route and it recorded NewVisits of its stops. */
  lemma ServedCourier(center: Point, stops: seq<Point>, before: Courier, middle: Courier, after: Courier,
                      open: seq<Point>, closed: seq<Point>, dist: Distance)
    requires open == OpenStar(center, stops) && closed == StarRoute(center, stops) && center !in stops
    requires middle.currentDistance == before.currentDistance + RouteDistance(open, dist)
    requires middle.visitedPoints == before.visitedPoints + (if stops == [] then [] else [stops[0]])
    requires after.currentDistance - RouteDistance(closed, dist) == middle.currentDistance - RouteDistance(open, dist)
    requires after.visitedPoints ==
               if stops == [] || stops[|stops| - 1] in middle.visitedPoints then middle.visitedPoints
               else middle.visitedPoints + [stops[|stops| - 1]]
    ensures closed == StarRoute(center, Stops(closed, center))
    ensures closed == [] || (closed[0] == center && closed[|closed| - 1] == center)
    ensures after.currentDistance == before.currentDistance + RouteDistance(closed, dist)
    ensures after.visitedPoints == NewVisits(before.visitedPoints, Stops(closed, center))
  {
    StarRouteShape(center, stops);
  }

  /** Closed stars give back their stops. */
  lemma StopsOfStars(center: Point, routes: seq<seq<Point>>, stops: seq<seq<Point>>)
    requires |routes| == |stops|
    requires forall m :: 0 <= m < |stops| ==> routes[m] == StarRoute(center, stops[m]) && center !in stops[m]
    ensures StopLists(routes, center) == stops
    ensures forall m :: 0 <= m < |stops| ==> Stops(routes[m], center) == stops[m]
    ensures forall m :: 0 <= m < |stops| ==> (routes[m] == [] <==> stops[m] == [])
  {
    forall m | 0 <= m < |stops|
      ensures Stops(routes[m], center) == stops[m]
      ensures routes[m] == [] <==> stops[m] == []
    {
      StarRouteShape(center, stops[m]);
    }
  }

  /** The assignment loop of calculateCourierRoutes (every route starts as
      the centre alone): afterwards each courier's route is the open star of
      the stops it was given, and the stops are the cluster's non-centre
      points, dealt as Distribute says by the couriers the queue polled,
      each a least-loaded one at its turn when the queue was in heap order.
      `stops` and `ids` are ghost bookkeeping. */
  method AssignPoints(center: Point, clusterPoints: seq<Point>, couriers: nat, pq: CourierQueue,
                      routes0: seq<seq<Point>>, dist: Distance)
    returns (routes: seq<seq<Point>>, ghost stops: seq<seq<Point>>, ghost ids: seq<nat>)
    requires couriers > 0 && pq.Valid(couriers)
    requires |routes0| == couriers && forall m :: 0 <= m < couriers ==> routes0[m] == [center]
    modifies pq
    ensures pq.Valid(couriers) && pq.ordered == old(pq.ordered)
    ensures multiset(pq.queued) == multiset(old(pq.queued))
    ensures Assigned(center, couriers, old(pq.couriers), pq.couriers, routes, stops, dist)
    ensures multiset(Concat(stops)) == multiset(Stops(clusterPoints, center))
    ensures Dealt(center, couriers, old(pq.couriers), clusterPoints, ids, stops, old(pq.ordered), dist)
  {
    routes := routes0;
    stops, ids := Distribute(center, couriers, [], []), [];
    for j := 0 to |clusterPoints|
      invariant pq.Valid(couriers) && pq.ordered == old(pq.ordered)
      invariant multiset(pq.queued) == multiset(old(pq.queued))
      invariant Assigned(center, couriers, old(pq.couriers), pq.couriers, routes, stops, dist)
      invariant Dealt(center, couriers, old(pq.couriers), clusterPoints[..j], ids, stops, old(pq.ordered), dist)
    {
      assert clusterPoints[..j + 1] == clusterPoints[..j] + [clusterPoints[j]];
      routes, stops, ids := AssignTurn(center, clusterPoints[j], couriers, pq, routes, stops, ids,
                                       old(pq.couriers), clusterPoints[..j], dist);
    }
    assert clusterPoints[..|clusterPoints|] == clusterPoints;
    DistributeCovers(center, couriers, clusterPoints, ids);
  }

  /** One turn of the assignment loop: the centre is skipped, any other point
      goes to the courier the queue polls (AssignStep); either way the turn
      is recorded in the trace, with id 0 standing in for a skipped point. */
  method AssignTurn(center: Point, point: Point, couriers: nat, pq: CourierQueue, routes: seq<seq<Point>>,
                    ghost stops: seq<seq<Point>>, ghost ids: seq<nat>, ghost before: seq<Courier>,
                    ghost points: seq<Point>, dist: Distance)
    returns (routes': seq<seq<Point>>, ghost stops': seq<seq<Point>>, ghost ids': seq<nat>)
    requires couriers > 0 && pq.Valid(couriers)
    requires Assigned(center, couriers, before, pq.couriers, routes, stops, dist)
    requires Dealt(center, couriers, before, points, ids, stops, pq.ordered, dist)
    modifies pq
    ensures pq.Valid(couriers) && pq.ordered == old(pq.ordered)
    ensures multiset(pq.queued) == multiset(old(pq.queued))
    ensures Assigned(center, couriers, before, pq.couriers, routes', stops', dist)
    ensures Dealt(center, couriers, before, points + [point], ids', stops', pq.ordered, dist)
  {
    routes', stops' := routes, stops;
    ghost var id: nat := 0;
    if point != center {
      var chosen;
      routes', stops', chosen := AssignStep(center, point, couriers, pq, routes, stops, before, dist);
      id := chosen;
    }
    DealStep(center, couriers, before, old(pq.couriers), routes, stops, points, ids, point, id, old(pq.ordered), dist);
    ids' := ids + [id];
  }

  /** The reference split of a cluster's points among `n` couriers: `ids[k]`
      names the courier point k went to (a point equal to the centre is
      skipped, whatever its entry), and each courier's stops are its points
      in cluster order. */
  function Distribute(center: Point, n: nat, points: seq<Point>, ids: seq<nat>): (r: seq<seq<Point>>)
    requires |ids| == |points| && AllBelow(ids, n)
    ensures |r| == n
    decreases |points|
  {
    if points == [] then seq(n, _ => [])
    else
      var k := |points| - 1;
      var r := Distribute(center, n, points[..k], ids[..k]);
      if points[k] == center then r else r[ids[k] := r[ids[k]] + [points[k]]]
  }

  /** Distribute deals every non-centre point to exactly one courier and
      never deals the centre. */
  lemma {:induction false} DistributeCovers(center: Point, n: nat, points: seq<Point>, ids: seq<nat>)
    requires |ids| == |points| && AllBelow(ids, n)
    ensures multiset(Concat(Distribute(center, n, points, ids))) == multiset(Stops(points, center))
    ensures forall m :: 0 <= m < n ==> center !in Distribute(center, n, points, ids)[m]
    decreases |points|
  {
    if points == [] {
      EmptyConcat(Distribute(center, n, points, ids));
    } else {
      var k := |points| - 1;
      DistributeCovers(center, n, points[..k], ids[..k]);
      var r := Distribute(center, n, points[..k], ids[..k]);
      if points[k] != center {
        ConcatAppendAt(r, ids[k], points[k]);
      }
    }
  }

  /** Courier m's load at turn j of the assignment loop: its load before the
      cluster plus the open star of the points dealt to it so far. */
  function LoadAt(center: Point, before: seq<Courier>, points: seq<Point>, ids: seq<nat>, j: nat, m: nat,
                  dist: Distance): real
    requires |ids| == |points| && AllBelow(ids, |before|) && j <= |points| && m < |before|
  {
    before[m].currentDistance + RouteDistance(OpenStar(center, Distribute(center, |before|, points[..j], ids[..j])[m]), dist)
  }

  /** Turn j dealt its point, unless it is the centre, to a courier no more
      loaded than any other at that turn. */
  predicate LeastTurn(center: Point, before: seq<Courier>, points: seq<Point>, ids: seq<nat>, j: nat, dist: Distance)
    requires |ids| == |points| && AllBelow(ids, |before|) && j < |points|
  {
    points[j] != center ==> forall m :: 0 <= m < |before| ==>
      LoadAt(center, before, points, ids, j, ids[j], dist) <= LoadAt(center, before, points, ids, j, m, dist)
  }

  /** Every turn dealt its point to a least-loaded courier. */
  predicate LeastTurns(center: Point, before: seq<Courier>, points: seq<Point>, ids: seq<nat>, dist: Distance)
    requires |ids| == |points| && AllBelow(ids, |before|)
  {
    forall j :: 0 <= j < |points| ==> LeastTurn(center, before, points, ids, j, dist)
  }

  /** The ghost trace of the assignment loop: `ids` names the courier polled
      for each point, the stops are what Distribute deals with those choices,
      and, while the queue keeps heap order, every choice was least-loaded. */
  ghost predicate Dealt(center: Point, couriers: nat, before: seq<Courier>, points: seq<Point>, ids: seq<nat>,
                        stops: seq<seq<Point>>, ordered: bool, dist: Distance)
  {
    && |before| == couriers && |ids| == |points| && AllBelow(ids, couriers)
    && stops == Distribute(center, couriers, points, ids)
    && (ordered ==> LeastTurns(center, before, points, ids, dist))
  }

  /** One more turn of the trace: a centre point changes no stops, any other
      point joins the stops of the courier polled for it, which was the
      least loaded when the queue kept heap order. */
  lemma DealStep(center: Point, couriers: nat, before: seq<Courier>, current: seq<Courier>, routes: seq<seq<Point>>,
                 stops: seq<seq<Point>>, points: seq<Point>, ids: seq<nat>, point: Point, id: nat, ordered: bool,
                 dist: Distance)
    requires Assigned(center, couriers, before, current, routes, stops, dist)
    requires Dealt(center, couriers, before, points, ids, stops, ordered, dist)
    requires id < couriers
    requires ordered && point != center ==>
               forall m :: 0 <= m < couriers ==> current[id].currentDistance <= current[m].currentDistance
    ensures Dealt(center, couriers, before, points + [point], ids + [id],
                  if point == center then stops else stops[id := stops[id] + [point]], ordered, dist)
  {
    var ps, js := points + [point], ids + [id];
    assert ps[..|points|] == points && js[..|ids|] == ids;
    if ordered {
      forall j | 0 <= j < |ps| ensures LeastTurn(center, before, ps, js, j, dist) {
        if j < |points| {
          assert ps[..j] == points[..j] && js[..j] == ids[..j] && ps[j] == points[j] && js[j] == ids[j];
          forall m | 0 <= m < couriers
            ensures LoadAt(center, before, ps, js, j, m, dist) == LoadAt(center, before, points, ids, j, m, dist)
          {
          }
          assert LeastTurn(center, before, points, ids, j, dist);
        } else {
          assert ps[..j] == points && js[..j] == ids && js[j] == id && ps[j] == point;
          forall m | 0 <= m < couriers ensures LoadAt(center, before, ps, js, j, m, dist) == current[m].currentDistance {
            assert routes[m] == OpenStar(center, stops[m]);
          }
        }
      }
    }
  }

  /** What the assignment loop keeps: every route is the open star of its
      stops, and every courier's load and visits grew by that route. */
  ghost predicate Assigned(center: Point, couriers: nat, before: seq<Courier>, after: seq<Courier>,
                           routes: seq<seq<Point>>, stops: seq<seq<Point>>, dist: Distance)
  {
    |routes| == couriers && |stops| == couriers && |before| == couriers && |after| == couriers &&
    (forall m :: 0 <= m < couriers ==> routes[m] == OpenStar(center, stops[m]) && center !in stops[m]) &&
    (forall m :: 0 <= m < couriers ==>
       after[m].currentDistance == before[m].currentDistance + RouteDistance(routes[m], dist)) &&
    (forall m :: 0 <= m < couriers ==>
       after[m].visitedPoints == before[m].visitedPoints + (if stops[m] == [] then [] else [stops[m][0]]))
  }

  /** Giving one more stop to courier `id` keeps the assignment invariant. */
  lemma AssignedUpdate(center: Point, couriers: nat, before: seq<Courier>, after: seq<Courier>,
                       routes: seq<seq<Point>>, stops: seq<seq<Point>>, id: nat, point: Point, c: Courier, dist: Distance)
    requires Assigned(center, couriers, before, after, routes, stops, dist)
    requires id < couriers && point != center
    requires c.currentDistance - RouteDistance(OpenStar(center, stops[id] + [point]), dist)
             == after[id].currentDistance - RouteDistance(routes[id], dist)
    requires c.visitedPoints == after[id].visitedPoints + (if stops[id] == [] then [point] else [])
    ensures Assigned(center, couriers, before, after[id := c], routes[id := OpenStar(center, stops[id] + [point])],
                     stops[id := stops[id] + [point]], dist)
  {
  }

  /** One turn of the assignment loop for a point other than the centre. */
  method AssignStep(center: Point, point: Point, couriers: nat, pq: CourierQueue, routes: seq<seq<Point>>,
                    ghost stops: seq<seq<Point>>, ghost before: seq<Courier>, dist: Distance)
    returns (routes': seq<seq<Point>>, ghost stops': seq<seq<Point>>, id: nat)
    requires point != center && couriers > 0 && pq.Valid(couriers)
    requires Assigned(center, couriers, before, pq.couriers, routes, stops, dist)
    modifies pq
    ensures pq.Valid(couriers) && pq.ordered == old(pq.ordered)
    ensures multiset(pq.queued) == multiset(old(pq.queued))
    ensures id < couriers && stops' == stops[id := stops[id] + [point]]
    ensures old(pq.ordered) ==> forall i :: 0 <= i < couriers ==>
              old(pq.couriers)[id].currentDistance <= old(pq.couriers)[i].currentDistance
    ensures Assigned(center, couriers, before, pq.couriers, routes', stops', dist)
    ensures multiset(Concat(stops')) == multiset(Concat(stops)) + multiset{point}
  {
    forall m | 0 <= m < couriers ensures |routes[m]| >= 1 {
      assert routes[m] == OpenStar(center, stops[m]);
    }
    ghost var after := pq.couriers;
    routes', id := AssignPoint(center, point, couriers, pq, routes, dist);
    AssignKeepsStars(center, point, stops, id);
    ConcatAppendAt(stops, id, point);
    stops' := stops[id := stops[id] + [point]];
    assert routes[id][|routes[id]| - 1] == center <==> stops[id] == [] by {
      if stops[id] != [] {
        assert stops[id][|stops[id]| - 1] in stops[id];
      }
    }
    AssignedUpdate(center, couriers, before, after, routes, stops, id, point, pq.couriers[id], dist);
  }

  /** The closing loop of calculateCourierRoutes: every open star becomes the
      closed star of the same stops. The queue's heap order is lost as soon as
      one courier is changed inside it. */
  method CloseRoutes(center: Point, couriers: nat, pq: CourierQueue, routes0: seq<seq<Point>>,
                     ghost stops: seq<seq<Point>>, dist: Distance)
    returns (routes: seq<seq<Point>>)
    requires pq.Valid(couriers) && |routes0| == couriers && |stops| == couriers
    requires forall m :: 0 <= m < couriers ==> routes0[m] == OpenStar(center, stops[m]) && center !in stops[m]
    modifies pq
    ensures pq.Valid(couriers) && pq.queued == old(pq.queued)
    ensures Closed(center, couriers, couriers, old(pq.couriers), pq.couriers, routes0, routes, stops, dist)
    ensures pq.ordered <==> old(pq.ordered) && NoneBusy(stops, couriers)
  {
    routes := routes0;
    for i := 0 to couriers
      invariant pq.Valid(couriers) && pq.queued == old(pq.queued)
      invariant Closed(center, i, couriers, old(pq.couriers), pq.couriers, routes0, routes, stops, dist)
      invariant pq.ordered <==> old(pq.ordered) && NoneBusy(stops, i)
    {
      routes := CloseStep(center, i, couriers, pq, routes, routes0, stops, old(pq.couriers), dist);
    }
  }

  /** None of the first `i` couriers got a stop. */
  ghost predicate NoneBusy(stops: seq<seq<Point>>, i: nat)
    requires i <= |stops|
  {
    i == 0 || (stops[i - 1] == [] && NoneBusy(stops, i - 1))
  }

  lemma {:induction false} NoneBusyAll(stops: seq<seq<Point>>, i: nat)
    requires i <= |stops|
    ensures NoneBusy(stops, i) <==> forall m :: 0 <= m < i ==> stops[m] == []
  {
    if i > 0 {
      NoneBusyAll(stops, i - 1);
    }
  }

  /** What the closing loop keeps after `i` turns: the first `i` routes are
      closed stars with their couriers' loads and visits updated; the others
      and their couriers are as the assignment loop left them. */
  ghost predicate Closed(center: Point, i: nat, couriers: nat, before: seq<Courier>, after: seq<Courier>,
                         routes0: seq<seq<Point>>, routes: seq<seq<Point>>, stops: seq<seq<Point>>, dist: Distance)
  {
    && i <= couriers && |before| == couriers && |after| == couriers
    && |routes0| == couriers && |routes| == couriers && |stops| == couriers
    && (forall m :: 0 <= m < i ==> routes[m] == StarRoute(center, stops[m]))
    && (forall m :: i <= m < couriers ==> routes[m] == routes0[m] && after[m] == before[m])
    && (forall m :: 0 <= m < i ==>
          after[m].currentDistance - RouteDistance(routes[m], dist)
          == before[m].currentDistance - RouteDistance(routes0[m], dist))
    && (forall m :: 0 <= m < i ==>
          after[m].visitedPoints ==
            var visited := before[m].visitedPoints;
            if stops[m] == [] || stops[m][|stops[m]| - 1] in visited then visited
            else visited + [stops[m][|stops[m]| - 1]])
  }

  /** One turn of the closing loop. */
  method CloseStep(center: Point, i: nat, couriers: nat, pq: CourierQueue, routes: seq<seq<Point>>,
                   ghost routes0: seq<seq<Point>>, ghost stops: seq<seq<Point>>, ghost before: seq<Courier>, dist: Distance)
    returns (routes': seq<seq<Point>>)
    requires i < couriers && pq.Valid(couriers)
    requires Closed(center, i, couriers, before, pq.couriers, routes0, routes, stops, dist)
    requires forall m :: 0 <= m < couriers ==> routes0[m] == OpenStar(center, stops[m]) && center !in stops[m]
    modifies pq
    ensures pq.Valid(couriers) && pq.queued == old(pq.queued)
    ensures Closed(center, i + 1, couriers, before, pq.couriers, routes0, routes', stops, dist)
    ensures pq.ordered <==> old(pq.ordered) && stops[i] == []
  {
    routes' := CloseRoute(center, i, couriers, pq, routes, dist);
    if stops[i] != [] {
      assert stops[i][|stops[i]| - 1] in stops[i];
    }
    assert routes'[i] == StarRoute(center, stops[i]);
  }

  /** The ghost bookkeeping of the assignment loop: giving `point` to courier
      `id` turns its open route into the open route of one more stop. */
  lemma AssignKeepsStars(center: Point, point: Point, stops: seq<seq<Point>>, id: nat)
    requires id < |stops| && point != center && center !in stops[id]
    ensures (if OpenStar(center, stops[id])[|OpenStar(center, stops[id])| - 1] != center
             then OpenStar(center, stops[id]) + [center, center, point]
             else OpenStar(center, stops[id]) + [point]) == OpenStar(center, stops[id] + [point])
    ensures center !in stops[id] + [point]
  {
    if stops[id] != [] {
      assert stops[id][|stops[id]| - 1] in stops[id];
      OpenStarAppend(center, stops[id], point);
    }
  }

  /** One k-means cluster as the routing sees it: its centre and its points. */
  datatype Cluster = Cluster(center: Point, points: seq<Point>)

  /** The routes optimizeRoute draws: the depot's closed tour, and for each
      cluster the courier routes calculateCourierRoutes returned for it. */
  datatype DynamicPlan = DynamicPlan(depotRoute: seq<Point>, courierRoutes: seq<seq<seq<Point>>>)

  function Centers(clusters: seq<Cluster>): (r: seq<Point>)
    ensures |r| == |clusters| && forall k :: 0 <= k < |clusters| ==> r[k] == clusters[k].center
  {
    seq(|clusters|, k requires 0 <= k < |clusters| => clusters[k].center)
  }

  /** The courier routes of one cluster: none for a single-point cluster;
      otherwise one per courier, each a star around the centre, and between
      them they visit every non-centre point of the cluster exactly as often
      as it occurs there. */
  ghost predicate ServesCluster(c: Cluster, couriers: nat, routes: seq<seq<Point>>) {
    if |c.points| == 1 then routes == []
    else
      && |routes| == couriers
      && (forall i :: 0 <= i < couriers ==> routes[i] == StarRoute(c.center, Stops(routes[i], c.center)))
      && multiset(Concat(StopLists(routes, c.center))) == multiset(Stops(c.points, c.center))
  }

  /** The routing part of optimizeRoute: the depot's tour over the cluster
      centres, closed back at `start`, then one shared queue of `couriers`
      idle couriers serving the clusters in order. When the depot's tour
      never finishes (see CalculateRoute) nothing is produced. */
  method OptimizeRoute(start: Point, clusters: seq<Cluster>, couriers: nat, dist: Distance)
    returns (r: Option<DynamicPlan>)
    requires couriers > 0
    ensures r.Some? <==> Distinct(Centers(clusters)) && start !in Centers(clusters)
    ensures r.Some? ==>
              && |r.value.depotRoute| == |clusters| + 2
              && r.value.depotRoute[0] == start && r.value.depotRoute[|clusters| + 1] == start
              && multiset(r.value.depotRoute[1..|clusters| + 1]) == multiset(Centers(clusters))
              && Greedy(Centers(clusters), r.value.depotRoute[..|clusters| + 1], dist)
    ensures r.Some? ==> |r.value.courierRoutes| == |clusters|
    ensures r.Some? ==> forall k :: 0 <= k < |clusters| ==> ServesCluster(clusters[k], couriers, r.value.courierRoutes[k])
  {
    var centers := Centers(clusters);
    var route := CalculateRoute(start, centers, dist);
    if route.None? {
      return None;
    }
    var tour := route.value;
    var depotRoute := tour + [start];
    assert depotRoute[..|clusters| + 1] == tour;
    assert depotRoute[1..|clusters| + 1] == tour[1..];
    var groups := ServeClusters(clusters, couriers, dist);
    r := Some(DynamicPlan(depotRoute, groups));
  }

  /** The cluster loop of optimizeRoute: one queue of `couriers` idle
      couriers, shared by all clusters in turn. */
  method ServeClusters(clusters: seq<Cluster>, couriers: nat, dist: Distance) returns (groups: seq<seq<seq<Point>>>)
    requires couriers > 0
    ensures |groups| == |clusters|
    ensures forall k :: 0 <= k < |clusters| ==> ServesCluster(clusters[k], couriers, groups[k])
  {
    var pq := new CourierQueue(couriers);
    groups := [];
    for k := 0 to |clusters|
      invariant pq.Valid(couriers) && |groups| == k
      invariant forall j :: 0 <= j < k ==> ServesCluster(clusters[j], couriers, groups[j])
    {
      var routes := ServeCluster(clusters[k], couriers, pq, dist);
      groups := groups + [routes];
    }
  }

  /** One turn of the cluster loop of optimizeRoute. */
  method ServeCluster(cluster: Cluster, couriers: nat, pq: CourierQueue, dist: Distance) returns (routes: seq<seq<Point>>)
    requires couriers > 0 && pq.Valid(couriers)
    modifies pq
    ensures pq.Valid(couriers)
    ensures ServesCluster(cluster, couriers, routes)
  {
    ghost var ids;
    routes, ids := CalculateCourierRoutes(cluster.center, cluster.points, couriers, pq, dist);
  }
}
