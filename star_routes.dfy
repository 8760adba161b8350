/** The shape of a dynamic-mode courier route: round trips from a cluster
    centre, one per assigned point ("star" routes). */
module StarRoutes {
  import opened Seqs
  import opened Geometry

  /** The route of a courier that has served `stops` from centre `c` and not
      yet returned: [c] alone before any stop, then [c, s0], and each later
      stop adds a return to the centre, the centre again and the stop. */
  function OpenStar(c: Point, stops: seq<Point>): (r: seq<Point>)
    ensures |r| >= 1 && r[0] == c
    ensures r[|r| - 1] == if stops == [] then c else stops[|stops| - 1]
    decreases |stops|
  {
    if stops == [] then [c]
    else if |stops| == 1 then [c, stops[0]]
    else OpenStar(c, stops[..|stops| - 1]) + [c, c, stops[|stops| - 1]]
  }

  /** The closed route: the open route and the final return to the centre;
      empty when the courier served nothing. */
  function StarRoute(c: Point, stops: seq<Point>): seq<Point>
  {
    if stops == [] then [] else OpenStar(c, stops) + [c]
  }

  /** The entries of a route that are not the centre `c`. */
  function Stops(route: seq<Point>, c: Point): seq<Point>
    decreases |route|
  {
    if route == [] then []
    else Stops(route[..|route| - 1], c) + (if route[|route| - 1] == c then [] else [route[|route| - 1]])
  }

  /** The stops of each route of a list. */
  function StopLists(routes: seq<seq<Point>>, c: Point): (r: seq<seq<Point>>)
    ensures |r| == |routes| && forall i :: 0 <= i < |routes| ==> r[i] == Stops(routes[i], c)
  {
    seq(|routes|, i requires 0 <= i < |routes| => Stops(routes[i], c))
  }

  /** Stops distributes over concatenation. */
  lemma {:induction false} StopsConcat(a: seq<Point>, b: seq<Point>, c: Point)
    ensures Stops(a + b, c) == Stops(a, c) + Stops(b, c)
    decreases |b|
  {
    if b == [] {
      assert a + b == a;
    } else {
      var b', x := b[..|b| - 1], b[|b| - 1];
      assert (a + b)[..|a + b| - 1] == a + b';
      StopsConcat(a, b', c);
    }
  }

  /** Serving one more stop extends the open route by the return leg, the
      centre again and the new stop. */
  lemma OpenStarAppend(c: Point, stops: seq<Point>, p: Point)
    requires stops != []
    ensures OpenStar(c, stops + [p]) == OpenStar(c, stops) + [c, c, p]
  {
    assert (stops + [p])[..|stops|] == stops;
  }

  /** Leaving out the centre recovers exactly the stops served, in order. */
  lemma {:induction false} StopsOfOpenStar(c: Point, stops: seq<Point>)
    requires c !in stops
    ensures Stops(OpenStar(c, stops), c) == stops
    decreases |stops|
  {
    if stops == [] {
      assert Stops([c], c) == Stops([], c);
    } else if |stops| == 1 {
      assert [c, stops[0]][..1] == [c];
      assert Stops([c], c) == Stops([], c);
    } else {
      var init, p := stops[..|stops| - 1], stops[|stops| - 1];
      assert stops == init + [p];
      StopsOfOpenStar(c, init);
      StopsConcat(OpenStar(c, init), [c, c, p], c);
      assert [c, c, p][..2] == [c, c];
      assert [c, c][..1] == [c];
      assert Stops([c], c) == Stops([], c);
    }
  }

  /** The closed route starts and ends at the centre, is three points per
      stop long, and its non-centre entries are exactly the stops. */
  lemma StarRouteShape(c: Point, stops: seq<Point>)
    requires c !in stops
    ensures stops != [] ==> |StarRoute(c, stops)| == 3 * |stops|
    ensures stops != [] ==> StarRoute(c, stops)[0] == c && StarRoute(c, stops)[|StarRoute(c, stops)| - 1] == c
    ensures Stops(StarRoute(c, stops), c) == stops
  {
    if stops != [] {
      OpenStarLength(c, stops);
      StopsOfOpenStar(c, stops);
      StopsConcat(OpenStar(c, stops), [c], c);
      assert Stops([c], c) == Stops([], c);
    }
  }

  /** An open route is 3k - 1 points long after k stops. */
  lemma {:induction false} OpenStarLength(c: Point, stops: seq<Point>)
    requires stops != []
    ensures |OpenStar(c, stops)| == 3 * |stops| - 1
    decreases |stops|
  {
    if |stops| > 1 {
      OpenStarLength(c, stops[..|stops| - 1]);
    }
  }
}
