/** The static mode's route building and scoring (StaticModelService): orders
    are checked against the delivery limit, sorted largest first, packed onto
    the least-loaded courier under a capacity ceiling, each courier's pickup
    points are toured by a greedy nearest-neighbour pass from the depot, and
    the plan is scored by expenses and by the time of its slowest courier. */
module StaticModelService {
  import opened Wrappers
  import opened Seqs
  import opened Geometry
  import opened Couriers

  /** An order (model/Order.java): its id, its volume and, once linked, the
      pickup point it is collected from. */
  datatype Order = Order(id: int, volume: real, pickupPoint: Option<Point>)

  /** The fields of the request's parameters that the static mode reads. */
  datatype Parameters = Parameters(
    maxCountCouriers: nat,
    maxCourierCarCapacity: real,
    maxDeliveryCapacity: real,
    fuelRateCourierCar: real,
    fuelCost: real,
    driverSalary: real,
    courierCarRate: real,
    mobStorageSpeed: real,
    orderProcessingTime: real,
    maxTime: real)

  /** Why optimizeCourierRoutes produces no plan: no depot point in the
      request, fewer pickup points than orders, an order over the delivery
      limit, orders but no courier to poll, or the slowest courier over the
      deadline. */
  datatype StaticError = NoStartPoint | MissingPickupPoint | VolumeOverLimit | NoCourier | DeadlineMissed

  /** The result the static mode publishes. */
  datatype StaticPlan = StaticPlan(courierRoutes: seq<seq<Point>>, totalExpenses: real, totalTime: real)

  // ---------------------------------------------------------------------
  // Linking and validation

  /** Every order has its pickup point. */
  predicate Linked(orders: seq<Order>) {
    forall i :: 0 <= i < |orders| ==> orders[i].pickupPoint.Some?
  }

  /** The pickup points of linked orders, in order. */
  function Pickups(orders: seq<Order>): (r: seq<Point>)
    requires Linked(orders)
    ensures |r| == |orders| && forall i :: 0 <= i < |orders| ==> r[i] == orders[i].pickupPoint.value
  {
    seq(|orders|, i requires 0 <= i < |orders| => orders[i].pickupPoint.value)
  }

  /** The i-th order gets the i-th pickup point. */
  function WithPickups(orders: seq<Order>, points: seq<Point>): (r: seq<Order>)
    requires |orders| <= |points|
    ensures |r| == |orders| && Linked(r)
  {
    seq(|orders|, i requires 0 <= i < |orders| => orders[i].(pickupPoint := Some(points[i])))
  }

  /** The order linking loop of optimizeCourierRoutes: each order in turn
      takes the next pickup point; running out of points is an error. */
  method LinkOrders(orders: seq<Order>, points: seq<Point>) returns (r: Option<seq<Order>>)
    ensures r.Some? <==> |orders| <= |points|
    ensures r.Some? ==> |r.value| == |orders| && Linked(r.value)
    ensures r.Some? ==> forall i :: 0 <= i < |orders| ==>
              r.value[i].pickupPoint == Some(points[i]) &&
              r.value[i].id == orders[i].id && r.value[i].volume == orders[i].volume
  {
    var linked: seq<Order> := [];
    for i := 0 to |orders|
      invariant |linked| == i && i <= |points|
      invariant forall k :: 0 <= k < i ==> linked[k] == orders[k].(pickupPoint := Some(points[k]))
    {
      if i >= |points| {
        return None;
      }
      linked := linked + [orders[i].(pickupPoint := Some(points[i]))];
    }
    return Some(linked);
  }

  /** isEqualOrLessThanMaxDeliveryCapacity: no order is larger than the
      delivery limit. */
  function IsEqualOrLessThanMaxDeliveryCapacity(orders: seq<Order>, params: Parameters): (r: bool)
    ensures r <==> forall i :: 0 <= i < |orders| ==> orders[i].volume <= params.maxDeliveryCapacity
    decreases |orders|
  {
    if orders == [] then true
    else if orders[0].volume > params.maxDeliveryCapacity then false
    else IsEqualOrLessThanMaxDeliveryCapacity(orders[1..], params)
  }

  // ---------------------------------------------------------------------
  // Sorting (the List.sort call with a descending volume comparator)

  /** Volumes do not increase along the list. */
  predicate SortedByVolume(orders: seq<Order>) {
    forall i, j :: 0 <= i < j < |orders| ==> orders[i].volume >= orders[j].volume
  }

  /** Puts `o` in front of the first order that is not larger than it. */
  function InsertByVolume(o: Order, sorted: seq<Order>): (r: seq<Order>)
    requires SortedByVolume(sorted)
    ensures SortedByVolume(r)
    ensures multiset(r) == multiset(sorted) + multiset{o}
    ensures |r| == |sorted| + 1 && (r[0] == o || (sorted != [] && r[0] == sorted[0]))
    decreases |sorted|
  {
    if sorted == [] || o.volume >= sorted[0].volume then
      SortedCons(o, sorted);
      [o] + sorted
    else
      assert sorted == [sorted[0]] + sorted[1..];
      SortedTail(sorted);
      var rest := InsertByVolume(o, sorted[1..]);
      assert rest[0] == o || rest[0] == sorted[1];
      SortedCons(sorted[0], rest);
      [sorted[0]] + rest
  }

  /** The tail of a sorted list is sorted, and no larger than its head. */
  lemma SortedTail(sorted: seq<Order>)
    requires SortedByVolume(sorted) && sorted != []
    ensures SortedByVolume(sorted[1..])
    ensures forall k :: 1 <= k < |sorted| ==> sorted[0].volume >= sorted[k].volume
  {
    forall i, j | 0 <= i < j < |sorted[1..]| ensures sorted[1..][i].volume >= sorted[1..][j].volume {
      assert sorted[1..][i] == sorted[i + 1] && sorted[1..][j] == sorted[j + 1];
    }
  }

  /** An order no smaller than the head of a sorted list can go in front. */
  lemma SortedCons(o: Order, sorted: seq<Order>)
    requires SortedByVolume(sorted)
    requires sorted == [] || o.volume >= sorted[0].volume
    ensures SortedByVolume([o] + sorted)
  {
    forall i, j | 0 <= i < j < |[o] + sorted|
      ensures ([o] + sorted)[i].volume >= ([o] + sorted)[j].volume
    {
      if i == 0 && j > 1 {
        assert sorted[0].volume >= sorted[j - 1].volume;
      }
    }
  }

  /** The orders, largest volume first. */
  function SortByVolume(orders: seq<Order>): (r: seq<Order>)
    ensures |r| == |orders|
    ensures SortedByVolume(r)
    ensures multiset(r) == multiset(orders)
    decreases |orders|
  {
    if orders == [] then []
    else
      assert orders == [orders[0]] + orders[1..];
      InsertByVolume(orders[0], SortByVolume(orders[1..]))
  }

  // ---------------------------------------------------------------------
  // Packing

  /** The total volume of some orders. */
  function SumVolumes(orders: seq<Order>): real
    decreases |orders|
  {
    if orders == [] then 0.0 else SumVolumes(orders[..|orders| - 1]) + orders[|orders| - 1].volume
  }

  /** assignOrdersToCouriers: the polled courier (one of least load) takes the
      order if its load plus the order's volume stays within the capacity;
      then it is queued again. A rejected order changes nothing and is not
      offered to any other courier. */
  method AssignOrdersToCouriers(maxCourierCapacity: real, pq: CourierQueue, routes: seq<seq<Point>>, order: Order,
                                ghost n: nat)
    returns (routes': seq<seq<Point>>, id: nat)
    requires n > 0 && pq.Valid(n) && pq.ordered && |routes| == n && order.pickupPoint.Some?
    modifies pq
    ensures pq.Valid(n) && pq.ordered
    ensures multiset(pq.queued) == multiset(old(pq.queued))
    ensures id < n && forall i :: 0 <= i < n ==>
              old(pq.couriers)[id].currentDistance <= old(pq.couriers)[i].currentDistance
    ensures var c := old(pq.couriers)[id];
            var p := order.pickupPoint.value;
            if c.currentDistance + order.volume <= maxCourierCapacity then
              && routes' == routes[id := routes[id] + [p]]
              && pq.couriers == old(pq.couriers)[id := Courier(id, c.currentDistance + order.volume,
                                                               |c.visitedPoints| + 1, c.visitedPoints + [p])]
            else
              routes' == routes && pq.couriers == old(pq.couriers)
  {
    ghost var q0 := pq.queued;
    id := pq.Poll();
    ghost var polled := pq.queued;
    var courier := pq.couriers[id];
    routes' := routes;
    if courier.currentDistance + order.volume <= maxCourierCapacity {
      var point := order.pickupPoint.value;
      routes' := routes[id := routes[id] + [point]];
      var visited := courier.visitedPoints + [point];
      courier := courier.(currentDistance := courier.currentDistance + order.volume,
                          visitedPoints := visited, countPoints := |visited|);
    }
    RecordsUpdate(pq.couriers, n, courier);
    pq.Add(courier);
    Requeue(q0, polled, id, n);
  }

  /** What the packing loop keeps: courier i's route is the pickup points of
      the orders it took, its load is their total volume and never above the
      capacity once it took one, and it counts exactly the points it visited. */
  ghost predicate Packed(capacity: real, n: nat, couriers: seq<Courier>, routes: seq<seq<Point>>, taken: seq<seq<Order>>) {
    && |couriers| == n && |routes| == n && |taken| == n
    && (forall i :: 0 <= i < n ==> Linked(taken[i]) && routes[i] == Pickups(taken[i]))
    && (forall i :: 0 <= i < n ==>
          couriers[i] == Courier(i, SumVolumes(taken[i]), |taken[i]|, Pickups(taken[i])))
    && (forall i :: 0 <= i < n ==> taken[i] != [] ==> SumVolumes(taken[i]) <= capacity)
  }

  /** An accepted order extends its courier's share and keeps Packed. */
  lemma {:induction false} PackStep(capacity: real, n: nat, couriers: seq<Courier>, routes: seq<seq<Point>>, taken: seq<seq<Order>>,
                 id: nat, order: Order)
    requires Packed(capacity, n, couriers, routes, taken) && id < n && order.pickupPoint.Some?
    requires couriers[id].currentDistance + order.volume <= capacity
    ensures var c := couriers[id];
            var p := order.pickupPoint.value;
            Packed(capacity, n,
                   couriers[id := Courier(id, c.currentDistance + order.volume, |c.visitedPoints| + 1, c.visitedPoints + [p])],
                   routes[id := routes[id] + [p]],
                   taken[id := taken[id] + [order]])
  {
    var t := taken[id] + [order];
    assert t[..|t| - 1] == taken[id];
    assert Pickups(t) == Pickups(taken[id]) + [order.pickupPoint.value];
  }

  /** Fresh couriers with empty routes have taken nothing. */
  lemma PackedInitially(capacity: real, n: nat, couriers: seq<Courier>, routes: seq<seq<Point>>)
    requires |couriers| == n && |routes| == n
    requires forall i :: 0 <= i < n ==> routes[i] == [] && couriers[i] == NewCourier(i)
    ensures Packed(capacity, n, couriers, routes, seq(n, _ => []))
    ensures Concat(seq<seq<Order>>(n, _ => [])) == []
  {
    var taken: seq<seq<Order>> := seq(n, _ => []);
    forall i | 0 <= i < n ensures Linked(taken[i]) && Pickups(taken[i]) == [] && SumVolumes(taken[i]) == 0.0 {
      assert taken[i] == [];
    }
    EmptyConcat(taken);
  }

  /** The assignment loop of splitRouteForCouriers over freshly initialised
      couriers. `taken` (the orders each courier accepted) and `dropped` (the
      orders rejected) are ghost bookkeeping. */
  method PackOrders(maxCourierCapacity: real, pq: CourierQueue, routes0: seq<seq<Point>>, orders: seq<Order>, ghost n: nat)
    returns (routes: seq<seq<Point>>, ghost taken: seq<seq<Order>>, ghost dropped: seq<Order>, ghost ids: seq<nat>)
    requires n > 0 || orders == []
    requires pq.Valid(n) && pq.ordered && Linked(orders)
    requires |routes0| == n && forall i :: 0 <= i < n ==> routes0[i] == [] && pq.couriers[i] == NewCourier(i)
    modifies pq
    ensures pq.Valid(n) && pq.ordered && multiset(pq.queued) == multiset(old(pq.queued))
    ensures Packed(maxCourierCapacity, n, pq.couriers, routes, taken)
    ensures multiset(Concat(taken)) + multiset(dropped) == multiset(orders)
    ensures |ids| == |orders| && AllBelow(ids, n)
    ensures Packing(taken, dropped) == Pack(maxCourierCapacity, n, orders, ids)
    ensures LeastChoices(maxCourierCapacity, n, orders, ids)
  {
    routes := routes0;
    PackedInitially(maxCourierCapacity, n, pq.couriers, routes);
    taken := seq(n, _ => []);
    dropped := [];
    ids := [];
    assert Packing(taken, dropped) == Pack(maxCourierCapacity, n, orders[..0], ids);
    for j := 0 to |orders|
      invariant pq.Valid(n) && pq.ordered && multiset(pq.queued) == multiset(old(pq.queued))
      invariant Packed(maxCourierCapacity, n, pq.couriers, routes, taken)
      invariant Traced(maxCourierCapacity, n, orders[..j], ids, taken, dropped)
    {
      assert orders[..j + 1] == orders[..j] + [orders[j]];
      routes, taken, dropped, ids := PackOne(maxCourierCapacity, pq, routes, orders[j], taken, dropped, orders[..j], ids, n);
    }
    assert orders[..|orders|] == orders;
    PackAccounts(maxCourierCapacity, n, orders, ids);
  }

  /** initializeCouriers followed by the assignment loop: `n` fresh couriers
      in a new queue, each with an empty route, take the orders in turn. */
  method InitializeAndPack(maxCourierCapacity: real, orders: seq<Order>, n: nat)
    returns (routes: seq<seq<Point>>, ghost taken: seq<seq<Order>>, ghost dropped: seq<Order>, ghost ids: seq<nat>)
    requires n > 0 || orders == []
    requires Linked(orders)
    ensures |routes| == n && |taken| == n
    ensures forall i :: 0 <= i < n ==> Linked(taken[i]) && routes[i] == Pickups(taken[i])
    ensures forall i :: 0 <= i < n ==> taken[i] != [] ==> SumVolumes(taken[i]) <= maxCourierCapacity
    ensures multiset(Concat(taken)) + multiset(dropped) == multiset(orders)
    ensures |ids| == |orders| && AllBelow(ids, n)
    ensures Packing(taken, dropped) == Pack(maxCourierCapacity, n, orders, ids)
    ensures LeastChoices(maxCourierCapacity, n, orders, ids)
  {
    var pq := new CourierQueue(n);
    var empty: seq<seq<Point>> := [];
    for i := 0 to n
      invariant |empty| == i && forall m :: 0 <= m < i ==> empty[m] == []
    {
      empty := empty + [[]];
    }
    routes, taken, dropped, ids := PackOrders(maxCourierCapacity, pq, empty, orders, n);
  }

  /** One turn of the assignment loop: the order goes to the polled courier's
      share or to the dropped orders. */
  method PackOne(maxCourierCapacity: real, pq: CourierQueue, routes: seq<seq<Point>>, order: Order,
                 ghost taken: seq<seq<Order>>, ghost dropped: seq<Order>, ghost done: seq<Order>, ghost ids: seq<nat>,
                 ghost n: nat)
    returns (routes': seq<seq<Point>>, ghost taken': seq<seq<Order>>, ghost dropped': seq<Order>, ghost ids': seq<nat>)
    requires n > 0 && pq.Valid(n) && pq.ordered && order.pickupPoint.Some?
    requires Packed(maxCourierCapacity, n, pq.couriers, routes, taken)
    requires Traced(maxCourierCapacity, n, done, ids, taken, dropped)
    modifies pq
    ensures pq.Valid(n) && pq.ordered && multiset(pq.queued) == multiset(old(pq.queued))
    ensures Packed(maxCourierCapacity, n, pq.couriers, routes', taken')
    ensures Traced(maxCourierCapacity, n, done + [order], ids', taken', dropped')
  {
    ghost var before := pq.couriers;
    var id;
    routes', id := AssignOrdersToCouriers(maxCourierCapacity, pq, routes, order, n);
    taken', dropped' := PackTurn(maxCourierCapacity, n, before, pq.couriers, routes, routes', taken, dropped, id, order,
                                 done, ids);
    ids' := ids + [id];
  }

  /** The bookkeeping of one turn: an order the polled courier accepted joins
      its share, a rejected one joins the dropped orders. */
  lemma PackTurn(capacity: real, n: nat, before: seq<Courier>, after: seq<Courier>, routes: seq<seq<Point>>,
                 routes': seq<seq<Point>>, taken: seq<seq<Order>>, dropped: seq<Order>, id: nat, order: Order,
                 done: seq<Order>, ids: seq<nat>)
    returns (taken': seq<seq<Order>>, dropped': seq<Order>)
    requires Packed(capacity, n, before, routes, taken) && id < n && order.pickupPoint.Some?
    requires Traced(capacity, n, done, ids, taken, dropped)
    requires forall i :: 0 <= i < n ==> before[id].currentDistance <= before[i].currentDistance
    requires var c := before[id];
             var p := order.pickupPoint.value;
             if c.currentDistance + order.volume <= capacity then
               && routes' == routes[id := routes[id] + [p]]
               && after == before[id := Courier(id, c.currentDistance + order.volume,
                                                |c.visitedPoints| + 1, c.visitedPoints + [p])]
             else
               routes' == routes && after == before
    ensures Packed(capacity, n, after, routes', taken')
    ensures Traced(capacity, n, done + [order], ids + [id], taken', dropped')
  {
    if before[id].currentDistance + order.volume <= capacity {
      PackStep(capacity, n, before, routes, taken, id, order);
      taken', dropped' := taken[id := taken[id] + [order]], dropped;
    } else {
      taken', dropped' := taken, dropped + [order];
    }
    PackAppend(capacity, n, done, ids, order, id);
    LeastChoicesAppend(capacity, n, done, ids, order, id);
  }

  /** The packing a run of assignOrdersToCouriers produces when the orders
      `taken` by each courier and the `dropped` ones are recorded. */
  datatype Packing = Packing(taken: seq<seq<Order>>, dropped: seq<Order>)

  /** The packing of `orders`, offered in turn, order j to courier ids[j]:
      an order joins that courier's share when the courier's load (the volume
      it took so far) plus the order's volume stays within the capacity, and
      is dropped otherwise, without being offered to anybody else. */
  function Pack(capacity: real, n: nat, orders: seq<Order>, ids: seq<nat>): (r: Packing)
    requires |ids| == |orders| && AllBelow(ids, n)
    ensures |r.taken| == n
    decreases |orders|
  {
    if orders == [] then Packing(seq(n, _ => []), [])
    else
      var k := |orders| - 1;
      var p := Pack(capacity, n, orders[..k], ids[..k]);
      if SumVolumes(p.taken[ids[k]]) + orders[k].volume <= capacity
      then Packing(p.taken[ids[k] := p.taken[ids[k]] + [orders[k]]], p.dropped)
      else Packing(p.taken, p.dropped + [orders[k]])
  }

  /** `taken` and `dropped` are the packing of `done` with the least-loaded
      choices `ids`. */
  ghost predicate Traced(capacity: real, n: nat, done: seq<Order>, ids: seq<nat>, taken: seq<seq<Order>>,
                         dropped: seq<Order>)
  {
    && |ids| == |done| && AllBelow(ids, n)
    && Packing(taken, dropped) == Pack(capacity, n, done, ids)
    && LeastChoices(capacity, n, done, ids)
  }

  /** When order j was offered, courier ids[j] had the least load of all. */
  predicate LeastAt(capacity: real, n: nat, orders: seq<Order>, ids: seq<nat>, j: nat)
    requires |ids| == |orders| && AllBelow(ids, n) && j < |orders|
  {
    var p := Pack(capacity, n, orders[..j], ids[..j]);
    forall i :: 0 <= i < n ==> SumVolumes(p.taken[ids[j]]) <= SumVolumes(p.taken[i])
  }

  /** Every order was offered to a least-loaded courier: the poll of a queue
      ordered by load. */
  predicate LeastChoices(capacity: real, n: nat, orders: seq<Order>, ids: seq<nat>)
    requires |ids| == |orders| && AllBelow(ids, n)
  {
    forall j :: 0 <= j < |orders| ==> LeastAt(capacity, n, orders, ids, j)
  }

  /** Packing one more order extends the packing by that order's turn. */
  lemma PackAppend(capacity: real, n: nat, orders: seq<Order>, ids: seq<nat>, o: Order, id: nat)
    requires |ids| == |orders| && AllBelow(ids, n) && id < n
    ensures AllBelow(ids + [id], n)
    ensures var p := Pack(capacity, n, orders, ids);
            Pack(capacity, n, orders + [o], ids + [id]) ==
              if SumVolumes(p.taken[id]) + o.volume <= capacity
              then Packing(p.taken[id := p.taken[id] + [o]], p.dropped)
              else Packing(p.taken, p.dropped + [o])
  {
    assert (orders + [o])[..|orders|] == orders;
    assert (ids + [id])[..|ids|] == ids;
  }

  /** Offering one more order to a least-loaded courier keeps every choice
      a least-loaded one. */
  lemma LeastChoicesAppend(capacity: real, n: nat, orders: seq<Order>, ids: seq<nat>, o: Order, id: nat)
    requires |ids| == |orders| && AllBelow(ids, n) && id < n
    requires LeastChoices(capacity, n, orders, ids)
    requires forall i :: 0 <= i < n ==>
               SumVolumes(Pack(capacity, n, orders, ids).taken[id]) <= SumVolumes(Pack(capacity, n, orders, ids).taken[i])
    ensures AllBelow(ids + [id], n)
    ensures LeastChoices(capacity, n, orders + [o], ids + [id])
  {
    var os, js := orders + [o], ids + [id];
    forall j | 0 <= j < |os| ensures LeastAt(capacity, n, os, js, j) {
      if j < |orders| {
        assert os[..j] == orders[..j] && js[..j] == ids[..j];
        assert LeastAt(capacity, n, orders, ids, j);
      } else {
        assert os[..j] == orders && js[..j] == ids;
      }
    }
  }

  /** Every order of a packing is taken by exactly one courier or dropped. */
  lemma {:induction false} PackAccounts(capacity: real, n: nat, orders: seq<Order>, ids: seq<nat>)
    requires |ids| == |orders| && AllBelow(ids, n)
    ensures var p := Pack(capacity, n, orders, ids);
            multiset(Concat(p.taken)) + multiset(p.dropped) == multiset(orders)
    decreases |orders|
  {
    if orders == [] {
      EmptyConcat(Pack(capacity, n, orders, ids).taken);
    } else {
      var k := |orders| - 1;
      var o := orders[k];
      PackAccounts(capacity, n, orders[..k], ids[..k]);
      var p := Pack(capacity, n, orders[..k], ids[..k]);
      assert orders == orders[..k] + [o];
      assert multiset(orders) == multiset(orders[..k]) + multiset{o};
      var r := Pack(capacity, n, orders, ids);
      if SumVolumes(p.taken[ids[k]]) + o.volume <= capacity {
        ConcatAppendAt(p.taken, ids[k], o);
        assert r.taken == p.taken[ids[k] := p.taken[ids[k]] + [o]] && r.dropped == p.dropped;
      } else {
        assert r.taken == p.taken && multiset(r.dropped) == multiset(p.dropped) + multiset{o};
      }
    }
  }

  /** No courier's share of a packing exceeds the capacity. */
  lemma {:induction false} PackWithinCapacity(capacity: real, n: nat, orders: seq<Order>, ids: seq<nat>)
    requires |ids| == |orders| && AllBelow(ids, n)
    ensures WithinCapacity(capacity, Pack(capacity, n, orders, ids).taken)
    decreases |orders|
  {
    if orders != [] {
      var k := |orders| - 1;
      PackWithinCapacity(capacity, n, orders[..k], ids[..k]);
      var p := Pack(capacity, n, orders[..k], ids[..k]);
      var id := ids[k];
      if SumVolumes(p.taken[id]) + orders[k].volume <= capacity {
        var t := p.taken[id] + [orders[k]];
        assert t[..|t| - 1] == p.taken[id];
        assert SumVolumes(t) == SumVolumes(p.taken[id]) + orders[k].volume;
      }
    }
  }

  /** No courier's share is heavier than the capacity once it took an order. */
  predicate WithinCapacity(capacity: real, taken: seq<seq<Order>>) {
    forall i :: 0 <= i < |taken| && taken[i] != [] ==> SumVolumes(taken[i]) <= capacity
  }


  /** splitRouteForCouriers: sorts the orders largest first, packs them onto
      `maxCountCouriers` fresh couriers, then wraps every non-empty courier
      route in the depot point and reorders it with solveTSP. Empty routes
      stay empty. */
  method SplitRouteForCouriers(startPoint: Point, orders: seq<Order>, params: Parameters, dist: Distance)
    returns (courierRoutes: seq<seq<Point>>, ghost taken: seq<seq<Order>>, ghost dropped: seq<Order>,
             ghost ids: seq<nat>)
    requires params.maxCountCouriers > 0 || orders == []
    requires Linked(orders)
    ensures |courierRoutes| == params.maxCountCouriers
    ensures forall i :: 0 <= i < |courierRoutes| ==>
              (courierRoutes[i] == [] ||
               (courierRoutes[i][0] == startPoint && courierRoutes[i][|courierRoutes[i]| - 1] == startPoint))
    ensures Shares(startPoint, orders, params.maxCourierCarCapacity, params.maxCountCouriers, courierRoutes, taken, dropped,
                   ids, dist)
  {
    var n := params.maxCountCouriers;
    var sorted := SortByVolume(orders);
    PermutationLinked(orders, sorted);
    var routes;
    routes, taken, dropped, ids := InitializeAndPack(params.maxCourierCarCapacity, sorted, n);
    courierRoutes := SolveCourierTours(startPoint, routes, taken, dist);
    ToursAtDepot(startPoint, orders, params.maxCourierCarCapacity, n, courierRoutes, taken, dropped, ids, dist);
  }

  /** Every courier tour solveTSP produces leaves from and returns to the
      depot. */
  lemma ToursAtDepot(startPoint: Point, orders: seq<Order>, capacity: real, n: nat, routes: seq<seq<Point>>,
                     taken: seq<seq<Order>>, dropped: seq<Order>, ids: seq<nat>, dist: Distance)
    requires Shares(startPoint, orders, capacity, n, routes, taken, dropped, ids, dist)
    ensures forall i :: 0 <= i < |routes| ==>
              (routes[i] == [] || (routes[i][0] == startPoint && routes[i][|routes[i]| - 1] == startPoint))
  {
    forall i | 0 <= i < |routes|
      ensures routes[i] == [] || (routes[i][0] == startPoint && routes[i][|routes[i]| - 1] == startPoint)
    {
      if taken[i] != [] {
        var tour := [startPoint] + Pickups(taken[i]) + [startPoint];
        assert tour[0] == startPoint;
      }
    }
  }

  /** What splitRouteForCouriers produces, with `taken` the orders each
      courier accepted and `dropped` the orders rejected: one route per
      courier, empty when it took nothing and otherwise solveTSP's tour from
      the depot through its pickup points; every courier within the capacity;
      every order either taken by exactly one courier or dropped. */
  ghost predicate Shares(startPoint: Point, orders: seq<Order>, capacity: real, n: nat, routes: seq<seq<Point>>,
                         taken: seq<seq<Order>>, dropped: seq<Order>, ids: seq<nat>, dist: Distance)
  {
    && |ids| == |orders| && AllBelow(ids, n)
    && Packing(taken, dropped) == Pack(capacity, n, SortByVolume(orders), ids)
    && LeastChoices(capacity, n, SortByVolume(orders), ids)
    && |routes| == n && |taken| == n
    && (forall i :: 0 <= i < n ==> Linked(taken[i]))
    && (forall i :: 0 <= i < n ==>
          routes[i] == if taken[i] == [] then [] else TspTour([startPoint] + Pickups(taken[i]) + [startPoint], dist))
    && (forall i :: 0 <= i < n ==> taken[i] != [] ==> SumVolumes(taken[i]) <= capacity)
    && multiset(Concat(taken)) + multiset(dropped) == multiset(orders)
  }

  /** Reordering orders keeps every one linked to a pickup point. */
  lemma PermutationLinked(orders: seq<Order>, sorted: seq<Order>)
    requires Linked(orders) && multiset(sorted) == multiset(orders)
    ensures Linked(sorted)
  {
    forall k | 0 <= k < |sorted| ensures sorted[k].pickupPoint.Some? {
      assert sorted[k] in multiset(orders);
    }
  }

  /** The closing loop of splitRouteForCouriers: every non-empty route is
      wrapped in the depot point and reordered by solveTSP. */
  method SolveCourierTours(startPoint: Point, routes: seq<seq<Point>>, ghost taken: seq<seq<Order>>, dist: Distance)
    returns (courierRoutes: seq<seq<Point>>)
    requires |taken| == |routes|
    requires forall i :: 0 <= i < |routes| ==> Linked(taken[i]) && routes[i] == Pickups(taken[i])
    ensures |courierRoutes| == |routes|
    ensures forall i :: 0 <= i < |routes| ==>
              courierRoutes[i] == if taken[i] == [] then [] else TspTour([startPoint] + Pickups(taken[i]) + [startPoint], dist)
  {
    courierRoutes := routes;
    for i := 0 to |routes|
      invariant |courierRoutes| == |routes|
      invariant forall m :: 0 <= m < i ==> courierRoutes[m] == DepotTour(startPoint, routes[m], dist)
      invariant forall m :: i <= m < |routes| ==> courierRoutes[m] == routes[m]
    {
      var tour := TourFor(startPoint, courierRoutes[i], dist);
      courierRoutes := courierRoutes[i := tour];
    }
    ToursOfShares(startPoint, routes, courierRoutes, taken, dist);
  }

  /** The route a courier ends up with: none when it took nothing, otherwise
      solveTSP's tour from the depot through its pickup points and back. */
  function DepotTour(startPoint: Point, route: seq<Point>, dist: Distance): seq<Point>
  {
    if route == [] then [] else TspTour([startPoint] + route + [startPoint], dist)
  }

  /** One pass of the closing loop of splitRouteForCouriers. */
  method TourFor(startPoint: Point, route: seq<Point>, dist: Distance) returns (tour: seq<Point>)
    ensures tour == DepotTour(startPoint, route, dist)
  {
    tour := route;
    if route != [] {
      tour := [startPoint] + route + [startPoint];
      tour := SolveTSP(tour, dist);
    }
  }

  /** The tours of the pickup routes are the tours of the couriers' shares. */
  lemma ToursOfShares(startPoint: Point, routes: seq<seq<Point>>, tours: seq<seq<Point>>, taken: seq<seq<Order>>,
                      dist: Distance)
    requires |taken| == |routes| && |tours| == |routes|
    requires forall i :: 0 <= i < |routes| ==> Linked(taken[i]) && routes[i] == Pickups(taken[i])
    requires forall i :: 0 <= i < |routes| ==> tours[i] == DepotTour(startPoint, routes[i], dist)
    ensures forall i :: 0 <= i < |routes| ==>
              tours[i] == if taken[i] == [] then [] else TspTour([startPoint] + Pickups(taken[i]) + [startPoint], dist)
  {
    forall i | 0 <= i < |routes|
      ensures tours[i] == if taken[i] == [] then [] else TspTour([startPoint] + Pickups(taken[i]) + [startPoint], dist)
    {
      assert |routes[i]| == |taken[i]|;
    }
  }

  // ---------------------------------------------------------------------
  // Tours

  /** findNearestPoint: the first point of least distance from `from`, none
      for an empty list. */
  function FindNearestPoint(from: Point, points: seq<Point>, dist: Distance): (r: Option<Point>)
    ensures r.None? <==> points == []
    ensures r.Some? ==> r.value in points
    ensures r.Some? ==> forall q :: q in points ==> dist(from, r.value) <= dist(from, q)
    ensures r.Some? ==> exists k :: 0 <= k < |points| && points[k] == r.value &&
                          forall j :: 0 <= j < k ==> dist(from, r.value) < dist(from, points[j])
  {
    match FindNearest(from, points, {}, dist)
    case None => None
    case Some(k) => Some(points[k])
  }

  /** The greedy order in which solveTSP takes the points in `remaining`,
      starting from `from`: each time the nearest one, which is then removed
      (its first occurrence). */
  function GreedyTour(from: Point, remaining: seq<Point>, dist: Distance): (r: seq<Point>)
    ensures |r| == |remaining|
    decreases |remaining|
  {
    if remaining == [] then []
    else
      var p := FindNearestPoint(from, remaining, dist).value;
      [p] + GreedyTour(p, RemoveFirst(remaining, p), dist)
  }

  /** A greedy tour takes every remaining point exactly once. */
  lemma {:induction false} GreedyTourPermutation(from: Point, remaining: seq<Point>, dist: Distance)
    ensures multiset(GreedyTour(from, remaining, dist)) == multiset(remaining)
    decreases |remaining|
  {
    if remaining != [] {
      var p := FindNearestPoint(from, remaining, dist).value;
      GreedyTourPermutation(p, RemoveFirst(remaining, p), dist);
    }
  }

  /** The tour solveTSP returns for `points`. */
  function TspTour(points: seq<Point>, dist: Distance): (r: seq<Point>)
    requires |points| >= 1
    ensures |r| == |points| + 1 && r[0] == points[0] && r[|r| - 1] == points[0]
    ensures multiset(r[1..|r| - 1]) == multiset(points[1..])
  {
    var r := [points[0]] + GreedyTour(points[0], points[1..], dist) + [points[0]];
    assert r[1..|r| - 1] == GreedyTour(points[0], points[1..], dist);
    GreedyTourPermutation(points[0], points[1..], dist);
    r
  }

  /** solveTSP: keeps the first point, then repeatedly appends the point
      nearest to the last one appended and removes it from the rest, and
      finally returns to the first point. */
  method SolveTSP(points: seq<Point>, dist: Distance) returns (tspRoute: seq<Point>)
    requires |points| >= 1
    ensures tspRoute == TspTour(points, dist)
  {
    tspRoute := [points[0]];
    var rest := points[1..];
    while rest != []
      invariant |tspRoute| >= 1 && tspRoute[0] == points[0]
      invariant tspRoute + GreedyTour(tspRoute[|tspRoute| - 1], rest, dist)
                == [points[0]] + GreedyTour(points[0], points[1..], dist)
      decreases |rest|
    {
      var lastPoint := tspRoute[|tspRoute| - 1];
      var nearestPoint := FindNearestPoint(lastPoint, rest, dist).value;
      TourStep(tspRoute, rest, dist);
      tspRoute := tspRoute + [nearestPoint];
      rest := RemoveFirst(rest, nearestPoint);
    }
    tspRoute := tspRoute + [tspRoute[0]];
  }

  /** One step of solveTSP moves the next point of the greedy tour from the
      rest onto the route. */
  lemma {:induction false} TourStep(route: seq<Point>, rest: seq<Point>, dist: Distance)
    requires |route| >= 1 && rest != []
    ensures var p := FindNearestPoint(route[|route| - 1], rest, dist).value;
            (route + [p]) + GreedyTour(p, RemoveFirst(rest, p), dist)
            == route + GreedyTour(route[|route| - 1], rest, dist)
  {
    var p := FindNearestPoint(route[|route| - 1], rest, dist).value;
    var tail := GreedyTour(p, RemoveFirst(rest, p), dist);
    calc {
      route + GreedyTour(route[|route| - 1], rest, dist);
      route + ([p] + tail);
      (route + [p]) + tail;
    }
  }

  /** Point k of `tour` is, among the points of `remaining` it has not
      taken yet, one of least distance from the point before it (`from` for
      the first point). */
  ghost predicate NearestAt(from: Point, remaining: seq<Point>, tour: seq<Point>, k: nat, dist: Distance)
    requires k < |tour|
  {
    var prev := if k == 0 then from else tour[k - 1];
    forall q :: q in multiset(remaining) - multiset(tour[..k]) ==> dist(prev, tour[k]) <= dist(prev, q)
  }

  /** Each point of a greedy tour is, among the points not yet taken, one of
      least distance from the point before it. */
  lemma {:induction false} GreedyTourNearest(from: Point, remaining: seq<Point>, dist: Distance, k: nat)
    requires k < |remaining|
    ensures NearestAt(from, remaining, GreedyTour(from, remaining, dist), k, dist)
    decreases |remaining|
  {
    var tour := GreedyTour(from, remaining, dist);
    var p := FindNearestPoint(from, remaining, dist).value;
    var rest := RemoveFirst(remaining, p);
    var tail := GreedyTour(p, rest, dist);
    assert tour == [p] + tail;
    if k == 0 {
      NearestAtFirst(from, remaining, p, tail, dist);
    } else {
      GreedyTourNearest(p, rest, dist, k - 1);
      NearestAtShift(from, p, remaining, rest, tail, k, dist);
    }
  }

  lemma {:induction false} NearestAtFirst(from: Point, remaining: seq<Point>, p: Point, tail: seq<Point>, dist: Distance)
    requires forall q :: q in remaining ==> dist(from, p) <= dist(from, q)
    ensures NearestAt(from, remaining, [p] + tail, 0, dist)
  {
    var tour := [p] + tail;
    assert tour[..0] == [];
    forall q | q in multiset(remaining) - multiset(tour[..0]) ensures dist(from, tour[0]) <= dist(from, q) {
      assert q in remaining;
    }
  }

  lemma {:induction false} NearestAtShift(from: Point, p: Point, remaining: seq<Point>, rest: seq<Point>,
                                          tail: seq<Point>, k: nat, dist: Distance)
    requires 1 <= k <= |tail|
    requires multiset(rest) == multiset(remaining) - multiset{p}
    requires NearestAt(p, rest, tail, k - 1, dist)
    ensures NearestAt(from, remaining, [p] + tail, k, dist)
  {
    var tour := [p] + tail;
    assert tour[k] == tail[k - 1] && tour[k - 1] == if k - 1 == 0 then p else tail[k - 2];
    assert tour[..k] == [p] + tail[..k - 1];
    assert (multiset(remaining) - multiset{p}) - multiset(tail[..k - 1])
        == multiset(remaining) - (multiset{p} + multiset(tail[..k - 1]));
  }



  /** The route a courier gets in the static mode: since solveTSP leaves the
      closing depot point among the candidates, and the depot is at distance
      zero from itself, the tour goes from the depot to the depot first,
      unless a pickup point lies at the depot itself. */
  lemma {:induction false} DepotVisitedTwice(start: Point, pickups: seq<Point>, dist: Distance)
    requires IsDistance(dist)
    requires forall q :: q in pickups ==> dist(start, q) > 0.0
    ensures TspTour([start] + pickups + [start], dist) == [start, start] + GreedyTour(start, pickups, dist) + [start]
  {
    var points := [start] + pickups + [start];
    assert points[1..] == pickups + [start];
    NearestToDepotIsDepot(start, pickups, dist);
    assert dist(start, start) == 0.0;
    assert start !in pickups;
    RemoveFirstOfLast(pickups, start);
    var g := GreedyTour(start, pickups, dist);
    assert GreedyTour(start, pickups + [start], dist) == [start] + g;
    DoubledStart(start, g);
  }

  /** Regrouping the depot entries of a tour. Kept as a lemma of its own:
      stated inline, the sequence equation makes the proof above far more
      expensive. */
  lemma DoubledStart(start: Point, g: seq<Point>)
    ensures [start] + ([start] + g) + [start] == [start, start] + g + [start]
  {
  }

  /** From the depot, the depot itself is the nearest remaining point when
      it is the only one at distance zero. */
  lemma {:induction false} NearestToDepotIsDepot(start: Point, pickups: seq<Point>, dist: Distance)
    requires IsDistance(dist)
    requires forall q :: q in pickups ==> dist(start, q) > 0.0
    ensures FindNearestPoint(start, pickups + [start], dist) == Some(start)
  {
    var rest := pickups + [start];
    var p := FindNearestPoint(start, rest, dist).value;
    assert dist(start, rest[|pickups|]) == 0.0;
    var k :| 0 <= k < |rest| && rest[k] == p && forall j :: 0 <= j < k ==> dist(start, p) < dist(start, rest[j]);
    assert dist(start, p) <= 0.0;
    assert forall j :: 0 <= j < |pickups| ==> rest[j] == pickups[j];
    assert k == |pickups|;
  }



  // ---------------------------------------------------------------------
  // Scoring

  /** getTotalCourierRouteDistance: sums the distances of consecutive points. */
  method GetTotalCourierRouteDistance(route: seq<Point>, dist: Distance) returns (totalDistance: real)
    ensures totalDistance == RouteDistance(route, dist)
  {
    totalDistance := 0.0;
    var i := 0;
    while i < |route| - 1
      invariant i == 0 || i < |route|
      invariant totalDistance == RouteDistance(route[..if i < |route| then i + 1 else i], dist)
    {
      RouteDistanceAppend(route[..i + 1], route[i + 1], dist);
      assert route[..i + 2] == route[..i + 1] + [route[i + 1]];
      totalDistance := totalDistance + dist(route[i], route[i + 1]);
      i := i + 1;
    }
    assert route[..if i < |route| then i + 1 else i] == route;
  }

  /** The distance all couriers travel together. */
  function TotalDistance(routes: seq<seq<Point>>, dist: Distance): real
    decreases |routes|
  {
    if routes == [] then 0.0
    else TotalDistance(routes[..|routes| - 1], dist) + RouteDistance(routes[|routes| - 1], dist)
  }

  /** No plan travels a negative distance. */
  lemma {:induction false} TotalDistanceNonNegative(routes: seq<seq<Point>>, dist: Distance)
    requires IsDistance(dist)
    ensures TotalDistance(routes, dist) >= 0.0
    decreases |routes|
  {
    if routes != [] {
      TotalDistanceNonNegative(routes[..|routes| - 1], dist);
      RouteDistanceNonNegative(routes[|routes| - 1], dist);
    }
  }

  /** Math.round(x * 100) / 100: to the nearest cent, halves rounding up. */
  function RoundCents(x: real): (r: real)
    ensures x - 0.005 < r <= x + 0.005
    ensures (r * 100.0).Floor as real == r * 100.0
  {
    ((x * 100.0 + 0.5).Floor as real) / 100.0
  }

  /** Rounding to cents never reverses an order. */
  lemma {:induction false} RoundCentsMonotone(x: real, y: real)
    requires x <= y
    ensures RoundCents(x) <= RoundCents(y)
  {
    var a, b := x * 100.0 + 0.5, y * 100.0 + 0.5;
    assert a <= b;
    assert a.Floor as real <= a < b.Floor as real + 1.0;
    assert a.Floor <= b.Floor;
  }

  /** A whole number of cents is already rounded. */
  lemma {:induction false} RoundCentsIdempotent(x: real)
    ensures RoundCents(RoundCents(x)) == RoundCents(x)
  {
    var r := RoundCents(x);
    var m := (r * 100.0).Floor;
    assert r * 100.0 == m as real;
    assert (r * 100.0 + 0.5).Floor == m;
  }

  /** The cost formula calculateTotalExpenses rounds: fuel for the distance
      all couriers travel, plus the drivers' salaries and the car rate. With a
      non-negative fuel price it never falls below that fixed part. */
  function ExpensesFormula(routes: seq<seq<Point>>, params: Parameters, dist: Distance): (r: real)
    ensures IsDistance(dist) && params.fuelRateCourierCar * params.fuelCost >= 0.0 ==>
              r >= params.driverSalary * params.maxCountCouriers as real + params.courierCarRate
  {
    var k := params.fuelRateCourierCar * params.fuelCost;
    var d := TotalDistance(routes, dist);
    assert IsDistance(dist) && k >= 0.0 ==> k * d >= 0.0 by {
      if IsDistance(dist) && k >= 0.0 {
        TotalDistanceNonNegative(routes, dist);
      }
    }
    k * d + params.driverSalary * params.maxCountCouriers as real + params.courierCarRate
  }

  /** calculateTotalExpenses: the cost formula rounded to cents. */
  function CalculateTotalExpenses(routes: seq<seq<Point>>, params: Parameters, dist: Distance): (r: real)
    ensures ExpensesFormula(routes, params, dist) - 0.005 < r <= ExpensesFormula(routes, params, dist) + 0.005
    ensures (r * 100.0).Floor as real == r * 100.0
  {
    RoundCents(ExpensesFormula(routes, params, dist))
  }

  /** With a non-negative fuel price per unit of distance, a plan that travels
      further never costs less. */
  lemma {:induction false} ExpensesMonotone(a: seq<seq<Point>>, b: seq<seq<Point>>, params: Parameters, dist: Distance)
    requires params.fuelRateCourierCar * params.fuelCost >= 0.0
    requires TotalDistance(a, dist) <= TotalDistance(b, dist)
    ensures CalculateTotalExpenses(a, params, dist) <= CalculateTotalExpenses(b, params, dist)
  {
    var k := params.fuelRateCourierCar * params.fuelCost;
    var da, db := TotalDistance(a, dist), TotalDistance(b, dist);
    assert k * db - k * da == k * (db - da);
    RoundCentsMonotone(ExpensesFormula(a, params, dist), ExpensesFormula(b, params, dist));
  }



  /** The time a courier needs for a route of `distance` through `stops`
      points: travel at the mobile depot's speed plus the processing time of
      every point. */
  function CourierTime(distance: real, stops: nat, params: Parameters): (r: real)
    requires params.mobStorageSpeed != 0.0
    ensures params.mobStorageSpeed > 0.0 && distance >= 0.0 && params.orderProcessingTime >= 0.0 ==>
              r >= stops as real * params.orderProcessingTime && r >= distance / params.mobStorageSpeed
  {
    distance / params.mobStorageSpeed + stops as real * params.orderProcessingTime
  }

  /** The time of one courier route: every entry of the route counts as a
      processed point, so it is never less than their processing time. */
  function RouteTime(route: seq<Point>, params: Parameters, dist: Distance): (r: real)
    requires params.mobStorageSpeed != 0.0
    ensures IsDistance(dist) && params.mobStorageSpeed > 0.0 && params.orderProcessingTime >= 0.0 ==>
              r >= |route| as real * params.orderProcessingTime
  {
    assert IsDistance(dist) ==> RouteDistance(route, dist) >= 0.0 by {
      if IsDistance(dist) {
        RouteDistanceNonNegative(route, dist);
      }
    }
    CourierTime(RouteDistance(route, dist), |route|, params)
  }

  /** The time of the slowest courier, and 0 when it is faster than nothing
      (or there is no courier). */
  function MaxRouteTime(routes: seq<seq<Point>>, params: Parameters, dist: Distance): (r: real)
    requires params.mobStorageSpeed != 0.0 || routes == []
    ensures r >= 0.0
    ensures forall k :: 0 <= k < |routes| ==> RouteTime(routes[k], params, dist) <= r
    ensures r == 0.0 || exists k :: 0 <= k < |routes| && r == RouteTime(routes[k], params, dist)
    decreases |routes|
  {
    if routes == [] then 0.0
    else
      var m := MaxRouteTime(routes[..|routes| - 1], params, dist);
      var t := RouteTime(routes[|routes| - 1], params, dist);
      if m >= t then m else t
  }

  /** The slowest of one more route. */
  lemma MaxRouteTimeStep(routes: seq<seq<Point>>, i: nat, params: Parameters, dist: Distance)
    requires i < |routes| && params.mobStorageSpeed != 0.0
    ensures var m, t := MaxRouteTime(routes[..i], params, dist), RouteTime(routes[i], params, dist);
            MaxRouteTime(routes[..i + 1], params, dist) == if m >= t then m else t
  {
    assert routes[..i + 1][..i] == routes[..i];
  }

  /** calculateTotalTime: the running maximum of the route times, from 0. */
  method CalculateTotalTime(courierRoutes: seq<seq<Point>>, params: Parameters, dist: Distance)
    returns (maxCourierTime: real)
    requires params.mobStorageSpeed != 0.0 || courierRoutes == []
    ensures maxCourierTime == MaxRouteTime(courierRoutes, params, dist)
  {
    maxCourierTime := 0.0;
    for i := 0 to |courierRoutes|
      invariant maxCourierTime == MaxRouteTime(courierRoutes[..i], params, dist)
    {
      var route := courierRoutes[i];
      var travel := GetTotalCourierRouteDistance(route, dist);
      var courierTime := CourierTime(travel, |route|, params);
      MaxRouteTimeStep(courierRoutes, i, params, dist);
      if maxCourierTime < courierTime {
        maxCourierTime := courierTime;
      }
    }
    assert courierRoutes[..|courierRoutes|] == courierRoutes;
  }

  // ---------------------------------------------------------------------
  // The request flow

  /** The routing and decision part of optimizeCourierRoutes. `points` are
      the request's points (the depot first, then the pickup points);
      `orders` are the parsed orders. An exception of the source is an Err
      here. With a mobile-depot speed of 0 every route's time is NaN or
      infinite, which the deadline comparison rejects. The ghost outputs
      expose the routes and each courier's orders. */
  method OptimizeCourierRoutes(points: seq<Point>, params: Parameters, orders: seq<Order>, dist: Distance)
    returns (r: Result<StaticPlan, StaticError>, ghost routes: seq<seq<Point>>,
             ghost taken: seq<seq<Order>>, ghost dropped: seq<Order>, ghost ids: seq<nat>)
    ensures r == Err(NoStartPoint) <==> points == []
    ensures r == Err(MissingPickupPoint) <==> points != [] && |orders| >= |points|
    ensures r == Err(VolumeOverLimit) <==>
              points != [] && |orders| < |points| &&
              exists i :: 0 <= i < |orders| && orders[i].volume > params.maxDeliveryCapacity
    ensures r == Err(NoCourier) <==>
              points != [] && |orders| < |points| &&
              (forall i :: 0 <= i < |orders| ==> orders[i].volume <= params.maxDeliveryCapacity) &&
              params.maxCountCouriers == 0 && orders != []
    ensures r.Ok? || r == Err(DeadlineMissed) ==>
              |orders| < |points| &&
              Shares(points[0], WithPickups(orders, points[1..]), params.maxCourierCarCapacity, params.maxCountCouriers,
                     routes, taken, dropped, ids, dist)
    ensures r.Ok? ==> Accepted(r.value, routes, params, dist)
    ensures r == Err(DeadlineMissed) ==> Late(routes, params, dist)
  {
    routes, taken, dropped, ids := [], [], [], [];
    var checked := ValidateOrders(points, params, orders);
    if checked.Err? {
      return Err(checked.error), routes, taken, dropped, ids;
    }
    r, routes, taken, dropped, ids := PlanRoutes(points[0], checked.value, params, dist);
  }

  /** The plan optimizeCourierRoutes returns: the routes, their expenses and
      the time of the slowest courier, which meets the deadline. */
  ghost predicate Accepted(plan: StaticPlan, routes: seq<seq<Point>>, params: Parameters, dist: Distance) {
    && plan.courierRoutes == routes
    && plan.totalExpenses == CalculateTotalExpenses(routes, params, dist)
    && (params.mobStorageSpeed != 0.0 || routes == [])
    && plan.totalTime == MaxRouteTime(routes, params, dist)
    && plan.totalTime <= params.maxTime
  }

  /** Routes that miss the deadline: the slowest courier needs more than the
      allowed time, or the depot does not move at all. */
  ghost predicate Late(routes: seq<seq<Point>>, params: Parameters, dist: Distance) {
    (params.mobStorageSpeed == 0.0 && routes != []) ||
    ((params.mobStorageSpeed != 0.0 || routes == []) && MaxRouteTime(routes, params, dist) > params.maxTime)
  }

  /** The checks optimizeCourierRoutes makes before routing: a depot point,
      a pickup point for every order, every order's volume within the
      delivery capacity, and a courier to poll. */
  method ValidateOrders(points: seq<Point>, params: Parameters, orders: seq<Order>)
    returns (r: Result<seq<Order>, StaticError>)
    ensures r == Err(NoStartPoint) <==> points == []
    ensures r == Err(MissingPickupPoint) <==> points != [] && |orders| >= |points|
    ensures r == Err(VolumeOverLimit) <==>
              points != [] && |orders| < |points| &&
              exists i :: 0 <= i < |orders| && orders[i].volume > params.maxDeliveryCapacity
    ensures r == Err(NoCourier) <==>
              points != [] && |orders| < |points| &&
              (forall i :: 0 <= i < |orders| ==> orders[i].volume <= params.maxDeliveryCapacity) &&
              params.maxCountCouriers == 0 && orders != []
    ensures r.Err? ==> r.error != DeadlineMissed
    ensures r.Ok? ==> |orders| < |points| && r.value == WithPickups(orders, points[1..])
    ensures r.Ok? ==> params.maxCountCouriers > 0 || orders == []
  {
    if points == [] {
      return Err(NoStartPoint);
    }
    var pickupPoints := points[1..];
    var linked := LinkOrders(orders, pickupPoints);
    if linked.None? {
      return Err(MissingPickupPoint);
    }
    var withPoints := linked.value;
    assert withPoints == WithPickups(orders, pickupPoints);
    if !IsEqualOrLessThanMaxDeliveryCapacity(withPoints, params) {
      var i :| 0 <= i < |withPoints| && withPoints[i].volume > params.maxDeliveryCapacity;
      assert orders[i].volume == withPoints[i].volume;
      return Err(VolumeOverLimit);
    }
    if params.maxCountCouriers == 0 && orders != [] {
      // The first poll of the empty queue yields null.
      return Err(NoCourier);
    }
    r := Ok(withPoints);
  }

  /** The routing and the deadline decision of optimizeCourierRoutes for
      validated orders. */
  method PlanRoutes(startPoint: Point, orders: seq<Order>, params: Parameters, dist: Distance)
    returns (r: Result<StaticPlan, StaticError>, ghost routes: seq<seq<Point>>,
             ghost taken: seq<seq<Order>>, ghost dropped: seq<Order>, ghost ids: seq<nat>)
    requires params.maxCountCouriers > 0 || orders == []
    requires Linked(orders)
    ensures r.Ok? || r == Err(DeadlineMissed)
    ensures Shares(startPoint, orders, params.maxCourierCarCapacity, params.maxCountCouriers, routes, taken, dropped, ids, dist)
    ensures r.Ok? ==> Accepted(r.value, routes, params, dist)
    ensures r == Err(DeadlineMissed) ==> Late(routes, params, dist)
  {
    var courierRoutes;
    courierRoutes, taken, dropped, ids := SplitRouteForCouriers(startPoint, orders, params, dist);
    routes := courierRoutes;
    var totalExpenses := CalculateTotalExpenses(courierRoutes, params, dist);
    if params.mobStorageSpeed == 0.0 && courierRoutes != [] {
      return Err(DeadlineMissed), routes, taken, dropped, ids;
    }
    var totalTime := CalculateTotalTime(courierRoutes, params, dist);
    if totalTime <= params.maxTime {
      r := Ok(StaticPlan(courierRoutes, totalExpenses, totalTime));
    } else {
      r := Err(DeadlineMissed);
    }
  }
}
