# Route building of the logistics service, modelled in Dafny

The logistics back end plans deliveries in two modes.

- **Dynamic mode** (`OptimizationService`). The pickup points are clustered.
  A mobile depot tours the cluster centres by a nearest-neighbour rule, starting
  from and returning to its start point. Inside each cluster, a pool of couriers
  shares the points. A priority queue keyed on the distance each courier has
  travelled decides who gets the next point. Each courier makes round trips from
  the centre: it goes out to a point, comes back, goes out to the next point.
- **Static mode** (`StaticModelService`). Orders are linked to pickup points and
  checked against the delivery limit. Then:
  - they are sorted largest first;
  - they are packed onto the least-loaded courier under a capacity ceiling;
  - each courier's pickup points are put in order by a greedy nearest-neighbour
    pass from the depot;
  - the plan is scored by its expenses and by the time of its slowest courier;
  - a plan over the deadline is rejected.

The model follows the Java code step by step.

- The methods that change things in place are Dafny methods. They carry loop
  invariants and are proved against specification functions.
- The priority queue both modes use is the class `Couriers.CourierQueue`.
  - `couriers` holds the courier records, indexed by id.
  - `queued` holds the ids the queue currently contains.
  - `ordered` records whether the heap order is still intact.
- The dynamic mode changes couriers' loads while they sit inside the queue
  (`OptimizationService.java:243-250`). After that, `poll` is no longer
  guaranteed to return a least-loaded courier. The model sets `ordered` to
  false there, and from then on `Poll` may return any queued courier.
- Distances are an abstract parameter `dist`. Where a property needs it, `dist`
  is assumed non-negative and zero from a point to itself (`Geometry.IsDistance`).
  Numbers are exact reals.

Observations the proofs make explicit:

- **Depot tour termination.** `calculateRoute` ends only when the cluster
  centres are pairwise distinct and differ from the start point. Otherwise its
  loop spins forever. The model returns `None` exactly then
  (`OptimizationService.CalculateRoute`).
- **solveTSP visits the depot twice.** `solveTSP` leaves the closing depot point
  among the candidates, and the depot is at distance 0 from itself. So every
  static courier tour begins depot, depot, unless a pickup point lies at the
  depot (`StaticModelService.DepotVisitedTwice`). Such a tour holds the depot
  three times: depot, depot, the pickups, depot. `calculateTotalTime` charges
  processing time for every entry of the route (`courierRoute.size()`,
  `StaticModelService.java:264`), so all three depot entries count as
  processed points.
- **Time formula.** The static mode's time divides a courier's distance by the
  mobile depot's speed (`getMOB_STORAGE_SPEED`), not by a courier speed. The
  model follows the code.
- **Cost formula.** The static mode's cost is
  fuel rate × fuel cost × total distance + driver salary × courier count +
  courier car rate, rounded to cents. The model follows the code.
- **Zero depot speed.** A speed of 0 makes every route time NaN or infinite.
  The deadline test then fails. The model rejects such a plan with
  `DeadlineMissed`.

## Model

| member | source | states |
|---|---|---|
| Couriers.NewCourier | src/main/java/ru/ivanova/diplom/logistics/service/OptimizationService.java:108 | a fresh courier has the given id, no load, no count and nothing visited |
| Couriers.CourierQueue.constructor | src/main/java/ru/ivanova/diplom/logistics/service/OptimizationService.java:103-109 | `count` couriers, ids 0..count-1, no load and nothing visited, every id queued exactly once, heap order intact |
| Couriers.CourierQueue.Poll | src/main/java/ru/ivanova/diplom/logistics/service/OptimizationService.java:221 | removes exactly one queued id. While the heap order is intact, that courier's load is at most every queued courier's load. The courier records are unchanged |
| Couriers.CourierQueue.Add | src/main/java/ru/ivanova/diplom/logistics/service/OptimizationService.java:237 | the courier is written back under its id and its id is queued again |
| Couriers.CourierQueue.UpdateInPlace | src/main/java/ru/ivanova/diplom/logistics/service/OptimizationService.java:243-250 | a courier changed inside the queue: its record is replaced, the queue is unchanged, and the heap order is no longer guaranteed |
| Couriers.LeastLoaded | src/main/java/ru/ivanova/diplom/logistics/service/OptimizationService.java:104 | every non-empty queue has a position whose courier has the least load (what the comparator on currentDistance orders by) |
| Couriers.Requeue | src/main/java/ru/ivanova/diplom/logistics/service/OptimizationService.java:221-237 | a poll followed by an add gives back the same ids, each once |
| Couriers.SameIdsHoldAll | src/main/java/ru/ivanova/diplom/logistics/service/StaticModelService.java:154-163 | a queue with the same ids as a full queue of n couriers holds every id 0..n-1 once |
| Couriers.RecordsUpdate | src/main/java/ru/ivanova/diplom/logistics/service/OptimizationService.java:233-234 | writing back a courier whose count matches its visited points keeps all records consistent (ids and countPoints == visitedPoints.size()) |
| Seqs.RemoveFirst | src/main/java/ru/ivanova/diplom/logistics/service/StaticModelService.java:182 | removing a point that occurs drops exactly one occurrence of it; removing one that does not changes nothing |
| Seqs.RemoveFirstDropsFirst | src/main/java/ru/ivanova/diplom/logistics/service/StaticModelService.java:182 | the occurrence removed is the first one, and the points before and after it keep their order, as `List.remove(Object)` does |
| Seqs.FirstIndex | src/main/java/ru/ivanova/diplom/logistics/service/StaticModelService.java:182 | the position found holds the point, and no earlier position does |
| Geometry.RouteDistanceAppend | src/main/java/ru/ivanova/diplom/logistics/service/OptimizationService.java:278-280 | appending a point lengthens a route by exactly the new leg |
| Geometry.RouteDistanceNonNegative | src/main/java/ru/ivanova/diplom/logistics/service/StaticModelService.java:271-277 | no route has negative length under a non-negative distance |
| Geometry.FindNearest | src/main/java/ru/ivanova/diplom/logistics/service/OptimizationService.java:186-194 | the scan finds nothing iff every point is visited. Otherwise it returns an unvisited point of least distance, strictly nearer than every earlier unvisited point, so ties go to the first |
| Geometry.NearestUnvisited | src/main/java/ru/ivanova/diplom/logistics/service/OptimizationService.java:183-196 | the scan finds nothing iff every point is visited. Otherwise it returns a point of the list that is not visited |
| StarRoutes.OpenStar | src/main/java/ru/ivanova/diplom/logistics/service/OptimizationService.java:212-236 | a courier route under construction starts at the centre and ends at its last stop, or at the centre if it has none |
| StarRoutes.StopsConcat | src/main/java/ru/ivanova/diplom/logistics/service/OptimizationService.java:219-220 | the non-centre entries of two joined routes are those of each, in order |
| StarRoutes.OpenStarAppend | src/main/java/ru/ivanova/diplom/logistics/service/OptimizationService.java:229-236 | a courier away from the centre that gets a new point goes back to the centre, appends the centre a second time, then goes out to the point |
| StarRoutes.StopsOfOpenStar | src/main/java/ru/ivanova/diplom/logistics/service/OptimizationService.java:218-236 | leaving out the centre recovers exactly the points assigned, in order |
| StarRoutes.StarRouteShape | src/main/java/ru/ivanova/diplom/logistics/service/OptimizationService.java:240-257 | a closed route starts and ends at the centre, has three entries per stop, and its non-centre entries are its stops |
| StarRoutes.OpenStarLength | src/main/java/ru/ivanova/diplom/logistics/service/OptimizationService.java:229-236 | after k stops an open route has 3k-1 entries |
| OptimizationService.CalculateRoute | src/main/java/ru/ivanova/diplom/logistics/service/OptimizationService.java:174-204 | the tour ends iff the centres are pairwise distinct and differ from the start. It then starts at the start point, repeats nothing, has length centres + 1, its tail is a permutation of the centres, and every step is a nearest-unvisited step |
| OptimizationService.ScanNearest | src/main/java/ru/ivanova/diplom/logistics/service/OptimizationService.java:183-194 | the running-minimum scan with strict `<` finds the first nearest unvisited centre, or none |
| OptimizationService.ExtendPartialTour | src/main/java/ru/ivanova/diplom/logistics/service/OptimizationService.java:196-200 | adding the nearest unvisited point keeps the tour repetition-free and greedy, and grows the visited set by one |
| OptimizationService.GreedyStep | src/main/java/ru/ivanova/diplom/logistics/service/OptimizationService.java:186-199 | every earlier step stays a nearest-neighbour step when the tour grows |
| OptimizationService.ExtendTour | src/main/java/ru/ivanova/diplom/logistics/service/OptimizationService.java:197-198 | a point not yet on the tour adds one to the visited set |
| OptimizationService.NoProgressMeansRepetition | src/main/java/ru/ivanova/diplom/logistics/service/OptimizationService.java:182-200 | if every centre is visited but fewer than centres + 1 points are, the centres repeat or contain the start (the loop cannot exit) |
| OptimizationService.FullTourIsPermutation | src/main/java/ru/ivanova/diplom/logistics/service/OptimizationService.java:182-203 | a finished tour visits each centre exactly once, and the centres are distinct and avoid the start |
| OptimizationService.AddingPointAndDistance | src/main/java/ru/ivanova/diplom/logistics/service/OptimizationService.java:271-281 | appends exactly the point, and raises the courier's load by exactly the distance from the previous last point (load minus route length is unchanged) |
| OptimizationService.SendTo | src/main/java/ru/ivanova/diplom/logistics/service/OptimizationService.java:229-236 | a courier away from the centre returns and is sent out again (centre, centre, point). A courier at the centre records the point as visited. In both cases load minus route length is unchanged |
| OptimizationService.AssignPoint | src/main/java/ru/ivanova/diplom/logistics/service/OptimizationService.java:221-237 | the polled courier, least-loaded while the heap order holds, gets the point. Only its route and record change. The queue keeps its ids |
| OptimizationService.CloseRoute | src/main/java/ru/ivanova/diplom/logistics/service/OptimizationService.java:241-257 | a route left at a point returns to the centre, and the courier records that point once. This changes it inside the queue, so the heap order is lost. A route that is only the centre is emptied |
| OptimizationService.AssignStep | src/main/java/ru/ivanova/diplom/logistics/service/OptimizationService.java:218-237 | one assignment gives the point to the polled courier `id`: its stops gain the point and nothing else changes. Every route stays the open star of its stops. While the heap order holds, `id`'s load before the turn is at most every courier's |
| OptimizationService.AssignedUpdate | src/main/java/ru/ivanova/diplom/logistics/service/OptimizationService.java:229-236 | giving one more stop to a courier keeps the assignment invariant (routes are open stars, loads grew by their length, the first stop recorded) |
| OptimizationService.AssignKeepsStars | src/main/java/ru/ivanova/diplom/logistics/service/OptimizationService.java:229-236 | the route extension of one assignment is the open star of one more stop |
| OptimizationService.AssignPoints | src/main/java/ru/ivanova/diplom/logistics/service/OptimizationService.java:218-238 | after the assignment loop, the stops are exactly the cluster's non-centre points (as a multiset), and are what Distribute deals with the polled couriers `ids`. While the heap order holds, every point went to a courier whose load at its turn (load before the cluster plus its route so far) was least. The queue keeps its ids and order state |
| OptimizationService.StartRoutes | src/main/java/ru/ivanova/diplom/logistics/service/OptimizationService.java:212-215 | one route per courier, each the cluster centre alone |
| OptimizationService.AssignTurn | src/main/java/ru/ivanova/diplom/logistics/service/OptimizationService.java:218-237 | one turn of the assignment loop skips the centre and otherwise assigns the point. Either way the trace gains the turn and the stops stay what Distribute deals, each choice least-loaded while the heap order holds |
| OptimizationService.DistributeCovers | src/main/java/ru/ivanova/diplom/logistics/service/OptimizationService.java:218-237 | the reference split deals every non-centre point to exactly one courier (as a multiset) and never deals the centre |
| OptimizationService.DealStep | src/main/java/ru/ivanova/diplom/logistics/service/OptimizationService.java:218-237 | a turn that polls a least-loaded courier extends the trace: the new point joins that courier's stops, and every earlier least-loaded choice stays one |
| OptimizationService.CloseStep | src/main/java/ru/ivanova/diplom/logistics/service/OptimizationService.java:240-258 | one closing turn closes route i and keeps the others |
| OptimizationService.CloseRoutes | src/main/java/ru/ivanova/diplom/logistics/service/OptimizationService.java:240-258 | every route becomes the closed star of its stops. The heap order survives iff no courier got a stop |
| OptimizationService.NoneBusyAll | src/main/java/ru/ivanova/diplom/logistics/service/OptimizationService.java:242-245 | the closing loop touched no courier in the queue iff none of them got a stop |
| OptimizationService.StopsOfStars | src/main/java/ru/ivanova/diplom/logistics/service/OptimizationService.java:240-258 | closed routes give back their stops, and are empty iff they have none |
| OptimizationService.ServedCourier | src/main/java/ru/ivanova/diplom/logistics/service/OptimizationService.java:229-258 | over one cluster, a courier's route is empty or a star that starts and ends at the centre. Its load grows by exactly the route's length. Its record gains its first stop and, unless already recorded, its last stop |
| OptimizationService.ClusterServed | src/main/java/ru/ivanova/diplom/logistics/service/OptimizationService.java:212-258 | the assignment loop followed by the closing loop serves the whole cluster: each closed route gives back the stops the assignment dealt, with the per-courier facts above |
| OptimizationService.RouteCluster | src/main/java/ru/ivanova/diplom/logistics/service/OptimizationService.java:210-258 | a cluster of other than one point yields one route per courier. Each route is empty or a round-trip star from the centre. The routes visit every non-centre point exactly as often as it occurs. Courier i's stops are what Distribute deals it with the polled couriers `ids`. If the queue was in heap order, every point went to a least-loaded courier at its turn (LeastTurns). Loads and visits are updated accordingly. The queue keeps its ids |
| OptimizationService.CalculateCourierRoutes | src/main/java/ru/ivanova/diplom/logistics/service/OptimizationService.java:206-269 | a one-point cluster yields no routes and changes nothing. Otherwise it does what RouteCluster states, including the least-loaded choice for every point when the queue was in heap order |
| OptimizationService.ServeCluster | src/main/java/ru/ivanova/diplom/logistics/service/OptimizationService.java:111-116 | one cluster is served with the shared queue |
| OptimizationService.ServeClusters | src/main/java/ru/ivanova/diplom/logistics/service/OptimizationService.java:103-116 | one shared queue of idle couriers serves every cluster in turn |
| OptimizationService.OptimizeRoute | src/main/java/ru/ivanova/diplom/logistics/service/OptimizationService.java:70-116 | a plan exists iff the depot tour ends. The depot route is the greedy tour closed back at the start. Every cluster is served |
| StaticModelService.LinkOrders | src/main/java/ru/ivanova/diplom/logistics/service/StaticModelService.java:37-42 | linking succeeds iff there are at least as many pickup points as orders. Then order i gets point i and keeps its id and volume |
| StaticModelService.IsEqualOrLessThanMaxDeliveryCapacity | src/main/java/ru/ivanova/diplom/logistics/service/StaticModelService.java:92-99 | true iff no order's volume exceeds the delivery limit |
| StaticModelService.InsertByVolume | src/main/java/ru/ivanova/diplom/logistics/service/StaticModelService.java:107 | inserting into a list sorted by non-increasing volume keeps it sorted and adds exactly that order |
| StaticModelService.SortByVolume | src/main/java/ru/ivanova/diplom/logistics/service/StaticModelService.java:107 | the orders in non-increasing volume, a permutation of the input |
| StaticModelService.AssignOrdersToCouriers | src/main/java/ru/ivanova/diplom/logistics/service/StaticModelService.java:152-164 | the polled courier has least load among all couriers. If the order fits under the capacity, its pickup point joins that courier's route and its load grows by exactly the volume. Otherwise nothing changes. The queue keeps its ids and stays ordered |
| StaticModelService.PackStep | src/main/java/ru/ivanova/diplom/logistics/service/StaticModelService.java:155-161 | an accepted order keeps every courier's load equal to the volumes it took, never above the capacity, and its count equal to its points |
| StaticModelService.PackedInitially | src/main/java/ru/ivanova/diplom/logistics/service/StaticModelService.java:166-171 | fresh couriers with empty routes have taken nothing |
| StaticModelService.PackTurn | src/main/java/ru/ivanova/diplom/logistics/service/StaticModelService.java:152-164 | an order that fits joins the polled courier's share and one that does not is dropped. The polled courier was least-loaded. The packing invariant is kept, and the trace gains the turn: the shares are what Pack computes from the choices so far, each of them least-loaded |
| StaticModelService.PackOne | src/main/java/ru/ivanova/diplom/logistics/service/StaticModelService.java:126-136 | one turn of the packing loop keeps the packing invariant and extends the trace by the order and the courier polled for it, a least-loaded one |
| StaticModelService.PackOrders | src/main/java/ru/ivanova/diplom/logistics/service/StaticModelService.java:125-136 | after packing, for every courier: its route is the pickup points of the orders it took; its load is their total volume, at most the capacity; its countPoints is its number of points. The shares and the dropped orders are what Pack gives with the polled couriers `ids`: in order, each order went to a courier least-loaded at its turn, and was taken iff that load plus its volume is within the capacity. Every order is taken by exactly one courier or dropped |
| StaticModelService.InitializeAndPack | src/main/java/ru/ivanova/diplom/logistics/service/StaticModelService.java:116-136 | the same over freshly initialised couriers with empty routes, including the Pack trace of least-loaded choices |
| StaticModelService.LeastChoicesAppend | src/main/java/ru/ivanova/diplom/logistics/service/StaticModelService.java:152-156 | offering one more order to a courier least-loaded under the shares so far keeps every choice of the trace least-loaded |
| StaticModelService.PackAccounts | src/main/java/ru/ivanova/diplom/logistics/service/StaticModelService.java:126-136 | every order of a packing is taken by exactly one courier or dropped (as multisets) |
| StaticModelService.PackWithinCapacity | src/main/java/ru/ivanova/diplom/logistics/service/StaticModelService.java:155-161 | no courier's share of a packing exceeds the capacity once it took an order |
| StaticModelService.PermutationLinked | src/main/java/ru/ivanova/diplom/logistics/service/StaticModelService.java:107 | sorting keeps every order linked |
| StaticModelService.SolveCourierTours | src/main/java/ru/ivanova/diplom/logistics/service/StaticModelService.java:138-147 | an empty route stays empty. A non-empty route becomes solveTSP's tour from the depot through its points and back |
| StaticModelService.SplitRouteForCouriers | src/main/java/ru/ivanova/diplom/logistics/service/StaticModelService.java:101-150 | exactly one route per courier. Each is empty or solveTSP's depot tour through the courier's pickup points, and so starts and ends at the depot. The shares are what Pack gives for the orders sorted by volume: each order offered to a courier least-loaded at its turn and taken iff it fits. Every courier is within the capacity. Every order is taken once or dropped |
| StaticModelService.ToursAtDepot | src/main/java/ru/ivanova/diplom/logistics/service/StaticModelService.java:139-147 | every route of a split is empty or leaves from and returns to the depot |
| StaticModelService.TourFor | src/main/java/ru/ivanova/diplom/logistics/service/StaticModelService.java:140-146 | an empty courier route stays empty. Any other becomes solveTSP's tour of depot, route, depot |
| StaticModelService.FindNearestPoint | src/main/java/ru/ivanova/diplom/logistics/service/StaticModelService.java:188-200 | nothing for an empty list. Otherwise a point of the list at least distance, strictly nearer than every earlier point, so ties go to the first |
| StaticModelService.GreedyTour | src/main/java/ru/ivanova/diplom/logistics/service/StaticModelService.java:178-183 | the greedy order has exactly as many points as were left to visit |
| StaticModelService.GreedyTourPermutation | src/main/java/ru/ivanova/diplom/logistics/service/StaticModelService.java:178-183 | the greedy pass takes every remaining point exactly once |
| StaticModelService.GreedyTourNearest | src/main/java/ru/ivanova/diplom/logistics/service/StaticModelService.java:179-182 | each point the greedy pass takes is, among the points not yet taken, one of least distance from the point before it |
| StaticModelService.NearestAtFirst | src/main/java/ru/ivanova/diplom/logistics/service/StaticModelService.java:179-182 | the first choice of the pass is a nearest point |
| StaticModelService.NearestAtShift | src/main/java/ru/ivanova/diplom/logistics/service/StaticModelService.java:179-182 | later choices are nearest among the points not yet taken |
| StaticModelService.TspTour | src/main/java/ru/ivanova/diplom/logistics/service/StaticModelService.java:174-186 | the tour has length input + 1, starts and ends at the input's first point, and its middle is a permutation of the rest of the input |
| StaticModelService.SolveTSP | src/main/java/ru/ivanova/diplom/logistics/service/StaticModelService.java:174-186 | the remove-and-append loop produces exactly that tour |
| StaticModelService.TourStep | src/main/java/ru/ivanova/diplom/logistics/service/StaticModelService.java:179-182 | one loop step moves the next greedy point from the rest onto the route |
| StaticModelService.DepotVisitedTwice | src/main/java/ru/ivanova/diplom/logistics/service/StaticModelService.java:139-147 | when every pickup point is at positive distance from the depot, a courier's tour is depot, depot, the greedy order of its pickups, depot |
| StaticModelService.NearestToDepotIsDepot | src/main/java/ru/ivanova/diplom/logistics/service/StaticModelService.java:188-200 | from the depot, the trailing depot point is the nearest candidate when every pickup is at positive distance |
| StaticModelService.GetTotalCourierRouteDistance | src/main/java/ru/ivanova/diplom/logistics/service/StaticModelService.java:271-277 | the loop sums the legs between consecutive points (0 for fewer than two points) |
| StaticModelService.TotalDistanceNonNegative | src/main/java/ru/ivanova/diplom/logistics/service/StaticModelService.java:250-252 | the summed distance of a plan is not negative |
| StaticModelService.RoundCents | src/main/java/ru/ivanova/diplom/logistics/service/StaticModelService.java:257 | the result is within half a cent of the input and a whole number of cents |
| StaticModelService.RoundCentsMonotone | src/main/java/ru/ivanova/diplom/logistics/service/StaticModelService.java:257 | rounding to cents preserves order |
| StaticModelService.RoundCentsIdempotent | src/main/java/ru/ivanova/diplom/logistics/service/StaticModelService.java:257 | rounding an already rounded amount changes nothing |
| StaticModelService.ExpensesFormula | src/main/java/ru/ivanova/diplom/logistics/service/StaticModelService.java:254-255 | with a non-negative fuel price and distance, the cost is at least the fixed part: drivers' salaries for the courier count plus the car rate |
| StaticModelService.CalculateTotalExpenses | src/main/java/ru/ivanova/diplom/logistics/service/StaticModelService.java:248-258 | the expenses are within half a cent of the cost formula and a whole number of cents |
| StaticModelService.ExpensesMonotone | src/main/java/ru/ivanova/diplom/logistics/service/StaticModelService.java:248-258 | with a non-negative fuel price, a plan that travels further never costs less |
| StaticModelService.CourierTime | src/main/java/ru/ivanova/diplom/logistics/service/StaticModelService.java:263-264 | with a positive speed and non-negative distance and processing time, a courier's time is at least its travel time and at least the processing time of its points |
| StaticModelService.RouteTime | src/main/java/ru/ivanova/diplom/logistics/service/StaticModelService.java:263-264 | under a non-negative distance, a route's time is at least the processing time of every entry of the route |
| StaticModelService.MaxRouteTime | src/main/java/ru/ivanova/diplom/logistics/service/StaticModelService.java:260-269 | the slowest courier's time: not negative, at least every route's time, and 0 or attained by some route |
| StaticModelService.MaxRouteTimeStep | src/main/java/ru/ivanova/diplom/logistics/service/StaticModelService.java:265 | one more route raises the maximum to that route's time if it is larger |
| StaticModelService.CalculateTotalTime | src/main/java/ru/ivanova/diplom/logistics/service/StaticModelService.java:260-269 | the running maximum from 0 equals the slowest courier's time |
| StaticModelService.ValidateOrders | src/main/java/ru/ivanova/diplom/logistics/service/StaticModelService.java:29-47 | rejects each case iff it occurs: no depot point, fewer pickup points than orders, an order over the delivery limit, orders but no courier (the null poll at line 154). Otherwise returns the linked orders |
| StaticModelService.PlanRoutes | src/main/java/ru/ivanova/diplom/logistics/service/StaticModelService.java:50-69 | the routes are the split's, with its Pack trace of least-loaded choices. The plan carries their expenses and time. It is accepted iff the slowest courier meets the deadline |
| StaticModelService.OptimizeCourierRoutes | src/main/java/ru/ivanova/diplom/logistics/service/StaticModelService.java:27-74 | each error iff its condition. Otherwise the split of the linked orders, with its Pack trace of least-loaded choices, and the plan accepted iff it meets the deadline |

## Left out

- Parsing and writing GeoJSON, the JSON conversion of orders, the result documents and their colours, `createLineFeature`: these are format adaptation only.
- K-means++ clustering (`OptimizationService.java:53-55`) is a randomised call into Apache Commons Math. The clusters, with their centres and points, are an input of `OptimizationService.OptimizeRoute`.
- RabbitMQ and HTTP (`RabbitMQSender`, `RabbitConfig`, the controller) and all console logging are left out.
- `Time.convert` is left out. The model keeps the total time in hours as a real.
- Floating point is left out: numbers are exact reals and distances are the abstract parameter `dist`. So `Math.sqrt`/`Math.pow`, NaN, infinities and rounding errors are left out. The one place where NaN decides the outcome is a zero depot speed, which the model rejects as `DeadlineMissed`.
- StaticModelService.RoundCents: rounds over exact reals. The saturation of `Math.round` to the range of `long` is left out.
- Geometry.FindNearest: the `Double.MAX_VALUE` start of both nearest-point scans is modelled as "no candidate yet". So the first eligible point is always accepted. A point at distance `Double.MAX_VALUE` or more, which the Java scan would skip, is out of the model.
- OptimizationService.CalculateRoute: when the centres repeat or include the start, the Java loop never ends. The model returns `None` at the point where the loop stops making progress.
- OptimizationService.OptimizeRoute, OptimizationService.ServeClusters, OptimizationService.ServeCluster, OptimizationService.CalculateCourierRoutes, OptimizationService.RouteCluster, OptimizationService.AssignPoints: require at least one courier. With none, the Java code takes a null from `poll` and fails with a NullPointerException as soon as a cluster has a point other than its centre. It succeeds with zero couriers when no cluster has such a point; the model leaves that case out.
- Couriers.CourierQueue.Poll: which of several equally loaded couriers is returned is left open. Once the heap order is broken, any queued courier may be returned. Java's actual heap layout is not modelled.
- StaticModelService.SortByVolume: the contract states order and permutation only. It does not state the stability of `List.sort`, although the definition is stable.
- StaticModelService.OptimizeCourierRoutes: an order entry that is `null` is skipped by the linking loop (line 39) and is not modelled: orders are values. Java `int` fields are modelled as unbounded integers. A negative courier count (which the Java loops treat as zero) is excluded by the type `nat`.
- StaticModelService.OptimizeCourierRoutes: a JSON error returns an empty document (lines 70-73). This is part of the left-out parsing.
- The `Parameters` class with the getters the static mode calls is not part of this model. `StaticModelService.Parameters` carries exactly the fields the code reads.
- Both `calculateDistance` methods are the parameter `dist` (see above).
