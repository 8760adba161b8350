/** Couriers and the java.util.PriorityQueue both services keep them in.

    A courier is a mutable Java object that only the queue and the code
    holding a freshly polled courier can reach. The model keeps every courier
    record in `couriers`, indexed by its id (ids 0..n-1 are given once, so an
    id names one object), and the queue proper as the list `queued` of the ids
    it currently holds, in no particular order. */
module Couriers {
  import opened Geometry

  /** A courier: its id, its load (distance travelled in the dynamic mode,
      volume carried in the static mode), and the points it has recorded. */
  datatype Courier = Courier(id: nat, currentDistance: real, countPoints: nat, visitedPoints: seq<Point>)

  /** A fresh courier as both services create it: no load, nothing visited. */
  function NewCourier(id: nat): (c: Courier)
    ensures c.id == id && c.currentDistance == 0.0 && c.visitedPoints == [] && c.countPoints == 0
  {
    Courier(id, 0.0, 0, [])
  }

  class CourierQueue {
    /** The courier objects, by id. */
    var couriers: seq<Courier>
    /** The ids the priority queue holds. */
    var queued: seq<nat>
    /** Whether the queue's heap order is intact: no key was changed while its
        courier sat inside the queue. Only then does poll return a least-loaded
        courier. (The Java heap array has this state without naming it.) */
    var ordered: bool

    /** The queue of a service that created `n` couriers: every courier is in
        it exactly once and keeps its count of visited points. */
    ghost predicate Valid(n: nat)
      reads this
    {
      Records(couriers, n) && HoldsAll(queued, n)
    }

    /** Creates `count` couriers with ids 0..count-1 and no load and queues
        them all. */
    constructor (count: nat)
      ensures Valid(count) && ordered
      ensures forall i :: 0 <= i < count ==> couriers[i] == NewCourier(i)
    {
      var cs: seq<Courier> := [];
      var ids: seq<nat> := [];
      for i := 0 to count
        invariant |cs| == i && |ids| == i
        invariant forall j :: 0 <= j < i ==> cs[j] == NewCourier(j) && ids[j] == j
      {
        cs := cs + [NewCourier(i)];
        ids := ids + [i];
      }
      forall i | 0 <= i < count ensures i in ids {
        assert ids[i] == i;
      }
      couriers, queued, ordered := cs, ids, true;
    }

    /** Removes a courier from the queue and returns its id: one of least load
        while the heap order is intact, an unspecified one otherwise. */
    method Poll() returns (id: nat)
      requires |queued| > 0
      requires forall k :: 0 <= k < |queued| ==> queued[k] < |couriers|
      modifies this
      ensures id in old(queued) && id < |couriers|
      ensures multiset(queued) == multiset(old(queued)) - multiset{id}
      ensures couriers == old(couriers) && ordered == old(ordered)
      ensures ordered ==> forall i :: i in old(queued) ==>
                couriers[id].currentDistance <= couriers[i].currentDistance
    {
      ghost var q := queued;
      assert IsLeast(q, couriers, LeastLoaded(q, couriers));
      var k :| 0 <= k < |queued| && (ordered ==> IsLeast(queued, couriers, k));
      id := queued[k];
      if ordered {
        forall i | i in q ensures couriers[id].currentDistance <= couriers[i].currentDistance {
          var j :| 0 <= j < |q| && q[j] == i;
          assert IsLeast(q, couriers, k);
        }
      }
      queued := queued[..k] + queued[k + 1..];
      assert q == q[..k] + [id] + q[k + 1..];
      assert multiset(q) == multiset(q[..k]) + multiset{id} + multiset(q[k + 1..]);
    }

    /** Puts a polled courier back, with the fields the caller changed. Like
        PriorityQueue.add it does not look for the id among those queued; its
        callers only add back the courier they just polled, and Requeue shows
        that the queue then holds every id once again. */
    method Add(c: Courier)
      requires c.id < |couriers|
      modifies this
      ensures couriers == old(couriers)[c.id := c]
      ensures queued == old(queued) + [c.id]
      ensures ordered == old(ordered)
    {
      couriers := couriers[c.id := c];
      queued := queued + [c.id];
    }

    /** Changes a courier while it sits in the queue, which the heap does not
        notice: from now on poll may return any courier. */
    method UpdateInPlace(c: Courier)
      requires c.id < |couriers|
      modifies this
      ensures couriers == old(couriers)[c.id := c]
      ensures queued == old(queued)
      ensures !ordered
    {
      couriers := couriers[c.id := c];
      ordered := false;
    }
  }

  /** The records of `n` couriers: courier i has id i and counts exactly the
      points it visited. */
  ghost predicate Records(couriers: seq<Courier>, n: nat) {
    && |couriers| == n
    && (forall i :: 0 <= i < n ==> couriers[i].id == i)
    && (forall i :: 0 <= i < n ==> couriers[i].countPoints == |couriers[i].visitedPoints|)
  }

  /** Writing back a courier that still counts its visited points keeps the
      records. */
  lemma RecordsUpdate(couriers: seq<Courier>, n: nat, c: Courier)
    requires Records(couriers, n) && c.id < n && c.countPoints == |c.visitedPoints|
    ensures Records(couriers[c.id := c], n)
  {
  }

  /** A queue of `n` couriers holding every id 0..n-1, hence each once. */
  ghost predicate HoldsAll(queued: seq<nat>, n: nat) {
    && |queued| == n
    && (forall k :: 0 <= k < |queued| ==> queued[k] < n)
    && (forall i :: 0 <= i < n ==> i in queued)
  }

  /** Polling a courier and adding it back leaves a queue holding the same
      ids. */
  lemma SameIdsHoldAll(q0: seq<nat>, q1: seq<nat>, n: nat)
    requires HoldsAll(q0, n) && multiset(q1) == multiset(q0)
    ensures HoldsAll(q1, n)
  {
    assert |q1| == |multiset(q1)| == |multiset(q0)| == |q0|;
    forall i | 0 <= i < n ensures i in q1 {
      assert i in q0;
      assert i in multiset(q0);
    }
    forall k | 0 <= k < |q1| ensures q1[k] < n {
      assert q1[k] in multiset(q0);
    }
  }

  /** Queuing a polled courier again restores the ids the queue held. */
  lemma Requeue(q0: seq<nat>, polled: seq<nat>, id: nat, n: nat)
    requires HoldsAll(q0, n) && id in q0 && multiset(polled) == multiset(q0) - multiset{id}
    ensures multiset(polled + [id]) == multiset(q0) && HoldsAll(polled + [id], n)
  {
    assert id in multiset(q0);
    assert multiset(polled + [id]) == multiset(polled) + multiset{id};
    SameIdsHoldAll(q0, polled + [id], n);
  }

  /** Position k of `queued` holds a courier of least load. */
  predicate IsLeast(queued: seq<nat>, couriers: seq<Courier>, k: nat)
    requires forall j :: 0 <= j < |queued| ==> queued[j] < |couriers|
  {
    k < |queued| &&
    forall j :: 0 <= j < |queued| ==> couriers[queued[k]].currentDistance <= couriers[queued[j]].currentDistance
  }

  /** A position of least load; it exists in every non-empty queue. */
  function LeastLoaded(queued: seq<nat>, couriers: seq<Courier>): (k: nat)
    requires |queued| > 0
    requires forall j :: 0 <= j < |queued| ==> queued[j] < |couriers|
    ensures IsLeast(queued, couriers, k)
    decreases |queued|
  {
    if |queued| == 1 then 0
    else
      var k := LeastLoaded(queued[..|queued| - 1], couriers);
      if couriers[queued[|queued| - 1]].currentDistance < couriers[queued[k]].currentDistance
      then |queued| - 1 else k
  }
}
