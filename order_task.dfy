/** The two scheduled order sweeps of `OrderTask`: cancelling orders left
    unpaid too long, and completing orders left in delivery too long. Each
    selects its candidates with one query, changes each candidate in memory and
    writes it back by id. The clock is the parameter `now` (minutes). */
module OrderTask {
  import opened Common
  import opened Entities

  /** The cancel reason the timeout sweep writes. */
  const TIMEOUT_REASON: string := "订单超时，自动取消"

  /** The two sweeps. */
  datatype Job = TimeoutCancel | StuckDelivery

  /** The status a sweep selects. */
  function Source(job: Job): OrderStatus
  {
    match job
    case TimeoutCancel => PendingPayment
    case StuckDelivery => DeliveryInProgress
  }

  /** How many minutes before `now` an order must have been placed to be selected. */
  function Window(job: Job): int
  {
    match job
    case TimeoutCancel => 15
    case StuckDelivery => 60
  }

  /** Whether a sweep run at `now` selects order `o`: it has the sweep's status
      and its order time is strictly before `now` minus the window. For the
      delivery sweep the hour counts from the order time, not from the start
      of delivery. */
  predicate Selected(o: Order, job: Job, now: int)
  {
    o.status == Source(job) && o.orderTime < now - Window(job)
  }

  /** What a sweep does to one selected order. */
  function Process(o: Order, job: Job, now: int): Order
  {
    match job
    case TimeoutCancel => o.(status := Cancelled, cancelReason := Some(TIMEOUT_REASON), cancelTime := Some(now))
    case StuckDelivery => o.(status := Completed)
  }

  /** Reference definition of a sweep over the whole table: every selected
      order is processed, every other order is kept as it is. */
  function Sweep(os: seq<Order>, job: Job, now: int): seq<Order>
  {
    if os == [] then []
    else [if Selected(os[0], job, now) then Process(os[0], job, now) else os[0]] + Sweep(os[1..], job, now)
  }

  /** `orderMapper.getByStatusAndOrderTimeLT`. */
  function SelectByStatusAndOrderTimeLT(os: seq<Order>, status: OrderStatus, before: int): (r: seq<Order>)
    ensures forall o :: o in r <==> o in os && o.status == status && o.orderTime < before
  {
    Filter(os, (o: Order) => o.status == status && o.orderTime < before)
  }

  /** `orderMapper.update`: `update orders set ... where id = #{id}`, the row
      with the order's id becomes the order. */
  function UpdateById(os: seq<Order>, o: Order): seq<Order>
  {
    UpdateWhere(os, OrderKey, o.id, (x: Order) => o)
  }

  /** `processTimeoutOrder`, run at minute `now`. */
  method ProcessTimeoutOrder(db: Database, now: int)
    requires db.OrderIdsUnique()
    modifies db`orders
    ensures db.orders == Sweep(old(db.orders), TimeoutCancel, now)
    ensures db.OrderIdsUnique()
  {
    var orders := SelectByStatusAndOrderTimeLT(db.orders, PendingPayment, now - 15);
    if |orders| > 0 {
      var k := 0;
      while k < |orders|
        invariant 0 <= k <= |orders|
        invariant |db.orders| == |old(db.orders)|
        invariant forall j :: 0 <= j < |db.orders| ==>
          db.orders[j] == if old(db.orders)[j] in orders[..k] then Process(old(db.orders)[j], TimeoutCancel, now) else old(db.orders)[j]
      {
        var order := orders[k];
        order := order.(status := Cancelled);
        order := order.(cancelReason := Some(TIMEOUT_REASON));
        order := order.(cancelTime := Some(now));
        WriteBackStep(db.orders, old(db.orders), orders, k, TimeoutCancel, now);
        db.orders := UpdateById(db.orders, order);
        k := k + 1;
      }
      assert orders[..k] == orders;
    }
    SweepMatchesWriteBack(old(db.orders), db.orders, orders, TimeoutCancel, now);
  }

  /** `processDeliveryOrder`, run at minute `now`. */
  method ProcessDeliveryOrder(db: Database, now: int)
    requires db.OrderIdsUnique()
    modifies db`orders
    ensures db.orders == Sweep(old(db.orders), StuckDelivery, now)
    ensures db.OrderIdsUnique()
  {
    var orders := SelectByStatusAndOrderTimeLT(db.orders, DeliveryInProgress, now - 60);
    if |orders| > 0 {
      var k := 0;
      while k < |orders|
        invariant 0 <= k <= |orders|
        invariant |db.orders| == |old(db.orders)|
        invariant forall j :: 0 <= j < |db.orders| ==>
          db.orders[j] == if old(db.orders)[j] in orders[..k] then Process(old(db.orders)[j], StuckDelivery, now) else old(db.orders)[j]
      {
        var order := orders[k];
        order := order.(status := Completed);
        WriteBackStep(db.orders, old(db.orders), orders, k, StuckDelivery, now);
        db.orders := UpdateById(db.orders, order);
        k := k + 1;
      }
      assert orders[..k] == orders;
    }
    SweepMatchesWriteBack(old(db.orders), db.orders, orders, StuckDelivery, now);
  }

  /** The state of the table after the first `k` candidates were written back. */
  ghost predicate WrittenBack(cur: seq<Order>, orig: seq<Order>, done: seq<Order>, job: Job, now: int)
  {
    |cur| == |orig| &&
    forall j :: 0 <= j < |cur| ==> cur[j] == if orig[j] in done then Process(orig[j], job, now) else orig[j]
  }

  /** Writing back candidate `k` by id extends the written-back prefix by one:
      its id belongs to exactly one row, the row it was read from. */
  lemma WriteBackStep(cur: seq<Order>, orig: seq<Order>, candidates: seq<Order>, k: int, job: Job, now: int)
    requires KeysDistinct(orig, OrderKey)
    requires 0 <= k < |candidates|
    requires forall o :: o in candidates ==> o in orig
    requires WrittenBack(cur, orig, candidates[..k], job, now)
    ensures WrittenBack(UpdateById(cur, Process(candidates[k], job, now)), orig, candidates[..k + 1], job, now)
  {
    var c := candidates[k];
    var next := UpdateById(cur, Process(c, job, now));
    assert c in candidates;
    assert candidates[..k + 1] == candidates[..k] + [c];
    forall j | 0 <= j < |next|
      ensures next[j] == if orig[j] in candidates[..k + 1] then Process(orig[j], job, now) else orig[j]
    {
      assert cur[j].id == orig[j].id;
      if orig[j].id == c.id {
        var j0 :| 0 <= j0 < |orig| && orig[j0] == c;
        assert j0 == j;
      } else {
        assert orig[j] != c;
      }
    }
  }

  /** Once every candidate of the query is written back, the table is the
      reference sweep of the table it started from. */
  lemma SweepMatchesWriteBack(orig: seq<Order>, cur: seq<Order>, candidates: seq<Order>, job: Job, now: int)
    requires forall o :: o in candidates <==> o in orig && Selected(o, job, now)
    requires WrittenBack(cur, orig, candidates, job, now)
    ensures cur == Sweep(orig, job, now)
    ensures KeysDistinct(orig, OrderKey) ==> KeysDistinct(cur, OrderKey)
  {
    var r := Sweep(orig, job, now);
    forall j | 0 <= j < |orig|
      ensures |r| == |orig| && cur[j] == r[j]
    {
      SweepAt(orig, job, now, j);
    }
    SweepLength(orig, job, now);
  }

  /** The reference sweep keeps the table's length. */
  lemma {:induction false} SweepLength(os: seq<Order>, job: Job, now: int)
    ensures |Sweep(os, job, now)| == |os|
  {
    if os != [] {
      SweepLength(os[1..], job, now);
    }
  }

  /** Row `j` of the reference sweep is the processed row if it was selected
      and the old row otherwise. */
  lemma {:induction false} SweepAt(os: seq<Order>, job: Job, now: int, j: int)
    requires 0 <= j < |os|
    ensures |Sweep(os, job, now)| == |os|
    ensures Sweep(os, job, now)[j] == if Selected(os[j], job, now) then Process(os[j], job, now) else os[j]
  {
    SweepLength(os, job, now);
    if j > 0 {
      SweepAt(os[1..], job, now, j - 1);
    }
  }

  /** A sweep changes exactly the orders it selects, and a selected order
      leaves the status the sweep selects on. */
  lemma SweepChangesExactlySelected(os: seq<Order>, job: Job, now: int, j: int)
    requires 0 <= j < |os|
    ensures |Sweep(os, job, now)| == |os|
    ensures Sweep(os, job, now)[j] != os[j] <==> Selected(os[j], job, now)
    ensures Selected(os[j], job, now) ==> Sweep(os, job, now)[j].status != Source(job)
  {
    SweepAt(os, job, now, j);
  }

  /** The timeout sweep cancels every order it selects, with the timeout
      reason and `now` as cancel time, and changes nothing else of it. */
  lemma TimeoutSweepCancels(os: seq<Order>, now: int, j: int)
    requires 0 <= j < |os|
    requires Selected(os[j], TimeoutCancel, now)
    ensures |Sweep(os, TimeoutCancel, now)| == |os|
    ensures Sweep(os, TimeoutCancel, now)[j]
         == os[j].(status := Cancelled, cancelReason := Some(TIMEOUT_REASON), cancelTime := Some(now))
  {
    SweepAt(os, TimeoutCancel, now, j);
  }

  /** The delivery sweep writes only the status: it completes exactly the
      selected orders and keeps order time, cancel reason and cancel time. */
  lemma DeliverySweepOnlySetsStatus(os: seq<Order>, now: int, j: int)
    requires 0 <= j < |os|
    ensures |Sweep(os, StuckDelivery, now)| == |os|
    ensures Sweep(os, StuckDelivery, now)[j] == os[j].(status := Sweep(os, StuckDelivery, now)[j].status)
    ensures Sweep(os, StuckDelivery, now)[j].status
         == if Selected(os[j], StuckDelivery, now) then Completed else os[j].status
  {
    SweepAt(os, StuckDelivery, now, j);
  }

  /** When the candidate query returns nothing, a sweep changes nothing. */
  lemma SweepWithoutCandidates(os: seq<Order>, job: Job, now: int)
    requires SelectByStatusAndOrderTimeLT(os, Source(job), now - Window(job)) == []
    ensures Sweep(os, job, now) == os
  {
    var r := Sweep(os, job, now);
    SweepLength(os, job, now);
    forall j | 0 <= j < |os|
      ensures r[j] == os[j]
    {
      SweepAt(os, job, now, j);
      assert os[j] in os;
    }
  }

  /** Running a sweep twice at the same `now` changes nothing the second time. */
  lemma SweepIdempotent(os: seq<Order>, job: Job, now: int)
    ensures Sweep(Sweep(os, job, now), job, now) == Sweep(os, job, now)
  {
    var r := Sweep(os, job, now);
    SweepLength(os, job, now);
    SweepLength(r, job, now);
    forall j | 0 <= j < |r|
      ensures Sweep(r, job, now)[j] == r[j]
    {
      SweepAt(os, job, now, j);
      SweepAt(r, job, now, j);
    }
  }

  /** Every order either stays as it is or moves along the one edge of the
      order lifecycle its sweep applies: unpaid to cancelled, or in delivery to
      completed. Completed and cancelled orders are never touched. */
  lemma SweepFollowsLifecycle(os: seq<Order>, job: Job, now: int, j: int)
    requires 0 <= j < |os|
    ensures |Sweep(os, job, now)| == |os|
    ensures var o, o' := os[j], Sweep(os, job, now)[j];
      || o' == o
      || (job == TimeoutCancel && o.status == PendingPayment && o'.status == Cancelled)
      || (job == StuckDelivery && o.status == DeliveryInProgress && o'.status == Completed)
    ensures os[j].status in {Completed, Cancelled} ==> Sweep(os, job, now)[j] == os[j]
  {
    SweepAt(os, job, now, j);
  }

  /** Cancel reason and cancel time are set exactly on cancelled orders. */
  predicate CancelFieldsConsistent(o: Order)
  {
    o.status == Cancelled <==> o.cancelReason.Some? && o.cancelTime.Some?
  }

  /** Both sweeps keep cancel reason and cancel time set exactly on cancelled orders. */
  lemma SweepKeepsCancelFieldsConsistent(os: seq<Order>, job: Job, now: int)
    requires forall o :: o in os ==> CancelFieldsConsistent(o)
    ensures forall o :: o in Sweep(os, job, now) ==> CancelFieldsConsistent(o)
  {
    var r := Sweep(os, job, now);
    SweepLength(os, job, now);
    forall o | o in r
      ensures CancelFieldsConsistent(o)
    {
      var j :| 0 <= j < |r| && r[j] == o;
      SweepAt(os, job, now, j);
      assert os[j] in os;
    }
  }
}
