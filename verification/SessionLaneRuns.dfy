/** Whole runs of the lane queue: conservation, and FIFO per lane. */
module SessionLaneRuns {
  import opened Text
  import opened Seqs
  import opened SessionLanes

  datatype Op = OpEnqueue(x: Item) | OpPop | OpRemove(index: int)

  /** A queue with what ever went in and came out, in order. */
  datatype Trace = Trace(q: Lanes, enqueued: seq<Item>, popped: seq<Item>, removed: seq<Item>)

  function NotIn(xs: seq<Item>): Item -> bool { (x: Item) => x !in xs }

  function Taken(o: Option<Item>): seq<Item> { if o.Some? then [o.value] else [] }

  ghost function Step(t: Trace, op: Op): (t': Trace)
    requires Valid(t.q)
    ensures t'.enqueued == t.enqueued + (if op.OpEnqueue? then [op.x] else [])
  {
    match op
    case OpEnqueue(x) => Trace(Enqueue(t.q, x), t.enqueued + [x], t.popped, t.removed)
    case OpPop => var (q', o) := PopNext(t.q); Trace(q', t.enqueued + [], t.popped + Taken(o), t.removed)
    case OpRemove(i) => var (q', o) := RemoveAt(t.q, i); Trace(q', t.enqueued + [], t.popped, t.removed + Taken(o))
  }

  /** The lane's enqueued items that were not removed are its popped items followed by its queue. */
  ghost predicate LaneOrder(t: Trace, lane: string) {
    Filter(Filter(t.enqueued, NotIn(t.removed)), OnLane(lane)) == Filter(t.popped, OnLane(lane)) + Queue(t.q, lane)
  }

  ghost predicate Conserves(t: Trace) {
    && Valid(t.q)
    && DistinctIds(t.enqueued)
    && multiset(t.enqueued) == multiset(t.popped) + multiset(t.removed) + multiset(Items(t.q))
    && forall lane :: LaneOrder(t, lane)
  }

  ghost predicate Fresh(t: Trace, op: Op) {
    op.OpEnqueue? ==> forall x | x in t.enqueued :: x.queueId != op.x.queueId
  }

  lemma ItemsDistinct(t: Trace)
    requires Conserves(t)
    ensures DistinctIds(Items(t.q))
    ensures forall x | x in Items(t.q) :: x in t.enqueued && x !in t.popped && x !in t.removed
  {
    DistinctPart(t.enqueued, Items(t.q));
    forall x | x in Items(t.q) ensures x in t.enqueued && x !in t.popped && x !in t.removed {
      assert x in multiset(Items(t.q));
      assert x in multiset(t.enqueued);
      NoDupCountsOnce(t.enqueued, x);
    }
  }

  lemma EnqueueConserves(t: Trace, x: Item)
    requires Conserves(t) && Fresh(t, OpEnqueue(x))
    ensures Conserves(Step(t, OpEnqueue(x)))
  {
    var t' := Step(t, OpEnqueue(x));
    ItemsEnqueue(t.q, x);
    assert DistinctIds(t'.enqueued);
    forall lane ensures LaneOrder(t', lane) {
      EnqueueLane(t, x, lane);
    }
  }

  lemma EnqueueLane(t: Trace, x: Item, lane: string)
    requires Conserves(t) && Fresh(t, OpEnqueue(x))
    ensures LaneOrder(Step(t, OpEnqueue(x)), lane)
  {
    assert LaneOrder(t, lane);
    forall y | y in t.removed ensures y in t.enqueued {
      assert y in multiset(t.enqueued);
    }
    FilterSnoc(t.enqueued, x, NotIn(t.removed));
    FilterSnoc(Filter(t.enqueued, NotIn(t.removed)), x, OnLane(lane));
    ConcatAssoc(Filter(t.popped, OnLane(lane)), Queue(t.q, lane), [x]);
  }

  lemma TakeOut(before: seq<Item>, after: seq<Item>, x: Item)
    requires x in before && DistinctIds(before) && after == Filter(before, NotId(x.queueId))
    ensures multiset(before) == multiset{x} + multiset(after)
  {
    var i :| 0 <= i < |before| && before[i] == x;
    DropOneId(before, i);
    DeleteMultiset(before, i);
  }

  lemma PopConserves(t: Trace)
    requires Conserves(t)
    ensures Conserves(Step(t, OpPop))
  {
    ItemsDistinct(t);
    PopNextTakes(t.q);
    var t' := Step(t, OpPop);
    assert t'.enqueued == t.enqueued;
    if PopNext(t.q).1.Some? {
      var x := PopNext(t.q).1.value;
      TakeOut(Items(t.q), Items(t'.q), x);
      assert multiset(t'.popped) == multiset(t.popped) + multiset{x};
      forall lane ensures LaneOrder(t', lane) {
        PopLane(t, t', x, lane);
      }
    } else {
      assert t' == t;
    }
  }

  lemma PopLane(t: Trace, t': Trace, x: Item, lane: string)
    requires LaneOrder(t, lane)
    requires t'.enqueued == t.enqueued && t'.removed == t.removed && t'.popped == t.popped + [x]
    requires Queue(t.q, lane) == if lane == x.lane then [x] + Queue(t'.q, lane) else Queue(t'.q, lane)
    ensures LaneOrder(t', lane)
  {
    FilterSnoc(t.popped, x, OnLane(lane));
    ConcatAssoc(Filter(t.popped, OnLane(lane)), [x], Queue(t'.q, lane));
  }

  /** What taking x out by its index does to the queue. */
  ghost predicate TakenOut(before: Lanes, after: Lanes, x: Item) {
    && Valid(after) && x in Items(before) && Items(after) == Filter(Items(before), NotId(x.queueId))
  }

  lemma RemovalTakes(t: Trace, index: int)
    requires Conserves(t) && 0 <= index < |Snapshot(t.q)|
    ensures var x, t' := Snapshot(t.q)[index], Step(t, OpRemove(index));
      && TakenOut(t.q, t'.q, x)
      && t'.enqueued == t.enqueued && t'.popped == t.popped && t'.removed == t.removed + [x]
  {
    ItemsDistinct(t);
    RemoveAtDeletes(t.q, index);
    SnapshotEntry(Items(t.q), index);
    assert t.enqueued + [] == t.enqueued;
  }

  lemma SnapshotEntry(xs: seq<Item>, i: nat)
    requires i < |SortByAge(xs)|
    ensures SortByAge(xs)[i] in xs
  {
    SortSorted(xs);
    assert SortByAge(xs)[i] in multiset(xs);
  }

  lemma RemovedConserves(t: Trace, t': Trace, x: Item)
    requires Conserves(t) && TakenOut(t.q, t'.q, x)
    requires t'.enqueued == t.enqueued && t'.popped == t.popped && t'.removed == t.removed + [x]
    ensures Conserves(t')
  {
    ItemsDistinct(t);
    TakeOut(Items(t.q), Items(t'.q), x);
    forall lane ensures LaneOrder(t', lane) {
      RemoveLane(t, t', x, lane);
    }
  }

  lemma RemoveConserves(t: Trace, index: int)
    requires Conserves(t)
    ensures Conserves(Step(t, OpRemove(index)))
  {
    if 0 <= index < |Snapshot(t.q)| {
      RemovalTakes(t, index);
      RemovedConserves(t, Step(t, OpRemove(index)), Snapshot(t.q)[index]);
    } else {
      assert t.enqueued + [] == t.enqueued && t.removed + [] == t.removed;
      assert Step(t, OpRemove(index)) == t;
    }
  }

  lemma RemoveLane(t: Trace, t': Trace, x: Item, lane: string)
    requires Conserves(t) && Valid(t'.q) && x in Items(t.q)
    requires Items(t'.q) == Filter(Items(t.q), NotId(x.queueId))
    requires t'.enqueued == t.enqueued && t'.popped == t.popped && t'.removed == t.removed + [x]
    ensures LaneOrder(t', lane)
  {
    assert LaneOrder(t, lane);
    ItemsDistinct(t);
    var p := NotId(x.queueId);
    RemovedFilter(t, t', x, lane);
    var poppedLane := Filter(t.popped, OnLane(lane));
    FilterConcat(poppedLane, Queue(t.q, lane), p);
    forall y | y in poppedLane ensures p(y) {
      assert y in multiset(t.enqueued);
      if y.queueId == x.queueId { SameIdSameItem(t.enqueued, x, y); }
    }
    FilterAll(poppedLane, p);
    QueueOfLane(t.q, lane);
    QueueOfLane(t'.q, lane);
    FilterSwap(Items(t.q), p, OnLane(lane));
  }

  lemma RemovedFilter(t: Trace, t': Trace, x: Item, lane: string)
    requires DistinctIds(t.enqueued) && x in t.enqueued
    requires t'.enqueued == t.enqueued && t'.removed == t.removed + [x]
    ensures Filter(Filter(t'.enqueued, NotIn(t'.removed)), OnLane(lane))
         == Filter(Filter(Filter(t.enqueued, NotIn(t.removed)), OnLane(lane)), NotId(x.queueId))
  {
    var p := NotId(x.queueId);
    forall y | y in t.enqueued ensures NotIn(t'.removed)(y) == (NotIn(t.removed)(y) && p(y)) {
      if y.queueId == x.queueId { SameIdSameItem(t.enqueued, x, y); }
    }
    FilterTwice(t.enqueued, NotIn(t.removed), p, NotIn(t'.removed));
    FilterSwap(Filter(t.enqueued, NotIn(t.removed)), p, OnLane(lane));
  }

  lemma FilterSwap(xs: seq<Item>, p: Item -> bool, q: Item -> bool)
    ensures Filter(Filter(xs, p), q) == Filter(Filter(xs, q), p)
  {
    var both := (x: Item) => p(x) && q(x);
    FilterTwice(xs, p, q, both);
    FilterTwice(xs, q, p, both);
  }

  lemma StepConserves(t: Trace, op: Op)
    requires Conserves(t) && Fresh(t, op)
    ensures Conserves(Step(t, op))
  {
    match op
    case OpEnqueue(x) => EnqueueConserves(t, x);
    case OpPop => PopConserves(t);
    case OpRemove(i) => RemoveConserves(t, i);
  }

  function IdsOf(ops: seq<Op>): seq<int> {
    if ops == [] then []
    else (if ops[0].OpEnqueue? then [ops[0].x.queueId] else []) + IdsOf(ops[1..])
  }

  ghost predicate FreshIds(t: Trace, ops: seq<Op>) {
    NoDup(IdsOf(ops)) && forall x | x in t.enqueued :: x.queueId !in IdsOf(ops)
  }

  ghost function Run(t: Trace, ops: seq<Op>): Trace
    requires Conserves(t) && FreshIds(t, ops)
    decreases |ops|
  {
    if ops == [] then t
    else
      FreshStep(t, ops);
      Run(Step(t, ops[0]), ops[1..])
  }

  lemma FreshStep(t: Trace, ops: seq<Op>)
    requires Conserves(t) && FreshIds(t, ops) && ops != []
    ensures Conserves(Step(t, ops[0])) && FreshIds(Step(t, ops[0]), ops[1..])
  {
    var ids, rest := IdsOf(ops), IdsOf(ops[1..]);
    if ops[0].OpEnqueue? {
      assert ids == [ops[0].x.queueId] + rest;
      assert rest == ids[1..] && ids[0] in ids;
    } else {
      assert ids == rest;
    }
    StepConserves(t, ops[0]);
  }

  ghost predicate ExactlyOne(a: bool, b: bool, c: bool) {
    (a || b || c) && !(a && b) && !(a && c) && !(b && c)
  }

  /**
   * Any run of enqueues (with fresh ids), pops and removals from an empty queue: every enqueued item is in exactly
   * one of queued, popped and removed, and each lane hands out its not-removed items in the order they came in.
   */
  lemma {:induction false} RunConserves(t: Trace, ops: seq<Op>)
    requires Conserves(t) && FreshIds(t, ops)
    ensures var r := Run(t, ops);
      && Conserves(r)
      && (forall x | x in r.enqueued :: ExactlyOne(x in Items(r.q), x in r.popped, x in r.removed))
      && (forall lane :: LaneOrder(r, lane))
    decreases |ops|
  {
    if ops == [] {
      ItemsDistinct(t);
      forall x | x in t.enqueued ensures ExactlyOne(x in Items(t.q), x in t.popped, x in t.removed) {
        assert x in multiset(t.enqueued);
        NoDupCountsOnce(t.enqueued, x);
        var m := multiset(t.popped) + multiset(t.removed) + multiset(Items(t.q));
        assert m[x] == multiset(t.popped)[x] + multiset(t.removed)[x] + multiset(Items(t.q))[x];
        assert x in t.popped <==> x in multiset(t.popped);
        assert x in t.removed <==> x in multiset(t.removed);
        assert x in Items(t.q) <==> x in multiset(Items(t.q));
      }
    } else {
      FreshStep(t, ops);
      RunConserves(Step(t, ops[0]), ops[1..]);
    }
  }

  lemma EmptyConserves(preferred: seq<string>)
    ensures Conserves(Trace(Empty(preferred), [], [], []))
  {
  }
}
