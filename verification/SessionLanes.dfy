/** Round-robin lane queue (backend/session_lanes.py): the queue itself, on values. */
module SessionLanes {
  import opened Text
  import opened Seqs

  datatype Item = Item(instruction: string, lane: string, source: string, metadata: map<string, string>,
                       queueId: int, enqueuedAt: real)

  /**
   * `queues` with `keys` is the Python dict of lane deques: `keys` lists the present lanes in insertion order.
   * A lane whose deque empties leaves the dict.
   */
  datatype Lanes = Lanes(queues: map<string, seq<Item>>, keys: seq<string>, laneOrder: seq<string>, cursor: nat)

  const DEFAULT_LANES: seq<string> := ["interactive", "bot", "heartbeat", "background", "default"]

  /** `str(name or fallback).strip() or fallback`. */
  function OrDefault(name: string, fallback: string): string {
    if Strip(name) == "" then fallback else Strip(name)
  }

  function OnLane(lane: string): Item -> bool { (x: Item) => x.lane == lane }
  function NotId(id: int): Item -> bool { (x: Item) => x.queueId != id }
  function HasAge(at: real): Item -> bool { (x: Item) => x.enqueuedAt == at }

  function Queue(q: Lanes, lane: string): seq<Item> {
    if lane in q.queues then q.queues[lane] else []
  }

  ghost predicate DistinctIds(xs: seq<Item>) {
    forall i, j | 0 <= i < j < |xs| :: xs[i].queueId != xs[j].queueId
  }

  /** Every item waits in the queue of its own lane. */
  ghost predicate Tagged(q: Lanes) {
    forall l, x | l in q.queues && x in q.queues[l] :: x.lane == l
  }

  ghost predicate Valid(q: Lanes) {
    && NoDup(q.keys)
    && (forall l :: l in q.keys <==> l in q.queues)
    && (forall l | l in q.queues :: q.queues[l] != [] && l in q.laneOrder)
    && Tagged(q)
  }

  // ----- The flattened, age-ordered view -----

  function Flatten(keys: seq<string>, queues: map<string, seq<Item>>): seq<Item> {
    if keys == [] then []
    else (if keys[0] in queues then queues[keys[0]] else []) + Flatten(keys[1..], queues)
  }

  function Items(q: Lanes): seq<Item> {
    Flatten(q.keys, q.queues)
  }

  function InsertByAge(x: Item, sorted: seq<Item>): seq<Item> {
    if sorted == [] || x.enqueuedAt <= sorted[0].enqueuedAt then [x] + sorted
    else [sorted[0]] + InsertByAge(x, sorted[1..])
  }

  /** `sorted(items, key=enqueued_at)`; `SortIsStableSort` and `StableSortIsUnique`: this is that sort and no other. */
  function SortByAge(xs: seq<Item>): seq<Item> {
    if xs == [] then [] else InsertByAge(xs[0], SortByAge(xs[1..]))
  }

  function Snapshot(q: Lanes): seq<Item> {
    SortByAge(Items(q))
  }

  // ----- The operations -----

  function Empty(preferred: seq<string>): Lanes {
    Lanes(map[], [], if preferred == [] then DEFAULT_LANES else preferred, 0)
  }

  function MakeItem(instruction: string, lane: string, source: string, metadata: map<string, string>,
                    id: int, at: real): Item {
    Item(Strip(instruction), OrDefault(lane, "default"), OrDefault(source, "runtime"), metadata, id, at)
  }

  /** Blank names stand for the default lane and source; the texts are stripped, the rest is taken as it is. */
  lemma MadeItem(instruction: string, lane: string, source: string, metadata: map<string, string>, id: int, at: real)
    ensures var x := MakeItem(instruction, lane, source, metadata, id, at);
      && x.lane == (if Blank(lane) then "default" else Strip(lane))
      && x.source == (if Blank(source) then "runtime" else Strip(source))
      && x.instruction == (if Blank(instruction) then "" else Strip(instruction))
      && x.metadata == metadata && x.queueId == id && x.enqueuedAt == at
  {
  }

  function Enqueue(q: Lanes, x: Item): Lanes {
    q.(queues := q.queues[x.lane := Queue(q, x.lane) + [x]],
       keys := if x.lane in q.queues then q.keys else q.keys + [x.lane],
       laneOrder := if x.lane in q.laneOrder then q.laneOrder else q.laneOrder + [x.lane])
  }

  /** The deque of `lane` becomes `rest`; an emptied lane leaves the dict. */
  function SetQueue(q: Lanes, lane: string, rest: seq<Item>): Lanes {
    if rest == [] then q.(queues := q.queues - {lane}, keys := Without(q.keys, lane))
    else q.(queues := q.queues[lane := rest])
  }

  function NonEmpty(q: Lanes): string -> bool { l => Queue(q, l) != [] }

  function Active(q: Lanes): seq<string> {
    Filter(q.laneOrder, NonEmpty(q))
  }

  function PopNext(q: Lanes): (Lanes, Option<Item>) {
    var active := Active(q);
    if active == [] then (q, None)
    else
      var start := q.cursor % |active|;
      assert active[start] in active;
      var queue := Queue(q, active[start]);
      (SetQueue(q, active[start], queue[1..]).(cursor := (start + 1) % |active|), Some(queue[0]))
  }

  /** The first position holding the id, or the length when there is none. */
  function IndexOfId(xs: seq<Item>, id: int): (i: nat)
    ensures i <= |xs|
    ensures i < |xs| ==> xs[i].queueId == id
    ensures forall j | 0 <= j < i :: xs[j].queueId != id
  {
    if xs == [] || xs[0].queueId == id then 0 else 1 + IndexOfId(xs[1..], id)
  }

  function RemoveAt(q: Lanes, index: int): (Lanes, Option<Item>) {
    var flattened := Snapshot(q);
    if index < 0 || index >= |flattened| then (q, None)
    else
      var target := flattened[index];
      var queue := Queue(q, target.lane);
      var i := IndexOfId(queue, target.queueId);
      if i == |queue| then (q, None)
      else (SetQueue(q, target.lane, DeleteAt(queue, i)), Some(queue[i]))
  }

  // ----- Sorting -----

  ghost predicate SortedByAge(xs: seq<Item>) {
    forall i, j | 0 <= i < j < |xs| :: xs[i].enqueuedAt <= xs[j].enqueuedAt
  }

  lemma {:induction false} InsertMultiset(x: Item, s: seq<Item>)
    ensures multiset(InsertByAge(x, s)) == multiset{x} + multiset(s)
  {
    if s == [] || x.enqueuedAt <= s[0].enqueuedAt {
    } else {
      assert s == [s[0]] + s[1..];
      InsertMultiset(x, s[1..]);
    }
  }

  lemma {:induction false} InsertSorted(x: Item, s: seq<Item>)
    requires SortedByAge(s)
    ensures SortedByAge(InsertByAge(x, s))
  {
    if s == [] || x.enqueuedAt <= s[0].enqueuedAt {
    } else {
      var r := InsertByAge(x, s[1..]);
      InsertSorted(x, s[1..]);
      InsertMultiset(x, s[1..]);
      forall k | 0 <= k < |r| ensures s[0].enqueuedAt <= r[k].enqueuedAt {
        assert r[k] in multiset(r);
      }
    }
  }

  lemma {:induction false} SortSorted(xs: seq<Item>)
    ensures SortedByAge(SortByAge(xs))
    ensures multiset(SortByAge(xs)) == multiset(xs)
  {
    if xs != [] {
      assert xs == [xs[0]] + xs[1..];
      SortSorted(xs[1..]);
      InsertSorted(xs[0], SortByAge(xs[1..]));
      InsertMultiset(xs[0], SortByAge(xs[1..]));
    }
  }

  lemma {:induction false} FilterInsert(x: Item, s: seq<Item>, p: Item -> bool)
    requires SortedByAge(s)
    ensures Filter(InsertByAge(x, s), p) == if p(x) then InsertByAge(x, Filter(s, p)) else Filter(s, p)
  {
    if s == [] || x.enqueuedAt <= s[0].enqueuedAt {
      assert ([x] + s)[1..] == s;
      var f := Filter(s, p);
      assert f != [] ==> f[0] in s;
    } else {
      FilterInsert(x, s[1..], p);
      var r := InsertByAge(x, s);
      assert r[1..] == InsertByAge(x, s[1..]);
      var f := Filter(s, p);
      if p(s[0]) {
        assert f[1..] == Filter(s[1..], p);
      }
    }
  }

  /** Sorting by age commutes with dropping items. */
  lemma {:induction false} FilterSort(xs: seq<Item>, p: Item -> bool)
    ensures Filter(SortByAge(xs), p) == SortByAge(Filter(xs, p))
  {
    if xs != [] {
      FilterSort(xs[1..], p);
      SortSorted(xs[1..]);
      FilterInsert(xs[0], SortByAge(xs[1..]), p);
      if p(xs[0]) {
        assert Filter(xs, p)[1..] == Filter(xs[1..], p);
      }
    }
  }

  lemma {:induction false} SortEqualAges(xs: seq<Item>, at: real)
    requires forall x | x in xs :: x.enqueuedAt == at
    ensures SortByAge(xs) == xs
  {
    if xs != [] {
      SortEqualAges(xs[1..], at);
    }
  }

  /** The snapshot order: ascending by age, the same items, and ties in their original order. */
  lemma SortIsStableSort(xs: seq<Item>, at: real)
    ensures SortedByAge(SortByAge(xs))
    ensures multiset(SortByAge(xs)) == multiset(xs)
    ensures Filter(SortByAge(xs), HasAge(at)) == Filter(xs, HasAge(at))
  {
    SortSorted(xs);
    FilterSort(xs, HasAge(at));
    SortEqualAges(Filter(xs, HasAge(at)), at);
  }

  /** The same entries of each age, in the same order. */
  ghost predicate SameAges(xs: seq<Item>, ys: seq<Item>) {
    forall at :: Filter(xs, HasAge(at)) == Filter(ys, HasAge(at))
  }

  /** A sorted list with the same entries of each age, in the same order, is that sort: the three facts determine it. */
  lemma StableSortIsUnique(xs: seq<Item>, ys: seq<Item>)
    requires SortedByAge(ys) && SameAges(ys, xs)
    ensures ys == SortByAge(xs)
  {
    forall at ensures Filter(ys, HasAge(at)) == Filter(SortByAge(xs), HasAge(at)) {
      SortIsStableSort(xs, at);
    }
    SortSorted(xs);
    SameAgesSame(ys, SortByAge(xs));
  }

  lemma {:induction false} SameAgesSame(xs: seq<Item>, ys: seq<Item>)
    requires SortedByAge(xs) && SortedByAge(ys) && SameAges(xs, ys)
    ensures xs == ys
    decreases |xs|
  {
    if xs == [] {
      if ys != [] { StartsNoLater(ys, xs); }
    } else {
      StartsNoLater(xs, ys);
      StartsNoLater(ys, xs);
      SameHead(xs, ys);
      SameRest(xs, ys);
      SameAgesSame(xs[1..], ys[1..]);
      assert xs == [xs[0]] + xs[1..] && ys == [ys[0]] + ys[1..];
    }
  }

  lemma SplitHead(xs: seq<Item>, at: real)
    requires xs != []
    ensures Filter(xs, HasAge(at))
         == if xs[0].enqueuedAt == at then [xs[0]] + Filter(xs[1..], HasAge(at)) else Filter(xs[1..], HasAge(at))
  {
  }

  lemma StartsNoLater(xs: seq<Item>, ys: seq<Item>)
    requires xs != [] && SortedByAge(ys) && SameAges(xs, ys)
    ensures ys != [] && ys[0].enqueuedAt <= xs[0].enqueuedAt
  {
    var at := xs[0].enqueuedAt;
    SplitHead(xs, at);
    assert Filter(ys, HasAge(at))[0] in ys;
  }

  lemma SameHead(xs: seq<Item>, ys: seq<Item>)
    requires xs != [] && ys != [] && xs[0].enqueuedAt == ys[0].enqueuedAt && SameAges(xs, ys)
    ensures xs[0] == ys[0]
  {
    SplitHead(xs, xs[0].enqueuedAt);
    SplitHead(ys, xs[0].enqueuedAt);
    assert Filter(xs, HasAge(xs[0].enqueuedAt))[0] == Filter(ys, HasAge(xs[0].enqueuedAt))[0];
  }

  lemma SameRest(xs: seq<Item>, ys: seq<Item>)
    requires xs != [] && ys != [] && xs[0] == ys[0] && SameAges(xs, ys)
    ensures SameAges(xs[1..], ys[1..])
  {
    forall at ensures Filter(xs[1..], HasAge(at)) == Filter(ys[1..], HasAge(at)) {
      SplitHead(xs, at);
      SplitHead(ys, at);
      assert Filter(xs, HasAge(at)) == Filter(ys, HasAge(at));
      if xs[0].enqueuedAt == at {
        TailOfCons(xs[0], Filter(xs[1..], HasAge(at)), Filter(ys[1..], HasAge(at)));
      }
    }
  }

  lemma TailOfCons(x: Item, a: seq<Item>, b: seq<Item>)
    requires [x] + a == [x] + b
    ensures a == b
  {
    assert a == ([x] + a)[1..] && b == ([x] + b)[1..];
  }

  // ----- Flattening -----

  lemma {:induction false} FlattenMembers(keys: seq<string>, queues: map<string, seq<Item>>, x: Item)
    requires forall l | l in keys :: l in queues
    ensures x in Flatten(keys, queues) <==> exists l | l in keys :: x in queues[l]
  {
    if keys != [] {
      FlattenMembers(keys[1..], queues, x);
      assert keys == [keys[0]] + keys[1..];
    }
  }

  lemma SnapshotMembers(q: Lanes, x: Item)
    requires Valid(q)
    ensures x in Snapshot(q) <==> x.lane in q.queues && x in q.queues[x.lane]
  {
    SortSorted(Items(q));
    assert x in Snapshot(q) <==> x in multiset(Items(q));
    FlattenMembers(q.keys, q.queues, x);
  }

  /** Filtering every queue and then flattening is flattening and then filtering. */
  lemma {:induction false} FlattenFilter(keys: seq<string>, before: map<string, seq<Item>>,
                                         after: map<string, seq<Item>>, p: Item -> bool)
    requires forall l | l in keys :: l in before && l in after && after[l] == Filter(before[l], p)
    ensures Flatten(keys, after) == Filter(Flatten(keys, before), p)
  {
    if keys != [] {
      FlattenFilter(keys[1..], before, after, p);
      FilterConcat(before[keys[0]], Flatten(keys[1..], before), p);
    }
  }

  /** A lane whose queue is empty can leave the dict without changing the flattened view. */
  lemma {:induction false} FlattenDropEmpty(keys: seq<string>, queues: map<string, seq<Item>>, lane: string)
    requires forall l | l in keys :: l in queues
    requires lane in queues && queues[lane] == []
    ensures Flatten(Without(keys, lane), queues - {lane}) == Flatten(keys, queues)
  {
    if keys != [] {
      FlattenDropEmpty(keys[1..], queues, lane);
      var rest := Without(keys, lane);
      if keys[0] != lane {
        assert rest[1..] == Without(keys[1..], lane);
      }
    }
  }

  lemma SetQueueValid(q: Lanes, lane: string, rest: seq<Item>)
    requires Valid(q) && lane in q.queues
    requires forall x | x in rest :: x in q.queues[lane]
    ensures Valid(SetQueue(q, lane, rest))
    ensures forall l :: Queue(SetQueue(q, lane, rest), l) == if l == lane then rest else Queue(q, l)
  {
    if rest == [] {
      FilterNoDup(q.keys, NotEq(lane));
    }
  }

  /** Shrinking one queue by a filter that keeps every other lane's items filters the flattened view. */
  lemma SetQueueItems(q: Lanes, lane: string, rest: seq<Item>, p: Item -> bool)
    requires Valid(q) && lane in q.queues
    requires rest == Filter(q.queues[lane], p)
    requires forall l, x | l in q.queues && l != lane && x in q.queues[l] :: p(x)
    ensures Valid(SetQueue(q, lane, rest))
    ensures Items(SetQueue(q, lane, rest)) == Filter(Items(q), p)
  {
    SetQueueValid(q, lane, rest);
    var after := q.queues[lane := rest];
    forall l | l in q.keys ensures after[l] == Filter(q.queues[l], p) {
      if l != lane { FilterAll(q.queues[l], p); }
    }
    FlattenFilter(q.keys, q.queues, after, p);
    if rest == [] {
      FlattenDropEmpty(q.keys, after, lane);
      assert after - {lane} == q.queues - {lane};
    }
  }

  lemma ItemsEnqueue(q: Lanes, x: Item)
    requires Valid(q)
    ensures Valid(Enqueue(q, x))
    ensures multiset(Items(Enqueue(q, x))) == multiset(Items(q)) + multiset{x}
  {
    var q' := Enqueue(q, x);
    if x.lane in q.queues {
      FlattenGrow(q.keys, q.queues, x);
    } else {
      assert q'.queues[x.lane] == [x];
      FlattenSame(q.keys, q.queues, q'.queues);
      FlattenSnoc(q.keys, q'.queues, x.lane);
    }
  }

  lemma {:induction false} FlattenSame(keys: seq<string>, a: map<string, seq<Item>>, b: map<string, seq<Item>>)
    requires forall l | l in keys :: l in a && l in b && a[l] == b[l]
    ensures Flatten(keys, a) == Flatten(keys, b)
  {
    if keys != [] { FlattenSame(keys[1..], a, b); }
  }

  lemma {:induction false} FlattenSnoc(keys: seq<string>, queues: map<string, seq<Item>>, lane: string)
    requires lane in queues && forall l | l in keys :: l in queues
    ensures Flatten(keys + [lane], queues) == Flatten(keys, queues) + queues[lane]
  {
    if keys != [] {
      assert (keys + [lane])[1..] == keys[1..] + [lane];
      FlattenSnoc(keys[1..], queues, lane);
    } else {
      assert keys + [lane] == [lane];
      assert Flatten([lane], queues) == queues[lane] + Flatten([], queues);
    }
  }

  lemma {:induction false} FlattenGrow(keys: seq<string>, queues: map<string, seq<Item>>, x: Item)
    requires NoDup(keys) && x.lane in keys && forall l | l in keys :: l in queues
    ensures multiset(Flatten(keys, queues[x.lane := queues[x.lane] + [x]]))
         == multiset(Flatten(keys, queues)) + multiset{x}
  {
    var after := queues[x.lane := queues[x.lane] + [x]];
    if keys[0] == x.lane {
      FlattenSame(keys[1..], queues, after);
    } else {
      assert x.lane in keys[1..];
      FlattenGrow(keys[1..], queues, x);
    }
  }

  // ----- Distinct queue ids -----

  /** Distinctness passes to any rearranged part. */
  lemma DistinctPart(xs: seq<Item>, ys: seq<Item>)
    requires DistinctIds(xs) && multiset(ys) <= multiset(xs)
    ensures DistinctIds(ys)
  {
    forall i, j | 0 <= i < j < |ys| ensures ys[i].queueId != ys[j].queueId {
      assert ys[i] in multiset(ys) && ys[j] in multiset(ys);
      assert ys[i] in multiset(xs) && ys[j] in multiset(xs);
      if ys[i] == ys[j] {
        NoDupCountsOnce(xs, ys[i]);
        CountTwice(ys, i, j);
      }
    }
  }

  lemma {:induction false} FlattenLane(keys: seq<string>, queues: map<string, seq<Item>>, lane: string)
    requires NoDup(keys) && forall l | l in keys :: l in queues && forall x | x in queues[l] :: x.lane == l
    ensures Filter(Flatten(keys, queues), OnLane(lane)) == if lane in keys then queues[lane] else []
  {
    if keys != [] {
      FlattenLane(keys[1..], queues, lane);
      FilterConcat(queues[keys[0]], Flatten(keys[1..], queues), OnLane(lane));
      if keys[0] == lane {
        FilterAll(queues[lane], OnLane(lane));
      } else {
        FilterNone(queues[keys[0]], OnLane(lane));
      }
    }
  }

  lemma QueueOfLane(q: Lanes, lane: string)
    requires Valid(q)
    ensures Filter(Items(q), OnLane(lane)) == Queue(q, lane)
    ensures multiset(Queue(q, lane)) <= multiset(Items(q))
  {
    FlattenLane(q.keys, q.queues, lane);
    FilterMultiset(Items(q), OnLane(lane), (x: Item) => x.lane != lane);
  }

  lemma DistinctAllBut(xs: seq<Item>, i: nat)
    requires DistinctIds(xs) && i < |xs|
    ensures AllBut(xs, i, NotId(xs[i].queueId))
  {
  }

  lemma SameIdSameItem(xs: seq<Item>, x: Item, y: Item)
    requires DistinctIds(xs) && x in xs && y in xs && x.queueId == y.queueId
    ensures x == y
  {
  }

  lemma InItems(q: Lanes, x: Item)
    requires Valid(q)
    ensures x in Items(q) <==> x.lane in q.queues && x in q.queues[x.lane]
  {
    FlattenMembers(q.keys, q.queues, x);
  }

  /** Dropping one item from its queue drops exactly that item from the flattened view. */
  lemma DropFromQueue(q: Lanes, lane: string, i: nat)
    requires Valid(q) && DistinctIds(Items(q)) && lane in q.queues && i < |q.queues[lane]|
    ensures var x, q' := q.queues[lane][i], SetQueue(q, lane, DeleteAt(q.queues[lane], i));
            && x in Items(q) && Valid(q') && Items(q') == Filter(Items(q), NotId(x.queueId))
  {
    var queue := q.queues[lane];
    var p := NotId(queue[i].queueId);
    QueueOfLane(q, lane);
    DistinctPart(Items(q), queue);
    DistinctAllBut(queue, i);
    FilterDeletes(queue, i, p);
    InItems(q, queue[i]);
    forall l, x | l in q.queues && l != lane && x in q.queues[l] ensures p(x) {
      InItems(q, x);
    }
    SetQueueItems(q, lane, DeleteAt(queue, i), p);
  }

  lemma DropOneId(xs: seq<Item>, i: nat)
    requires DistinctIds(xs) && i < |xs|
    ensures Filter(xs, NotId(xs[i].queueId)) == DeleteAt(xs, i)
  {
    DistinctAllBut(xs, i);
    FilterDeletes(xs, i, NotId(xs[i].queueId));
  }

  /** `remove_at(i)` returns the i-th snapshot entry, and the next snapshot is this one with position i deleted. */
  lemma RemoveAtDeletes(q: Lanes, index: int)
    requires Valid(q) && DistinctIds(Items(q))
    ensures Valid(RemoveAt(q, index).0)
    ensures 0 <= index < |Snapshot(q)| ==>
              && RemoveAt(q, index).1 == Some(Snapshot(q)[index])
              && Items(RemoveAt(q, index).0) == Filter(Items(q), NotId(Snapshot(q)[index].queueId))
              && Snapshot(RemoveAt(q, index).0) == DeleteAt(Snapshot(q), index)
    ensures !(0 <= index < |Snapshot(q)|) ==> RemoveAt(q, index) == (q, None)
  {
    if 0 <= index < |Snapshot(q)| {
      var s := Snapshot(q);
      var x := s[index];
      SortSorted(Items(q));
      DistinctPart(Items(q), s);
      SnapshotMembers(q, x);
      var queue := q.queues[x.lane];
      var i := IndexOfId(queue, x.queueId);
      DropFromQueue(q, x.lane, i);
      InItems(q, x);
      SameIdSameItem(Items(q), x, queue[i]);
      FilterSort(Items(q), NotId(x.queueId));
      DropOneId(s, index);
    }
  }

  lemma PopStep(q: Lanes)
    requires Active(q) != []
    ensures var start := q.cursor % |Active(q)|;
            var lane := Active(q)[start];
      && lane in q.queues && q.queues[lane] != []
      && PopNext(q) == (SetQueue(q, lane, q.queues[lane][1..]).(cursor := (start + 1) % |Active(q)|),
            Some(q.queues[lane][0]))
  {
    var lane := Active(q)[q.cursor % |Active(q)|];
    assert lane in Active(q);
  }

  /** `pop_next` takes the head of the cursor's lane out of the flattened view and nothing else. */
  lemma PopNextTakes(q: Lanes)
    requires Valid(q) && DistinctIds(Items(q))
    ensures Valid(PopNext(q).0)
    ensures PopNext(q).1 == None ==> PopNext(q).0 == q
    ensures PopNext(q).1.Some? ==>
              && var x := PopNext(q).1.value;
              && x in Items(q) && Queue(q, x.lane) == [x] + Queue(PopNext(q).0, x.lane)
              && Items(PopNext(q).0) == Filter(Items(q), NotId(x.queueId))
              && (forall l | l != x.lane :: Queue(PopNext(q).0, l) == Queue(q, l))
  {
    if Active(q) != [] {
      PopStep(q);
      PopLaneTakes(q, Active(q)[q.cursor % |Active(q)|]);
    }
  }

  lemma PopNextEmpty(q: Lanes)
    requires Valid(q)
    ensures PopNext(q).1 == None <==> Items(q) == []
  {
    if Active(q) == [] {
      forall x ensures x !in Items(q) {
        InItems(q, x);
        assert x.lane in q.queues ==> x.lane in Active(q);
      }
    } else {
      var lane := Active(q)[0];
      assert lane in Active(q);
      InItems(q, q.queues[lane][0]);
    }
  }

  lemma PopLaneTakes(q: Lanes, lane: string)
    requires Valid(q) && DistinctIds(Items(q)) && lane in q.queues
    ensures var x, q' := q.queues[lane][0], SetQueue(q, lane, q.queues[lane][1..]);
            && x in Items(q) && x.lane == lane && Queue(q, lane) == [x] + Queue(q', lane)
            && Valid(q') && Items(q') == Filter(Items(q), NotId(x.queueId))
            && (forall l | l != lane :: Queue(q', l) == Queue(q, l))
  {
    var queue := q.queues[lane];
    assert DeleteAt(queue, 0) == queue[1..];
    DropFromQueue(q, lane, 0);
    SetQueueValid(q, lane, queue[1..]);
  }

  // ----- What every operation keeps -----

  ghost predicate Ok(q: Lanes) {
    Valid(q) && DistinctIds(Items(q))
  }

  lemma EnqueueOk(q: Lanes, x: Item)
    requires Ok(q) && forall y | y in Items(q) :: y.queueId != x.queueId
    ensures Ok(Enqueue(q, x))
  {
    ItemsEnqueue(q, x);
    DistinctPart(Items(q) + [x], Items(Enqueue(q, x)));
  }

  lemma DistinctShrinks(q: Lanes, q': Lanes, id: int)
    requires DistinctIds(Items(q)) && Items(q') == Filter(Items(q), NotId(id))
    ensures DistinctIds(Items(q'))
  {
    FilterMultiset(Items(q), NotId(id), (x: Item) => x.queueId == id);
    DistinctPart(Items(q), Items(q'));
  }

  lemma PopOk(q: Lanes)
    requires Ok(q)
    ensures Ok(PopNext(q).0)
  {
    PopNextTakes(q);
    if PopNext(q).1.Some? {
      DistinctShrinks(q, PopNext(q).0, PopNext(q).1.value.queueId);
    }
  }

  lemma RemoveOk(q: Lanes, index: int)
    requires Ok(q)
    ensures Ok(RemoveAt(q, index).0)
  {
    RemoveAtDeletes(q, index);
    if 0 <= index < |Snapshot(q)| {
      DistinctShrinks(q, RemoveAt(q, index).0, Snapshot(q)[index].queueId);
    }
  }
}
