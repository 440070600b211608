/** Whose turn it is while lanes come and go: the exact rule, a bound on waiting, and a way to wait forever. */
module SessionLaneTurns {
  import opened Seqs
  import opened SessionLanes
  import opened SessionLaneRuns
  import opened SessionLaneFairness

  /** How many active lanes come before this one. */
  function Ahead(q: Lanes, lane: string): (n: nat)
    requires lane in Active(q)
    ensures n < |Active(q)| && Active(q)[n] == lane
  {
    IndexOf(Active(q), lane)
  }

  // ----- The neighbour's turn -----

  ghost predicate NoPops(ops: seq<Op>) {
    forall op | op in ops :: !op.OpPop?
  }

  lemma {:induction false} CursorStays(q: Lanes, ops: seq<Op>)
    requires Tagged(q) && NoPops(ops)
    ensures var q' := After(q, ops);
      q'.cursor == q.cursor && Tagged(q') && (NoDup(q.laneOrder) ==> NoDup(q'.laneOrder))
    decreases |ops|
  {
    if ops != [] {
      assert ops[0] in ops;
      ApplyTagged(q, ops[0]);
      CursorStays(Apply(q, ops[0]), ops[1..]);
    }
  }

  /**
   * The next pop serves an active lane exactly when the lane has the cursor's place in the active list; if the lane
   * order names no lane twice, when as many active lanes come before it as the cursor says.
   */
  lemma NextPopServes(q: Lanes, lane: string)
    requires Tagged(q) && lane in Active(q)
    ensures PopNext(q).1.Some?
    ensures PopNext(q).1.value.lane == lane <==> Active(q)[q.cursor % |Active(q)|] == lane
    ensures NoDup(q.laneOrder) ==>
              (PopNext(q).1.value.lane == lane <==> Ahead(q, lane) == q.cursor % |Active(q)|)
  {
    PopServes(q);
    if NoDup(q.laneOrder) { FilterNoDup(q.laneOrder, NonEmpty(q)); }
  }

  /**
   * A pop, then any enqueues and removals, then a pop: the second serves the lane next in turn, if that is still
   * active, exactly when it has its place in the active list still (modulo the lanes now active). If the lane order
   * names no lane twice, that is when as many active lanes come before it now as did before: a lane in front of it
   * that emptied, was emptied or became active in between makes the pop serve another lane.
   */
  lemma NeighbourAfterChanges(q: Lanes, between: seq<Op>)
    requires Tagged(q) && Active(q) != [] && NoPops(between)
    ensures var place := (q.cursor % |Active(q)| + 1) % |Active(q)|;
            var next := Active(q)[place];
            var q' := After(PopNext(q).0, between);
      next in Active(q') ==>
        && PopNext(q').1.Some?
        && (PopNext(q').1.value.lane == next <==> Active(q')[place % |Active(q')|] == next)
        && (NoDup(q.laneOrder) ==>
              (PopNext(q').1.value.lane == next <==> Ahead(q', next) == Ahead(q, next) % |Active(q')|))
  {
    var place := (q.cursor % |Active(q)| + 1) % |Active(q)|;
    var next := Active(q)[place];
    PopServes(q);
    ApplyTagged(q, OpPop);
    CursorStays(PopNext(q).0, between);
    if NoDup(q.laneOrder) {
      FilterNoDup(q.laneOrder, NonEmpty(q));
      assert next in Active(q) && Ahead(q, next) == place;
    }
    var q' := After(PopNext(q).0, between);
    if next in Active(q') {
      NextPopServes(q', next);
    }
  }

  // ----- A bound on waiting -----

  /** The step moves the lane, without serving it, from its place at or after the cursor to one before the cursor. */
  ghost predicate PassedOver(q: Lanes, op: Op, lane: string)
    requires lane in Active(q) && lane in Active(Apply(q, op))
  {
    Ahead(q, lane) >= Apply(q, op).cursor > Ahead(Apply(q, op), lane)
  }

  /**
   * Until it is served the lane keeps something queued and no step passes it over; at most `most` lanes are active,
   * and never fewer than the cursor. Apart from that lanes may come and go anywhere.
   */
  ghost predicate Undisturbed(q: Lanes, ops: seq<Op>, lane: string, most: nat)
    decreases |ops|
  {
    && lane in Active(q) && q.cursor <= |Active(q)| <= most
    && (ops == [] || Served(q, ops[0]) == [lane]
        || (lane in Active(Apply(q, ops[0])) && !PassedOver(q, ops[0], lane)
            && Undisturbed(Apply(q, ops[0]), ops[1..], lane, most)))
  }

  function Pops(ops: seq<Op>): nat {
    if ops == [] then 0 else (if ops[0].OpPop? then 1 else 0) + Pops(ops[1..])
  }

  /** The pops left to the lane's turn: to the end of this round, or of the next if the cursor is past the lane. */
  function TurnsLeft(q: Lanes, lane: string, most: nat): int
    requires lane in Active(q)
  {
    (if Ahead(q, lane) >= q.cursor then most else 2 * most) - q.cursor
  }

  lemma PopGetsCloser(q: Lanes, lane: string, most: nat)
    requires Tagged(q) && lane in Active(q) && q.cursor <= |Active(q)| <= most && Served(q, OpPop) != [lane]
    requires lane in Active(Apply(q, OpPop)) && !PassedOver(q, OpPop, lane)
    ensures TurnsLeft(Apply(q, OpPop), lane, most) < TurnsLeft(q, lane, most)
  {
    PopServes(q);
    var k, p, c := |Active(q)|, Ahead(q, lane), q.cursor;
    NextCursor(c, k);
    assert c % k != p;
  }

  lemma NextCursor(c: nat, k: nat)
    requires k > 0 && c <= k
    ensures c % k == if c == k then 0 else c
    ensures (c % k + 1) % k == if c == k then (if k == 1 then 0 else 1) else if c + 1 == k then 0 else c + 1
  {
    if c == k { ModUnique(c, k, 1, 0); } else { ModUnique(c, k, 0, c); }
    if c % k + 1 == k { ModUnique(k, k, 1, 0); } else { ModUnique(c % k + 1, k, 0, c % k + 1); }
  }

  /**
   * A waiting lane that is not passed over is served within `most` pops, or twice as many if the cursor is past it at
   * the start, however the other lanes come and go.
   */
  lemma {:induction false} ServedInTime(q: Lanes, ops: seq<Op>, lane: string, most: nat)
    requires Tagged(q) && Undisturbed(q, ops, lane, most) && Pops(ops) >= TurnsLeft(q, lane, most)
    ensures lane in PopLanes(q, ops)
    decreases |ops|
  {
    if ops != [] && Served(q, ops[0]) != [lane] {
      var q' := Apply(q, ops[0]);
      ApplyTagged(q, ops[0]);
      StepRotates(q, ops[0]);
      if ops[0].OpPop? { PopGetsCloser(q, lane, most); }
      ServedInTime(q', ops[1..], lane, most);
    }
  }

  // ----- Waiting forever although no pop empties a lane -----

  ghost predicate NewId(q: Lanes, x: Item) {
    forall y | y in Items(q) :: y.queueId != x.queueId
  }

  /** z is empty, a has at least three items, b waits, and the cursor is at a. */
  ghost predicate Toggling(q: Lanes, z: string, a: string, b: string, waiting: seq<Item>) {
    && Ok(q) && q.laneOrder == [z, a, b] && NoDup(q.laneOrder) && q.cursor % 2 == 0
    && Queue(q, z) == [] && |Queue(q, a)| >= 3 && Queue(q, b) == waiting && waiting != []
  }

  datatype Triple = Triple(onZ: Item, onA: Item, alsoOnA: Item)

  ghost predicate FreshRound(q: Lanes, t: Triple, z: string, a: string) {
    && t.onZ.lane == z && t.onA.lane == a && t.alsoOnA.lane == a
    && NewId(q, t.onZ) && NewId(q, t.onA) && NewId(q, t.alsoOnA)
    && NoDup([t.onZ.queueId, t.onA.queueId, t.alsoOnA.queueId])
  }

  /** No item of `after` is new beyond x. */
  ghost predicate OnlyNew(before: Lanes, x: Item, after: Lanes) {
    forall y | y in Items(after) :: y in Items(before) || y == x
  }

  lemma PopKeeps(q: Lanes)
    requires Ok(q)
    ensures Ok(PopNext(q).0) && forall y | y in Items(PopNext(q).0) :: y in Items(q)
  {
    PopOk(q);
    PopNextTakes(q);
  }

  lemma EnqueueKeeps(q: Lanes, x: Item)
    requires Ok(q) && NewId(q, x)
    ensures Ok(Enqueue(q, x)) && OnlyNew(q, x, Enqueue(q, x)) && x in Items(Enqueue(q, x))
  {
    EnqueueOk(q, x);
    ItemsEnqueue(q, x);
    forall y | y in Items(Enqueue(q, x)) ensures y in Items(q) || y == x {
      assert y in multiset(Items(Enqueue(q, x)));
    }
    assert x in multiset(Items(Enqueue(q, x)));
  }

  /** After the two pops of a round: z's item is still there. */
  ghost predicate Mid(q: Lanes, q3: Lanes, z: string, a: string, b: string, waiting: seq<Item>, x: Item) {
    && Ok(q3) && OnlyNew(q, x, q3) && x in Items(q3)
    && q3.laneOrder == [z, a, b] && q3.cursor == 2
    && Queue(q3, z) == [x] && Queue(q3, a) != [] && Queue(q3, b) == waiting
  }

  /** From the start of a round to the moment z's item is in the way: a is served twice. */
  lemma ServesTwice(q: Lanes, z: string, a: string, b: string, waiting: seq<Item>, x: Item)
    requires Toggling(q, z, a, b, waiting) && x.lane == z && NewId(q, x)
    ensures var q1 := PopNext(q).0;
            var q2 := Enqueue(q1, x);
            var q3 := PopNext(q2).0;
      && Served(q, OpPop) == [a] && Served(q2, OpPop) == [a]
      && Mid(q, q3, z, a, b, waiting, x)
  {
    ThreeDistinct(z, a, b);
    FirstPop(q, z, a, b, waiting);
    var q1 := PopNext(q).0;
    EnqueueKeeps(q1, x);
    var q2 := Enqueue(q1, x);
    SecondPop(q2, z, a, b);
    PopKeeps(q2);
    InItems(PopNext(q2).0, x);
    assert Queue(q, a)[1..][1..] == Queue(q, a)[2..];
  }

  lemma FirstPop(q: Lanes, z: string, a: string, b: string, waiting: seq<Item>)
    requires Toggling(q, z, a, b, waiting) && z != a && z != b && a != b
    ensures var q1 := PopNext(q).0;
      && Served(q, OpPop) == [a] && Ok(q1) && (forall y | y in Items(q1) :: y in Items(q))
      && q1.laneOrder == q.laneOrder && q1.cursor == 1
      && Queue(q1, z) == [] && Queue(q1, a) == Queue(q, a)[1..] && Queue(q1, b) == waiting
  {
    PopWithoutZ(q, z, a, b);
    PopKeeps(q);
  }

  lemma PopWithoutZ(q: Lanes, z: string, a: string, b: string)
    requires Tagged(q) && q.laneOrder == [z, a, b] && q.cursor % 2 == 0 && z != a && z != b && a != b
    requires Queue(q, z) == [] && Queue(q, a) != [] && Queue(q, b) != []
    ensures var q1 := PopNext(q).0;
      && Served(q, OpPop) == [a] && q1.laneOrder == q.laneOrder && q1.cursor == 1
      && Queue(q1, z) == [] && Queue(q1, a) == Queue(q, a)[1..] && Queue(q1, b) == Queue(q, b)
  {
    ActiveOfThree(q, z, a, b);
    assert Active(q) == [a, b];
    PopSets(q, [a, b]);
  }

  lemma SecondPop(q: Lanes, z: string, a: string, b: string)
    requires Tagged(q) && q.laneOrder == [z, a, b] && q.cursor == 1 && z != a && z != b && a != b
    requires Queue(q, z) != [] && Queue(q, a) != [] && Queue(q, b) != []
    ensures var q1 := PopNext(q).0;
      && Served(q, OpPop) == [a] && q1.laneOrder == q.laneOrder && q1.cursor == 2
      && Queue(q1, z) == Queue(q, z) && Queue(q1, a) == Queue(q, a)[1..] && Queue(q1, b) == Queue(q, b)
  {
    ActiveOfThree(q, z, a, b);
    assert Active(q) == [z, a, b];
    PopSets(q, [z, a, b]);
  }

  /** Removing the only item of a lane by its index in the snapshot. */
  lemma RemoveLast(q: Lanes, x: Item)
    requires Ok(q) && x in Items(q) && Queue(q, x.lane) == [x]
    ensures var q' := RemoveAt(q, IndexOfId(Snapshot(q), x.queueId)).0;
      && Ok(q') && q'.laneOrder == q.laneOrder && q'.cursor == q.cursor
      && (forall y | y in Items(q') :: y in Items(q) && y.queueId != x.queueId)
      && forall l :: Queue(q', l) == if l == x.lane then [] else Queue(q, l)
  {
    var at := IndexOfId(Snapshot(q), x.queueId);
    SnapshotHolds(q, x);
    RemoveOk(q, at);
    RemoveAtDeletes(q, at);
    assert DeleteAt([x], 0) == [];
    SetQueueValid(q, x.lane, []);
  }

  lemma SnapshotHolds(q: Lanes, x: Item)
    requires Ok(q) && x in Items(q)
    ensures var at := IndexOfId(Snapshot(q), x.queueId); at < |Snapshot(q)| && Snapshot(q)[at] == x
  {
    SortSorted(Items(q));
    assert x in multiset(Snapshot(q));
    var at := IndexOfId(Snapshot(q), x.queueId);
    assert Snapshot(q)[at] in multiset(Items(q));
    SameIdSameItem(Items(q), Snapshot(q)[at], x);
  }

  lemma UnrollPair(q: Lanes, o1: Op, o2: Op, rest: seq<Op>)
    requires !o2.OpPop?
    ensures var q2 := Apply(Apply(q, o1), o2);
      && After(q, [o1] + ([o2] + rest)) == After(q2, rest)
      && PopLanes(q, [o1] + ([o2] + rest)) == Served(q, o1) + PopLanes(q2, rest)
  {
    UnrollTwo(q, o1, o2, rest);
    assert [] + PopLanes(Apply(Apply(q, o1), o2), rest) == PopLanes(Apply(Apply(q, o1), o2), rest);
  }

  lemma UnrollSix(q: Lanes, o1: Op, o2: Op, o3: Op, o4: Op, o5: Op, o6: Op)
    requires !o2.OpPop? && !o4.OpPop? && !o5.OpPop? && !o6.OpPop?
    ensures var q2 := Apply(Apply(q, o1), o2);
            var q4 := Apply(Apply(q2, o3), o4);
            var ops := [o1] + ([o2] + ([o3] + ([o4] + ([o5] + ([o6] + [])))));
      After(q, ops) == Apply(Apply(q4, o5), o6) && PopLanes(q, ops) == Served(q, o1) + (Served(q2, o3) + [])
  {
    var q2 := Apply(Apply(q, o1), o2);
    var q4 := Apply(Apply(q2, o3), o4);
    var last := [o5] + ([o6] + []);
    UnrollPair(q, o1, o2, [o3] + ([o4] + last));
    UnrollPair(q2, o3, o4, last);
    UnrollPair(q4, o5, o6, []);
  }

  /** Pop, put an item on z, pop, take it back by its index in the snapshot, refill a. */
  lemma RoundOps(q: Lanes, t: Triple) returns (round: seq<Op>)
    ensures IsRound(round, t) && After(q, round) == RoundEnd(q, t)
    ensures PopLanes(q, round) == Served(q, OpPop) + Served(Enqueue(PopNext(q).0, t.onZ), OpPop)
  {
    var at := IndexOfId(Snapshot(PopNext(Enqueue(PopNext(q).0, t.onZ)).0), t.onZ.queueId);
    UnrollSix(q, OpPop, OpEnqueue(t.onZ), OpPop, OpRemove(at), OpEnqueue(t.onA), OpEnqueue(t.alsoOnA));
    round := [OpPop] + ([OpEnqueue(t.onZ)] + ([OpPop] + ([OpRemove(at)]
             + ([OpEnqueue(t.onA)] + ([OpEnqueue(t.alsoOnA)] + [])))));
    var second := Served(Enqueue(PopNext(q).0, t.onZ), OpPop);
    assert second + [] == second;
  }

  lemma RefillOne(q: Lanes, x: Item)
    requires Ok(q) && NewId(q, x) && x.lane in q.laneOrder
    ensures var q' := Enqueue(q, x);
      && Ok(q') && OnlyNew(q, x, q') && q'.laneOrder == q.laneOrder && q'.cursor == q.cursor
      && forall l :: Queue(q', l) == if l == x.lane then Queue(q, l) + [x] else Queue(q, l)
  {
    EnqueueKeeps(q, x);
  }

  lemma RemovedMid(q: Lanes, q3: Lanes, z: string, a: string, b: string, waiting: seq<Item>, t: Triple)
    requires Mid(q, q3, z, a, b, waiting, t.onZ) && z != a && z != b && FreshRound(q, t, z, a)
    ensures var q4 := RemoveAt(q3, IndexOfId(Snapshot(q3), t.onZ.queueId)).0;
      && Ok(q4) && q4.laneOrder == [z, a, b] && q4.cursor == 2
      && Queue(q4, z) == [] && Queue(q4, a) != [] && Queue(q4, b) == waiting
      && (forall y | y in Items(q4) :: y in Items(q)) && NewId(q4, t.onA) && NewId(q4, t.alsoOnA)
  {
    RemoveLast(q3, t.onZ);
  }

  lemma FinishRound(q: Lanes, q3: Lanes, z: string, a: string, b: string, waiting: seq<Item>, t: Triple)
    requires Mid(q, q3, z, a, b, waiting, t.onZ) && waiting != [] && z != a && z != b && a != b && NoDup([z, a, b])
    requires FreshRound(q, t, z, a)
    ensures var q4 := RemoveAt(q3, IndexOfId(Snapshot(q3), t.onZ.queueId)).0;
            var q6 := Enqueue(Enqueue(q4, t.onA), t.alsoOnA);
      Toggling(q6, z, a, b, waiting) && forall y | y in Items(q6) :: y in Items(q) || y == t.onA || y == t.alsoOnA
  {
    ThreeDistinct(t.onZ.queueId, t.onA.queueId, t.alsoOnA.queueId);
    RemovedMid(q, q3, z, a, b, waiting, t);
    var q4 := RemoveAt(q3, IndexOfId(Snapshot(q3), t.onZ.queueId)).0;
    assert q4.laneOrder[1] == a;
    RefillOne(q4, t.onA);
    RefillOne(Enqueue(q4, t.onA), t.alsoOnA);
  }

  /** The state after a round. */
  function RoundEnd(q: Lanes, t: Triple): Lanes {
    var q3 := PopNext(Enqueue(PopNext(q).0, t.onZ)).0;
    Enqueue(Enqueue(RemoveAt(q3, IndexOfId(Snapshot(q3), t.onZ.queueId)).0, t.onA), t.alsoOnA)
  }

  lemma ToggleKeeps(q: Lanes, z: string, a: string, b: string, waiting: seq<Item>, t: Triple)
    requires Toggling(q, z, a, b, waiting) && FreshRound(q, t, z, a)
    ensures Toggling(RoundEnd(q, t), z, a, b, waiting)
    ensures Served(q, OpPop) == [a] && Served(Enqueue(PopNext(q).0, t.onZ), OpPop) == [a]
    ensures forall y | y in Items(RoundEnd(q, t)) :: y in Items(q) || y == t.onA || y == t.alsoOnA
  {
    ThreeDistinct(z, a, b);
    ServesTwice(q, z, a, b, waiting, t.onZ);
    FinishRound(q, PopNext(Enqueue(PopNext(q).0, t.onZ)).0, z, a, b, waiting, t);
  }

  function RoundIds(rounds: seq<Triple>): seq<int> {
    if rounds == [] then []
    else [rounds[0].onZ.queueId, rounds[0].onA.queueId, rounds[0].alsoOnA.queueId] + RoundIds(rounds[1..])
  }

  ghost predicate FreshRounds(q: Lanes, rounds: seq<Triple>, z: string, a: string) {
    && (forall t | t in rounds :: t.onZ.lane == z && t.onA.lane == a && t.alsoOnA.lane == a)
    && NoDup(RoundIds(rounds)) && forall y | y in Items(q) :: y.queueId !in RoundIds(rounds)
  }

  /** One round of operations: pop, enqueue on z, pop, remove, enqueue on a twice. */
  predicate IsRound(ops: seq<Op>, t: Triple) {
    && |ops| == 6 && ops[0] == OpPop && ops[1] == OpEnqueue(t.onZ) && ops[2] == OpPop && ops[3].OpRemove?
    && ops[4] == OpEnqueue(t.onA) && ops[5] == OpEnqueue(t.alsoOnA)
  }

  predicate InRounds(ops: seq<Op>, rounds: seq<Triple>)
    decreases |rounds|
  {
    if rounds == [] then ops == []
    else |ops| >= 6 && IsRound(ops[..6], rounds[0]) && InRounds(ops[6..], rounds[1..])
  }

  lemma FirstRoundFresh(q: Lanes, rounds: seq<Triple>, z: string, a: string)
    requires FreshRounds(q, rounds, z, a) && rounds != []
    ensures FreshRound(q, rounds[0], z, a)
    ensures NoDup(RoundIds(rounds[1..])) && forall y | y in Items(q) :: y.queueId !in RoundIds(rounds[1..])
    ensures rounds[0].onA.queueId !in RoundIds(rounds[1..]) && rounds[0].alsoOnA.queueId !in RoundIds(rounds[1..])
  {
    var t, ids, rest := rounds[0], RoundIds(rounds), RoundIds(rounds[1..]);
    assert t in rounds;
    assert ids[0] == t.onZ.queueId && ids[1] == t.onA.queueId && ids[2] == t.alsoOnA.queueId && ids[3..] == rest;
    var three := [t.onZ.queueId, t.onA.queueId, t.alsoOnA.queueId];
    forall i, j | 0 <= i < j < 3 ensures three[i] != three[j] {
      assert three[i] == ids[i] && three[j] == ids[j];
    }
    forall i | 0 <= i < |rest| ensures rest[i] == ids[3 + i] {}
    assert t.onZ.queueId in ids && t.onA.queueId in ids && t.alsoOnA.queueId in ids;
    assert forall id | id in rest :: id in ids;
  }

  /** n rounds' worth of turns, all the same lane's. */
  function Turns(a: string, n: nat): (r: seq<string>)
    ensures |r| == 2 * n && forall l | l in r :: l == a
  {
    if n == 0 then [] else [a, a] + Turns(a, n - 1)
  }

  /**
   * A second way to wait forever, in which no pop empties a lane: with lanes z, a, b, an item put on z between two
   * pops and taken back after them makes both serve a. Any number of such rounds serves a only, and b still waits.
   */
  lemma {:induction false} TogglingStarves(q: Lanes, z: string, a: string, b: string, waiting: seq<Item>,
                                           rounds: seq<Triple>)
    returns (ops: seq<Op>)
    requires Toggling(q, z, a, b, waiting) && FreshRounds(q, rounds, z, a)
    ensures InRounds(ops, rounds)
    ensures Toggling(After(q, ops), z, a, b, waiting) && PopLanes(q, ops) == Turns(a, |rounds|)
    decreases |rounds|
  {
    if rounds == [] {
      ops := [];
    } else {
      var round, q' := OneRound(q, z, a, b, waiting, rounds);
      var rest := TogglingStarves(q', z, a, b, waiting, rounds[1..]);
      ops := round + rest;
      AfterConcat(q, round, rest);
      assert ops[..6] == round && ops[6..] == rest;
    }
  }

  lemma OneRound(q: Lanes, z: string, a: string, b: string, waiting: seq<Item>, rounds: seq<Triple>)
    returns (round: seq<Op>, q': Lanes)
    requires Toggling(q, z, a, b, waiting) && FreshRounds(q, rounds, z, a) && rounds != []
    ensures Toggling(q', z, a, b, waiting) && FreshRounds(q', rounds[1..], z, a)
    ensures IsRound(round, rounds[0]) && After(q, round) == q' && PopLanes(q, round) == [a, a]
  {
    RoundEndKeeps(q, z, a, b, waiting, rounds);
    round, q' := RoundServes(q, rounds[0], a);
  }

  lemma RoundServes(q: Lanes, t: Triple, a: string) returns (round: seq<Op>, q': Lanes)
    requires Served(q, OpPop) == [a] && Served(Enqueue(PopNext(q).0, t.onZ), OpPop) == [a]
    ensures IsRound(round, t) && After(q, round) == q' && PopLanes(q, round) == [a, a] && q' == RoundEnd(q, t)
  {
    round := RoundOps(q, t);
    q' := After(q, round);
  }

  lemma RoundEndKeeps(q: Lanes, z: string, a: string, b: string, waiting: seq<Item>, rounds: seq<Triple>)
    requires Toggling(q, z, a, b, waiting) && FreshRounds(q, rounds, z, a) && rounds != []
    ensures var q' := RoundEnd(q, rounds[0]);
      Toggling(q', z, a, b, waiting) && FreshRounds(q', rounds[1..], z, a)
    ensures Served(q, OpPop) == [a] && Served(Enqueue(PopNext(q).0, rounds[0].onZ), OpPop) == [a]
  {
    FirstRoundFresh(q, rounds, z, a);
    ToggleKeeps(q, z, a, b, waiting, rounds[0]);
    RestFresh(q, RoundEnd(q, rounds[0]), rounds, z, a);
  }

  lemma RestFresh(q: Lanes, q': Lanes, rounds: seq<Triple>, z: string, a: string)
    requires FreshRounds(q, rounds, z, a) && rounds != []
    requires forall y | y in Items(q') :: y in Items(q) || y == rounds[0].onA || y == rounds[0].alsoOnA
    ensures FreshRounds(q', rounds[1..], z, a)
  {
    FirstRoundFresh(q, rounds, z, a);
  }

  ghost predicate Built(q: Lanes, z: string, a: string, b: string, onA: seq<Item>, onB: seq<Item>) {
    && Ok(q) && q.laneOrder == [z, a, b] && q.cursor == 0
    && Queue(q, z) == [] && Queue(q, a) == onA && Queue(q, b) == onB
    && forall y | y in Items(q) :: y in onA || y in onB
  }

  lemma BuildOne(q: Lanes, z: string, a: string, b: string, onA: seq<Item>, onB: seq<Item>, x: Item)
    requires Built(q, z, a, b, onA, onB) && z != a && z != b && a != b && (x.lane == a || x.lane == b)
    requires forall y | y in onA || y in onB :: y.queueId != x.queueId
    ensures Built(Enqueue(q, x), z, a, b, if x.lane == a then onA + [x] else onA,
                  if x.lane == b then onB + [x] else onB)
  {
    assert q.laneOrder[1] == a && q.laneOrder[2] == b;
    RefillOne(q, x);
  }

  lemma FourIds(a1: Item, a2: Item, a3: Item, b: Item)
    requires DistinctIds([a1, a2, a3, b])
    ensures a1.queueId != a2.queueId && a1.queueId != a3.queueId && a2.queueId != a3.queueId
    ensures b.queueId != a1.queueId && b.queueId != a2.queueId && b.queueId != a3.queueId
  {
    var xs := [a1, a2, a3, b];
    assert xs[0].queueId != xs[1].queueId && xs[0].queueId != xs[2].queueId && xs[1].queueId != xs[2].queueId;
    assert xs[0].queueId != xs[3].queueId && xs[1].queueId != xs[3].queueId && xs[2].queueId != xs[3].queueId;
  }

  lemma BuildFour(z: string, a1: Item, a2: Item, a3: Item, b: Item)
    requires a1.lane == a2.lane == a3.lane && NoDup([z, a1.lane, b.lane]) && DistinctIds([a1, a2, a3, b])
    ensures Toggling(Enqueue(Enqueue(Enqueue(Enqueue(Empty([z, a1.lane, b.lane]), a1), a2), a3), b),
                     z, a1.lane, b.lane, [b])
  {
    var a := a1.lane;
    FourIds(a1, a2, a3, b);
    ThreeDistinct(z, a, b.lane);
    BuildThree(Empty([z, a, b.lane]), z, a1, a2, a3, b.lane);
    var q3 := Enqueue(Enqueue(Enqueue(Empty([z, a, b.lane]), a1), a2), a3);
    BuildOne(q3, z, a, b.lane, [] + [a1] + [a2] + [a3], [], b);
    BuiltToggles(Enqueue(q3, b), z, a, b.lane, [] + [a1] + [a2] + [a3], [] + [b]);
    assert [] + [b] == [b];
  }

  lemma BuildThree(q: Lanes, z: string, a1: Item, a2: Item, a3: Item, b: string)
    requires Built(q, z, a1.lane, b, [], []) && a1.lane == a2.lane == a3.lane
    requires z != a1.lane && z != b && a1.lane != b
    requires a1.queueId != a2.queueId && a1.queueId != a3.queueId && a2.queueId != a3.queueId
    ensures Built(Enqueue(Enqueue(Enqueue(q, a1), a2), a3), z, a1.lane, b, [] + [a1] + [a2] + [a3], [])
  {
    BuildOne(q, z, a1.lane, b, [], [], a1);
    BuildOne(Enqueue(q, a1), z, a1.lane, b, [] + [a1], [], a2);
    BuildOne(Enqueue(Enqueue(q, a1), a2), z, a1.lane, b, [] + [a1] + [a2], [], a3);
  }

  lemma BuiltToggles(q: Lanes, z: string, a: string, b: string, onA: seq<Item>, onB: seq<Item>)
    requires Built(q, z, a, b, onA, onB) && NoDup([z, a, b]) && |onA| >= 3 && onB != []
    ensures Toggling(q, z, a, b, onB)
  {
  }

  /** Such a queue is reached from a new one by four enqueues. */
  lemma TogglingReachable(z: string, a1: Item, a2: Item, a3: Item, b: Item)
    requires a1.lane == a2.lane == a3.lane && NoDup([z, a1.lane, b.lane]) && DistinctIds([a1, a2, a3, b])
    ensures Toggling(After(Empty([z, a1.lane, b.lane]),
                           [OpEnqueue(a1)] + ([OpEnqueue(a2)] + ([OpEnqueue(a3)] + ([OpEnqueue(b)] + [])))),
                     z, a1.lane, b.lane, [b])
  {
    var q := Empty([z, a1.lane, b.lane]);
    BuildFour(z, a1, a2, a3, b);
    UnrollFour(q, OpEnqueue(a1), OpEnqueue(a2), OpEnqueue(a3), OpEnqueue(b));
  }
}
