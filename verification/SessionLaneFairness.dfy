/** How fairly `pop_next` rotates: exact while the active lanes stay the same, and exactly when it skips a lane. */
module SessionLaneFairness {
  import opened Seqs
  import opened SessionLanes
  import opened SessionLaneRuns

  function Apply(q: Lanes, op: Op): Lanes {
    match op
    case OpEnqueue(x) => Enqueue(q, x)
    case OpPop => PopNext(q).0
    case OpRemove(i) => RemoveAt(q, i).0
  }

  lemma ApplyTagged(q: Lanes, op: Op)
    requires Tagged(q)
    ensures Tagged(Apply(q, op))
  {
    var q' := Apply(q, op);
    forall l, x | l in q'.queues && x in q'.queues[l] ensures x.lane == l {
      assert x in Queue(q, l) || (op.OpEnqueue? && x == op.x && l == op.x.lane);
    }
  }

  /** The state after a run, and the lanes its pops served, in order. */
  function After(q: Lanes, ops: seq<Op>): Lanes
    decreases |ops|
  {
    if ops == [] then q else After(Apply(q, ops[0]), ops[1..])
  }

  /** Lanes used for the first time join the lane order at its end, once; nothing else changes the order. */
  lemma {:induction false} LaneOrderGrows(q: Lanes, ops: seq<Op>)
    ensures var order := After(q, ops).laneOrder;
      && q.laneOrder <= order && (NoDup(q.laneOrder) ==> NoDup(order))
      && forall l :: l in order <==> l in q.laneOrder || OpEnqueueOn(ops, l)
    decreases |ops|
  {
    if ops != [] {
      var q1 := Apply(q, ops[0]);
      LaneOrderGrows(q1, ops[1..]);
      forall l ensures OpEnqueueOn(ops, l) <==> (ops[0].OpEnqueue? && ops[0].x.lane == l) || OpEnqueueOn(ops[1..], l) {
        assert ops == [ops[0]] + ops[1..];
      }
    }
  }

  ghost predicate OpEnqueueOn(ops: seq<Op>, lane: string) {
    exists op | op in ops :: op.OpEnqueue? && op.x.lane == lane
  }

  function Served(q: Lanes, op: Op): seq<string> {
    if op.OpPop? && PopNext(q).1.Some? then [PopNext(q).1.value.lane] else []
  }

  function PopLanes(q: Lanes, ops: seq<Op>): seq<string>
    decreases |ops|
  {
    if ops == [] then [] else Served(q, ops[0]) + PopLanes(Apply(q, ops[0]), ops[1..])
  }

  /** No operation of the run makes a lane active or inactive. */
  predicate SameActive(q: Lanes, ops: seq<Op>)
    decreases |ops|
  {
    ops == [] ||
    (Active(Apply(q, ops[0])) == Active(q) && SameActive(Apply(q, ops[0]), ops[1..]))
  }

  // ----- Modular arithmetic -----

  lemma MulSign(k: int, d: int)
    requires k > 0
    ensures d >= 1 ==> k * d >= k
    ensures d <= -1 ==> k * d <= -k
  {
  }

  lemma ModUnique(x: int, k: int, m: int, r: int)
    requires x == k * m + r && 0 <= r < k
    ensures x / k == m && x % k == r
  {
    var d := m - x / k;
    assert k * d == x % k - r by {
      assert k * d == k * m - k * (x / k);
    }
    MulSign(k, d);
  }

  lemma ModStep(c: nat, i: nat, k: nat)
    requires k > 0
    ensures ((c % k + 1) % k + i) % k == (c + 1 + i) % k
  {
    var a, b := c / k, (c % k + 1) / k;
    var s := (c % k + 1) % k;
    var e := (s + i) / k;
    assert c == k * a + c % k && c % k + 1 == k * b + s && s + i == k * e + (s + i) % k;
    assert c + 1 + i == k * (a + b + e) + (s + i) % k;
    ModUnique(c + 1 + i, k, a + b + e, (s + i) % k);
  }

  lemma DivModStep(m: nat, k: nat)
    requires k > 0
    ensures m % k == k - 1 ==> (m + 1) / k == m / k + 1 && (m + 1) % k == 0
    ensures m % k != k - 1 ==> (m + 1) / k == m / k && (m + 1) % k == m % k + 1
  {
    if m % k == k - 1 {
      assert m + 1 == k * (m / k + 1) + 0;
      ModUnique(m + 1, k, m / k + 1, 0);
    } else {
      ModUnique(m + 1, k, m / k, m % k + 1);
    }
  }

  /** How many pops after `cursor` position j of k comes up for the first time. */
  function FirstTurn(cursor: nat, k: nat, j: nat): nat
    requires k > 0
  {
    (j - cursor) % k
  }

  lemma TurnOf(cursor: nat, k: nat, j: nat, i: nat)
    requires j < k
    ensures (cursor + i) % k == j <==> i % k == FirstTurn(cursor, k, j)
  {
    var d := FirstTurn(cursor, k, j);
    var m := (j - cursor) / k;
    assert j - cursor == k * m + d;
    if i % k == d {
      assert cursor + i == k * (i / k - m) + j by {
        assert i == k * (i / k) + d;
      }
      ModUnique(cursor + i, k, i / k - m, j);
    }
    if (cursor + i) % k == j {
      var e := (cursor + i) / k;
      assert i == k * (e + m) + d by {
        assert cursor + i == k * e + j;
      }
      ModUnique(i, k, e + m, d);
    }
  }

  // ----- Rotation over a window -----

  lemma PopServes(q: Lanes)
    requires Tagged(q) && Active(q) != []
    ensures PopNext(q).1.Some?
    ensures PopNext(q).1.value.lane == Active(q)[q.cursor % |Active(q)|]
    ensures PopNext(q).0.cursor == (q.cursor % |Active(q)| + 1) % |Active(q)|
  {
    var lane := Active(q)[q.cursor % |Active(q)|];
    assert lane in Active(q);
    assert Queue(q, lane)[0] in Queue(q, lane);
  }

  /** One step of the rotation after another: serve the cursor's lane, advance the cursor. */
  ghost predicate Rotates(active: seq<string>, cursor: nat, served: seq<string>)
    requires active != []
    decreases |served|
  {
    served == [] ||
    (served[0] == active[cursor % |active|] && Rotates(active, (cursor % |active| + 1) % |active|, served[1..]))
  }

  lemma StepRotates(q: Lanes, op: Op)
    requires Tagged(q) && Active(q) != []
    ensures op.OpPop? ==>
              && Served(q, op) == [Active(q)[q.cursor % |Active(q)|]]
              && Apply(q, op).cursor == (q.cursor % |Active(q)| + 1) % |Active(q)|
    ensures !op.OpPop? ==> Served(q, op) == [] && Apply(q, op).cursor == q.cursor
  {
    PopServes(q);
  }

  lemma {:induction false} WindowRotates(q: Lanes, ops: seq<Op>, active: seq<string>)
    requires Tagged(q) && active != [] && Active(q) == active && SameActive(q, ops)
    ensures Rotates(active, q.cursor, PopLanes(q, ops))
    decreases |ops|
  {
    if ops != [] {
      var q1 := Apply(q, ops[0]);
      ApplyTagged(q, ops[0]);
      WindowRotates(q1, ops[1..], active);
      WindowStep(q, ops[0], PopLanes(q1, ops[1..]));
    }
  }

  lemma WindowStep(q: Lanes, op: Op, rest: seq<string>)
    requires Tagged(q) && Active(q) != [] && Rotates(Active(q), Apply(q, op).cursor, rest)
    ensures Rotates(Active(q), q.cursor, Served(q, op) + rest)
  {
    StepRotates(q, op);
    RotatesStep(Active(q), q.cursor, Apply(q, op).cursor, Served(q, op), rest);
  }

  lemma RotatesStep(active: seq<string>, cursor: nat, next: nat, served: seq<string>, rest: seq<string>)
    requires active != [] && Rotates(active, next, rest)
    requires (served == [] && next == cursor)
          || (served == [active[cursor % |active|]] && next == (cursor % |active| + 1) % |active|)
    ensures Rotates(active, cursor, served + rest)
  {
    if served == [] {
      assert served + rest == rest;
    } else {
      assert (served + rest)[1..] == rest;
    }
  }

  lemma {:induction false} RotatesAt(active: seq<string>, cursor: nat, served: seq<string>, i: nat)
    requires active != [] && Rotates(active, cursor, served) && i < |served|
    ensures served[i] == active[(cursor + i) % |active|]
    decreases i
  {
    var k := |active|;
    if i == 0 {
      assert cursor + i == cursor;
    } else {
      var next := (cursor % k + 1) % k;
      RotatesAt(active, next, served[1..], i - 1);
      ModStep(cursor, i - 1, k);
      assert cursor + 1 + (i - 1) == cursor + i;
    }
  }

  /** The i-th pop served the i-th lane after the cursor. */
  ghost predicate InTurn(active: seq<string>, cursor: nat, served: seq<string>)
    requires active != []
  {
    forall i | 0 <= i < |served| :: served[i] == active[(cursor + i) % |active|]
  }

  /** While the active lanes stay the same, the i-th pop serves the i-th lane after the cursor. */
  lemma Rotation(q: Lanes, ops: seq<Op>)
    requires Tagged(q) && Active(q) != [] && SameActive(q, ops)
    ensures InTurn(Active(q), q.cursor, PopLanes(q, ops))
  {
    WindowRotates(q, ops, Active(q));
    RotatesAll(Active(q), q.cursor, PopLanes(q, ops));
  }

  lemma RotatesAll(active: seq<string>, cursor: nat, served: seq<string>)
    requires active != [] && Rotates(active, cursor, served)
    ensures InTurn(active, cursor, served)
  {
    forall i | 0 <= i < |served| ensures served[i] == active[(cursor + i) % |active|] {
      RotatesAt(active, cursor, served, i);
    }
  }

  lemma {:induction false} RotationCount(active: seq<string>, cursor: nat, served: seq<string>, j: nat)
    requires NoDup(active) && j < |active|
    requires InTurn(active, cursor, served)
    ensures multiset(served)[active[j]]
         == |served| / |active| + if FirstTurn(cursor, |active|, j) < |served| % |active| then 1 else 0
  {
    var k := |active|;
    if served == [] {
      ModUnique(0, k, 0, 0);
    } else {
      var m := |served| - 1;
      var last := served[m];
      assert served == served[..m] + [last];
      assert multiset(served) == multiset(served[..m]) + multiset{last};
      RotationCount(active, cursor, served[..m], j);
      DivModStep(m, k);
      TurnOf(cursor, k, j, m);
      assert last == active[j] <==> (cursor + m) % k == j;
    }
  }

  lemma TurnPlace(cursor: nat, i: nat, k: nat)
    requires i < k
    ensures var d := cursor % k; (cursor + i) % k == if d + i < k then d + i else d + i - k
  {
    var d := cursor % k;
    assert cursor == k * (cursor / k) + d;
    if d + i < k {
      ModUnique(cursor + i, k, cursor / k, d + i);
    } else {
      assert cursor + i == k * (cursor / k + 1) + (d + i - k);
      ModUnique(cursor + i, k, cursor / k + 1, d + i - k);
    }
  }

  /** One full turn visits every entry of the active list once. */
  lemma FullTurn(active: seq<string>, cursor: nat, turn: seq<string>)
    requires |turn| == |active| > 0 && InTurn(active, cursor, turn)
    ensures multiset(turn) == multiset(active)
  {
    var k, d := |active|, cursor % |active|;
    forall i | 0 <= i < k ensures turn[i] == (active[d..] + active[..d])[i] {
      TurnPlace(cursor, i, k);
    }
    assert turn == active[d..] + active[..d] && active == active[..d] + active[d..];
  }

  lemma PartTurn(active: seq<string>, cursor: nat, part: seq<string>, lane: string)
    requires |part| <= |active| && active != []
    requires InTurn(active, cursor, part)
    ensures multiset(part)[lane] <= multiset(active)[lane] && multiset(part)[lane] <= |part|
  {
    var turn := seq(|active|, i requires 0 <= i < |active| => active[(cursor + i) % |active|]);
    FullTurn(active, cursor, turn);
    assert turn == part + turn[|part|..];
    CountBound(part, lane);
  }

  lemma {:induction false} CountBound(xs: seq<string>, x: string)
    ensures multiset(xs)[x] <= |xs|
  {
    if xs != [] {
      assert xs == [xs[0]] + xs[1..];
      CountBound(xs[1..], x);
    }
  }

  /** m full turns and a part: the full turns give a lane as many pops each as the active list names it. */
  lemma {:induction false} TurnsOf(active: seq<string>, cursor: nat, served: seq<string>, lane: string, m: nat)
    requires active != [] && Times(|active|, m) <= |served|
    requires InTurn(active, cursor, served)
    ensures multiset(served)[lane]
         == Times(multiset(active)[lane], m) + multiset(served[..|served| - Times(|active|, m)])[lane]
    decreases m
  {
    if m == 0 {
      assert served[..|served|] == served;
    } else {
      var head := served[..|served| - |active|];
      LastTurn(active, cursor, served, lane);
      TurnsOf(active, cursor, head, lane, m - 1);
      assert head[..|head| - Times(|active|, m - 1)] == served[..|served| - Times(|active|, m)];
    }
  }

  function Times(c: nat, m: nat): nat {
    if m == 0 then 0 else c + Times(c, m - 1)
  }

  lemma {:induction false} TimesIsProduct(c: nat, m: nat)
    ensures Times(c, m) == c * m
  {
    if m > 0 {
      TimesIsProduct(c, m - 1);
      assert c * (m - 1) + c == c * m;
    }
  }

  lemma LastTurn(active: seq<string>, cursor: nat, served: seq<string>, lane: string)
    requires |served| >= |active| > 0
    requires InTurn(active, cursor, served)
    ensures multiset(served)[lane] == multiset(served[..|served| - |active|])[lane] + multiset(active)[lane]
  {
    var m := |served| - |active|;
    var head, tail := served[..m], served[m..];
    forall i | 0 <= i < |tail| ensures tail[i] == active[(cursor + m + i) % |active|] {
      assert tail[i] == served[m + i] && cursor + (m + i) == cursor + m + i;
    }
    FullTurn(active, cursor + m, tail);
    assert served == head + tail;
  }

  lemma SharesOf(active: seq<string>, cursor: nat, served: seq<string>, lane: string, m: nat)
    requires active != [] && Times(|active|, m) <= |served| <= Times(|active|, m) + |active|
    requires InTurn(active, cursor, served)
    ensures var c, turns := multiset(active)[lane], multiset(served)[lane];
      Times(c, m) <= turns <= Times(c, m) + c && turns <= Times(c, m) + (|served| - Times(|active|, m))
  {
    TurnsOf(active, cursor, served, lane, m);
    PartTurn(active, cursor, served[..|served| - Times(|active|, m)], lane);
  }

  lemma ShareOf(n: nat, k: nat, c: nat, turns: nat)
    requires k > 0 && Times(c, n / k) <= turns <= Times(c, n / k) + c
    requires turns <= Times(c, n / k) + (n - Times(k, n / k))
    ensures Share(n, k, c, turns)
  {
    TimesIsProduct(c, n / k);
    TimesIsProduct(k, n / k);
  }

  /** n pops over k entries, c of them the lane's: c turns for each full turn, and at most min(c, n mod k) more. */
  predicate Share(n: nat, k: nat, c: nat, turns: nat)
    requires k > 0
  {
    c * (n / k) <= turns && turns <= c * (n / k) + c && turns <= c * (n / k) + n % k
  }

  lemma LaneShare(active: seq<string>, cursor: nat, served: seq<string>, lane: string)
    requires active != []
    requires InTurn(active, cursor, served)
    ensures Share(|served|, |active|, multiset(active)[lane], multiset(served)[lane])
  {
    TimesIsProduct(|active|, |served| / |active|);
    SharesOf(active, cursor, served, lane, |served| / |active|);
    ShareOf(|served|, |active|, multiset(active)[lane], multiset(served)[lane]);
  }

  /**
   * So n pops give an active lane floor(n/k) turns or one more, and exactly n/k each when k divides n; a lane that
   * the lane order names c times gets c times that.
   */
  lemma FairShare(q: Lanes, ops: seq<Op>, lane: string)
    requires Tagged(q) && Active(q) != [] && SameActive(q, ops)
    ensures Share(|PopLanes(q, ops)|, |Active(q)|, multiset(Active(q))[lane], multiset(PopLanes(q, ops))[lane])
    ensures NoDup(q.laneOrder) && lane in Active(q) ==> multiset(Active(q))[lane] == 1
  {
    Rotation(q, ops);
    LaneShare(Active(q), q.cursor, PopLanes(q, ops), lane);
    NamedOnce(q, lane);
  }

  lemma NamedOnce(q: Lanes, lane: string)
    ensures NoDup(q.laneOrder) && lane in Active(q) ==> multiset(Active(q))[lane] == 1
  {
    if NoDup(q.laneOrder) && lane in Active(q) {
      FilterNoDup(q.laneOrder, NonEmpty(q));
      NoDupCountsOnce(Active(q), lane);
      assert lane in multiset(Active(q));
    }
  }

  // ----- When the rotation skips a lane -----

  lemma {:induction false} FilterAgrees(xs: seq<string>, p: string -> bool, q: string -> bool)
    requires forall x | x in xs :: p(x) == q(x)
    ensures Filter(xs, p) == Filter(xs, q)
  {
    if xs != [] { FilterAgrees(xs[1..], p, q); }
  }

  lemma ActiveAfterPop(q: Lanes)
    requires NoDup(q.laneOrder) && Active(q) != []
    ensures var start := q.cursor % |Active(q)|;
            Active(PopNext(q).0) == if |Queue(q, Active(q)[start])| == 1 then DeleteAt(Active(q), start) else Active(q)
  {
    var active := Active(q);
    var start := q.cursor % |active|;
    var lane, q1 := active[start], PopNext(q).0;
    assert lane in active;
    FilterNoDup(q.laneOrder, NonEmpty(q));
    if |Queue(q, lane)| == 1 {
      FilterTwice(q.laneOrder, NonEmpty(q), NotEq(lane), NonEmpty(q1));
      NoDupAllBut(active, start);
      FilterDeletes(active, start, NotEq(lane));
    } else {
      FilterAgrees(q.laneOrder, NonEmpty(q), NonEmpty(q1));
    }
  }

  /**
   * Of two pops in a row the second serves the neighbouring lane of the rotation exactly when that lane still has its
   * place in the active list. If the lane order names no lane twice there is one exception: the first pop emptied its
   * lane, that lane was not the last of the active list, and at least two other lanes were active. Then the cursor,
   * already advanced, is applied to the shortened list and the next lane is passed over.
   */
  lemma NeighbourServed(q: Lanes)
    requires Tagged(q) && Active(q) != [] && Active(PopNext(q).0) != []
    ensures var active := Active(q);
            var k, start, q1 := |active|, q.cursor % |active|, PopNext(q).0;
            && PopNext(q1).1.Some?
            && (PopNext(q1).1.value.lane == active[(start + 1) % k]
                <==> Active(q1)[(start + 1) % k % |Active(q1)|] == active[(start + 1) % k])
            && (NoDup(q.laneOrder) ==>
                  (PopNext(q1).1.value.lane == active[(start + 1) % k]
                   <==> !(|Queue(q, active[start])| == 1 && start + 1 < k && k > 2)))
  {
    ApplyTagged(q, OpPop);
    PopServes(q);
    PopServes(PopNext(q).0);
    if NoDup(q.laneOrder) { NeighbourSkipped(q); }
  }

  lemma NeighbourSkipped(q: Lanes)
    requires Tagged(q) && NoDup(q.laneOrder) && Active(q) != [] && Active(PopNext(q).0) != []
    ensures var active := Active(q);
            var k, start, q1 := |active|, q.cursor % |active|, PopNext(q).0;
            PopNext(q1).1.Some?
            && (PopNext(q1).1.value.lane == active[(start + 1) % k]
                <==> !(|Queue(q, active[start])| == 1 && start + 1 < k && k > 2))
  {
    var active := Active(q);
    var k, start, q1 := |active|, q.cursor % |active|, PopNext(q).0;
    ActiveAfterPop(q);
    ApplyTagged(q, OpPop);
    PopServes(q);
    PopServes(q1);
    FilterNoDup(q.laneOrder, NonEmpty(q));
    if start + 1 == k {
      ModUnique(start + 1, k, 1, 0);
    } else {
      ModUnique(start + 1, k, 0, start + 1);
    }
    if |Queue(q, active[start])| == 1 {
      var c := q1.cursor;
      if c == k - 1 {
        ModUnique(c, k - 1, 1, 0);
      } else {
        ModUnique(c, k - 1, 0, c);
      }
    } else {
      ModUnique(q1.cursor, k, 0, q1.cursor);
    }
  }

  // ----- Starvation -----

  ghost predicate Starving(q: Lanes, a: string, b: string, c: string, waiting: seq<Item>) {
    && Tagged(q) && q.laneOrder == [a, b, c] && NoDup(q.laneOrder) && q.cursor == 0
    && |Queue(q, a)| == 1 && |Queue(q, c)| == 1
    && Queue(q, b) == waiting && waiting != []
  }

  lemma ActiveOfThree(q: Lanes, a: string, b: string, c: string)
    requires q.laneOrder == [a, b, c]
    ensures Active(q) == (if Queue(q, a) != [] then [a] else []) + (if Queue(q, b) != [] then [b] else [])
                       + (if Queue(q, c) != [] then [c] else [])
  {
    var p := NonEmpty(q);
    FilterSnoc([], a, p);
    FilterSnoc([a], b, p);
    FilterSnoc([a, b], c, p);
    assert [] + [a] == [a] && [a] + [b] == [a, b] && [a, b] + [c] == [a, b, c];
  }

  function Round(refill: (Item, Item)): seq<Op> {
    [OpPop] + ([OpPop] + ([OpEnqueue(refill.0)] + ([OpEnqueue(refill.1)] + [])))
  }

  lemma PopSets(q: Lanes, active: seq<string>)
    requires Tagged(q) && Active(q) == active && active != []
    ensures var lane := active[q.cursor % |active|]; var q1 := PopNext(q).0;
            && Tagged(q1) && q1.laneOrder == q.laneOrder
            && q1.cursor == (q.cursor % |active| + 1) % |active|
            && PopNext(q).1.Some? && Served(q, OpPop) == [lane]
            && Queue(q, lane) != []
            && forall l :: Queue(q1, l) == if l == lane then Queue(q, lane)[1..] else Queue(q, l)
  {
    var lane := active[q.cursor % |active|];
    assert lane in Active(q);
    PopServes(q);
    ApplyTagged(q, OpPop);
  }

  /** The shape after the two pops of a round: a and c are empty, b is untouched, and the cursor is back at 0. */
  lemma TwoPops(q: Lanes, a: string, b: string, c: string, waiting: seq<Item>)
    requires Starving(q, a, b, c, waiting)
    ensures var q1 := PopNext(q).0; var q2 := PopNext(q1).0;
      && Served(q, OpPop) == [a] && Served(q1, OpPop) == [c]
      && Tagged(q2) && q2.laneOrder == [a, b, c] && q2.cursor == 0
      && Queue(q2, a) == [] && Queue(q2, b) == waiting && Queue(q2, c) == []
  {
    ThreeDistinct(a, b, c);
    PopFull(q, a, b, c);
    PopSecond(PopNext(q).0, a, b, c);
  }

  lemma PopFull(q: Lanes, a: string, b: string, c: string)
    requires Tagged(q) && q.laneOrder == [a, b, c] && q.cursor == 0 && a != b && b != c && a != c
    requires Queue(q, a) != [] && Queue(q, b) != [] && Queue(q, c) != []
    ensures var q1 := PopNext(q).0;
      && Served(q, OpPop) == [a] && Tagged(q1) && q1.laneOrder == [a, b, c] && q1.cursor == 1
      && Queue(q1, a) == Queue(q, a)[1..] && Queue(q1, b) == Queue(q, b) && Queue(q1, c) == Queue(q, c)
  {
    ActiveOfThree(q, a, b, c);
    assert Active(q) == [a, b, c];
    PopSets(q, [a, b, c]);
  }

  lemma PopSecond(q: Lanes, a: string, b: string, c: string)
    requires Tagged(q) && q.laneOrder == [a, b, c] && q.cursor == 1 && a != b && b != c && a != c
    requires Queue(q, a) == [] && Queue(q, b) != [] && Queue(q, c) != []
    ensures var q1 := PopNext(q).0;
      && Served(q, OpPop) == [c] && Tagged(q1) && q1.laneOrder == [a, b, c] && q1.cursor == 0
      && Queue(q1, a) == [] && Queue(q1, b) == Queue(q, b) && Queue(q1, c) == Queue(q, c)[1..]
  {
    ActiveOfThree(q, a, b, c);
    assert Active(q) == [b, c];
    PopSets(q, [b, c]);
  }

  lemma Refill(q: Lanes, a: string, b: string, c: string, waiting: seq<Item>, refill: (Item, Item))
    requires Tagged(q) && q.laneOrder == [a, b, c] && NoDup(q.laneOrder) && q.cursor == 0
    requires Queue(q, a) == [] && Queue(q, b) == waiting && waiting != [] && Queue(q, c) == []
    requires refill.0.lane == a && refill.1.lane == c
    ensures Starving(Enqueue(Enqueue(q, refill.0), refill.1), a, b, c, waiting)
  {
    assert q.laneOrder[0] != q.laneOrder[1] && q.laneOrder[1] != q.laneOrder[2] && q.laneOrder[0] != q.laneOrder[2];
    ApplyTagged(q, OpEnqueue(refill.0));
    ApplyTagged(Enqueue(q, refill.0), OpEnqueue(refill.1));
  }

  lemma StarvingRound(q: Lanes, a: string, b: string, c: string, waiting: seq<Item>, refill: (Item, Item))
    requires Starving(q, a, b, c, waiting)
    requires refill.0.lane == a && refill.1.lane == c
    ensures Starving(After(q, Round(refill)), a, b, c, waiting)
    ensures PopLanes(q, Round(refill)) == [a, c]
  {
    TwoPops(q, a, b, c, waiting);
    var q1 := PopNext(q).0;
    var q2 := PopNext(q1).0;
    Refill(q2, a, b, c, waiting, refill);
    UnrollRound(q, refill);
  }

  lemma UnrollRound(q: Lanes, refill: (Item, Item))
    ensures var q1 := PopNext(q).0; var q2 := PopNext(q1).0;
            && After(q, Round(refill)) == Enqueue(Enqueue(q2, refill.0), refill.1)
            && PopLanes(q, Round(refill)) == Served(q, OpPop) + Served(q1, OpPop)
  {
    UnrollFour(q, OpPop, OpPop, OpEnqueue(refill.0), OpEnqueue(refill.1));
    NothingServed(PopNext(PopNext(q).0).0, refill.0);
    NothingServed(Enqueue(PopNext(PopNext(q).0).0, refill.0), refill.1);
  }

  lemma NothingServed(q: Lanes, x: Item)
    ensures Served(q, OpEnqueue(x)) == [] && Apply(q, OpEnqueue(x)) == Enqueue(q, x)
  {
  }

  lemma UnrollFour(q: Lanes, o1: Op, o2: Op, o3: Op, o4: Op)
    ensures var q1 := Apply(q, o1);
            var q2 := Apply(q1, o2);
            var q3 := Apply(q2, o3);
            var ops := [o1] + ([o2] + ([o3] + ([o4] + [])));
            && After(q, ops) == Apply(q3, o4)
            && PopLanes(q, ops) == Served(q, o1) + (Served(q1, o2) + (Served(q2, o3) + Served(q3, o4)))
  {
    UnrollTwo(q, o1, o2, [o3] + ([o4] + []));
    UnrollTwo(Apply(Apply(q, o1), o2), o3, o4, []);
    assert Served(Apply(Apply(Apply(q, o1), o2), o3), o4) + [] == Served(Apply(Apply(Apply(q, o1), o2), o3), o4);
  }

  lemma UnrollTwo(q: Lanes, o1: Op, o2: Op, rest: seq<Op>)
    ensures var q1 := Apply(q, o1);
            var q2 := Apply(q1, o2);
            && After(q, [o1] + ([o2] + rest)) == After(q2, rest)
            && PopLanes(q, [o1] + ([o2] + rest)) == Served(q, o1) + (Served(q1, o2) + PopLanes(q2, rest))
  {
    Unroll(q, o1, [o2] + rest);
    Unroll(Apply(q, o1), o2, rest);
  }

  lemma Unroll(q: Lanes, op: Op, ops: seq<Op>)
    ensures After(q, [op] + ops) == After(Apply(q, op), ops)
    ensures PopLanes(q, [op] + ops) == Served(q, op) + PopLanes(Apply(q, op), ops)
  {
    assert ([op] + ops)[1..] == ops;
  }

  lemma {:induction false} AfterConcat(q: Lanes, a: seq<Op>, b: seq<Op>)
    ensures After(q, a + b) == After(After(q, a), b)
    ensures PopLanes(q, a + b) == PopLanes(q, a) + PopLanes(After(q, a), b)
    decreases |a|
  {
    if a == [] {
      assert a + b == b;
    } else {
      var q1 := Apply(q, a[0]);
      assert a + b == [a[0]] + (a[1..] + b) && a == [a[0]] + a[1..];
      Unroll(q, a[0], a[1..] + b);
      Unroll(q, a[0], a[1..]);
      AfterConcat(q1, a[1..], b);
      ConcatAssoc(Served(q, a[0]), PopLanes(q1, a[1..]), PopLanes(After(q1, a[1..]), b));
    }
  }

  function Rounds(refills: seq<(Item, Item)>): seq<Op> {
    if refills == [] then [] else Round(refills[0]) + Rounds(refills[1..])
  }

  /**
   * Fairness is not unconditional. With lanes a, b, c where a and c hold one item and are refilled after every two
   * pops, b waits forever: any number of rounds serves only a and c, and b's queue is never touched.
   */
  lemma {:induction false} Starvation(q: Lanes, a: string, b: string, c: string, waiting: seq<Item>,
                                      refills: seq<(Item, Item)>)
    requires Starving(q, a, b, c, waiting)
    requires forall r | r in refills :: r.0.lane == a && r.1.lane == c
    ensures Queue(After(q, Rounds(refills)), b) == waiting
    ensures |PopLanes(q, Rounds(refills))| == 2 * |refills| && b !in PopLanes(q, Rounds(refills))
    decreases |refills|
  {
    if refills != [] {
      var q1 := After(q, Round(refills[0]));
      StarvingRound(q, a, b, c, waiting, refills[0]);
      Starvation(q1, a, b, c, waiting, refills[1..]);
      AfterConcat(q, Round(refills[0]), Rounds(refills[1..]));
      assert Rounds(refills) == Round(refills[0]) + Rounds(refills[1..]);
      assert b !in [a, c] by {
        assert [a, b, c][0] != [a, b, c][1] && [a, b, c][1] != [a, b, c][2];
      }
    }
  }

  /** Such a queue is reached from a new one by three enqueues. */
  lemma StarvationReachable(a: Item, b: Item, c: Item)
    requires NoDup([a.lane, b.lane, c.lane])
    ensures Starving(After(Empty([a.lane, b.lane, c.lane]), [OpEnqueue(a), OpEnqueue(b), OpEnqueue(c)]),
                     a.lane, b.lane, c.lane, [b])
  {
    var q := Empty([a.lane, b.lane, c.lane]);
    var ops := [OpEnqueue(a), OpEnqueue(b), OpEnqueue(c)];
    var lanes := q.laneOrder;
    assert lanes[0] != lanes[1] && lanes[1] != lanes[2] && lanes[0] != lanes[2];
    var q1 := Enqueue(q, a);
    var q2 := Enqueue(q1, b);
    var q3 := Enqueue(q2, c);
    assert ops[1..] == [OpEnqueue(b), OpEnqueue(c)] && ops[1..][1..] == [OpEnqueue(c)];
    assert After(q2, [OpEnqueue(c)]) == After(q3, []) == q3;
    assert After(q1, ops[1..]) == q3;
    assert After(q, ops) == q3;
  }
}
