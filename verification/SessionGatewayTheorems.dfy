/** What the hub promises over whole runs: isolation, wake-ups, the user index, and complete draining. */
module SessionGatewayTheorems {
  import opened Numbers
  import opened Text
  import opened Seqs
  import opened SessionGateway
  import opened SessionGatewaySafety

  // ----- Isolation -----

  /** Every `send` is made by the registration's own task, on its own sender, with an envelope stamped for it. */
  lemma OwnSenderOnly(steps: seq<Step>)
    ensures forall x | x in Run(INIT, steps).sent :: x.task == x.sender == x.env.origin
  {
    InitInv();
    RunInv(INIT, steps);
  }

  /** A task whose registration was replaced or removed exits at its next resume and touches nothing else. */
  lemma ReplacedTaskExits(steps: seq<Step>, r: nat, outcome: Outcome)
    requires r < |Run(INIT, steps).heap|
    ensures var h := Run(INIT, steps);
      var s := h.heap[r].sessionId;
      !(s in h.live && h.live[s] == r) ==> DoResume(h, r, outcome) == h.(heap := h.heap[r := h.heap[r].(drain := Done)])
  {
    InitInv();
    RunInv(INIT, steps);
    var h := Run(INIT, steps);
    assert Control(h.heap[r], r);
    if h.heap[r].drain.Done? {
      assert h.heap[r] == h.heap[r].(drain := Done);
    }
  }

  /** Re-registering a session id leaves the old registration closed, and it stays so. */
  lemma {:induction false} ClosedForGood(h: Hub, steps: seq<Step>, r: nat)
    requires Inv(h) && r < |h.heap| && h.heap[r].closed
    ensures r < |Run(h, steps).heap| && Run(h, steps).heap[r].closed
    ensures SentOf(Run(h, steps).sent, r) == SentOf(h.sent, r)
    decreases |steps|
  {
    if steps != [] {
      NextInv(h, steps[0]);
      ClosedStep(h, steps[0], r);
      ClosedForGood(Next(h, steps[0]), steps[1..], r);
    }
  }

  function SentOf(sent: seq<Handed>, r: nat): seq<Envelope> {
    if sent == [] then []
    else
      var last := sent[|sent| - 1];
      SentOf(sent[..|sent| - 1], r) + if last.sender == r then [last.env] else []
  }

  function PublishedOf(published: seq<Envelope>, r: nat): seq<Envelope> {
    if published == [] then []
    else
      var last := published[|published| - 1];
      PublishedOf(published[..|published| - 1], r) + if last.origin == r then [last] else []
  }

  lemma SentOfSnoc(sent: seq<Handed>, x: Handed, r: nat)
    ensures SentOf(sent + [x], r) == SentOf(sent, r) + if x.sender == r then [x.env] else []
  {
    assert (sent + [x])[..|sent|] == sent;
  }

  lemma PublishedOfSnoc(published: seq<Envelope>, e: Envelope, r: nat)
    ensures PublishedOf(published + [e], r) == PublishedOf(published, r) + if e.origin == r then [e] else []
  {
    assert (published + [e])[..|published|] == published;
  }

  // ----- Frames -----

  /** Registration r, and what was published for and sent from it, are the same in both states. */
  ghost predicate Untouched(h: Hub, h': Hub, r: nat) {
    && r < |h.heap| && r < |h'.heap| && h'.heap[r] == h.heap[r]
    && PublishedOf(h'.published, r) == PublishedOf(h.published, r)
    && SentOf(h'.sent, r) == SentOf(h.sent, r)
  }

  lemma PublishFrame(h: Hub, s: string, event: string, lane: string, r: nat)
    requires Inv(h) && r < |h.heap| && (s in h.live ==> h.live[s] != r)
    ensures Untouched(h, DoPublish(h, s, event, lane).0, r)
  {
    if s in h.live {
      PublishedOfSnoc(h.published, Stamp(h.heap[h.live[s]], h.live[s], event, LaneName(lane)), r);
    }
  }

  lemma {:induction false} PublishAllFrame(h: Hub, order: seq<string>, event: string, lane: string, r: nat)
    requires Inv(h) && r < |h.heap| && forall s | s in order && s in h.live :: h.live[s] != r
    ensures Untouched(h, PublishAll(h, order, event, lane).0, r)
    decreases |order|
  {
    if order != [] {
      var n := |order| - 1;
      PublishAllInv(h, order[..n], event, lane);
      PublishAllFrame(h, order[..n], event, lane, r);
      PublishFrame(PublishAll(h, order[..n], event, lane).0, order[n], event, lane, r);
    }
  }

  lemma DrainOnFrame(h: Hub, t: nat, r: nat)
    requires Inv(h) && t < |h.heap| && r < |h.heap| && t != r
    ensures Untouched(h, DrainOn(h, t, t), r)
  {
    if Pending(h.heap[t]) != {} {
      SentOfSnoc(h.sent, Handed(t, t, h.heap[t].lanes[Least(Pending(h.heap[t]))].queue[0]), r);
    }
  }

  lemma ResumeFrame(h: Hub, t: nat, outcome: Outcome, r: nat)
    requires Inv(h) && r < |h.heap| && t != r
    ensures Untouched(h, DoResume(h, t, outcome), r)
  {
    if t < |h.heap| && !h.heap[t].closed {
      LiveResume(h, t, outcome);
      if Runnable(h.heap[t]) {
        SettledInv(h, t, outcome);
        DrainOnFrame(Settled(h, t, outcome), t, r);
      }
    } else if t < |h.heap| {
      assert Control(h.heap[t], t);
    }
  }

  lemma ClosedStep(h: Hub, step: Step, r: nat)
    requires Inv(h) && r < |h.heap| && h.heap[r].closed
    ensures r < |Next(h, step).heap| && Next(h, step).heap[r].closed
    ensures SentOf(Next(h, step).sent, r) == SentOf(h.sent, r)
  {
    match step
    case Register(s, u) =>
    case Unregister(s) =>
    case Publish(s, e, lane) => PublishFrame(h, s, e, lane, r);
    case PublishUser(u, order, e, lane) => PublishAllFrame(h, order, e, lane, r);
    case Resume(t, outcome) =>
      if t == r { assert Control(h.heap[r], r); } else { ResumeFrame(h, t, outcome, r); }
  }

  // ----- Wake-ups -----

  /**
   * No lost wake-up: whenever a live registration has pending envelopes and its task is parked, the wake event is
   * set, so the drain task can run, and running it hands over the head of the least pending lane.
   */
  lemma NoLostWakeup(steps: seq<Step>, r: nat, outcome: Outcome)
    requires var h := Run(INIT, steps);
      r < |h.heap| && !h.heap[r].closed && Pending(h.heap[r]) != {}
    ensures var h := Run(INIT, steps);
      var reg, lane := h.heap[r], Least(Pending(h.heap[r]));
      && (reg.drain.Waiting? ==> reg.wake)
      && DoResume(h, r, outcome).sent == h.sent + [Handed(r, r, reg.lanes[lane].queue[0])]
  {
    InitInv();
    RunInv(INIT, steps);
    ResumeHands(Run(INIT, steps), r, outcome);
  }

  /** `h'` is `h` after handing over the head of r's least pending lane. */
  ghost predicate HandsOver(h: Hub, h': Hub, r: nat)
    requires r < |h.heap| && Pending(h.heap[r]) != {}
  {
    var reg, lane := h.heap[r], Least(Pending(h.heap[r]));
    && h'.sent == h.sent + [Handed(r, r, reg.lanes[lane].queue[0])]
    && h'.published == h.published
    && r < |h'.heap|
    && h'.heap[r].closed == reg.closed && h'.heap[r].sessionId == reg.sessionId && h'.heap[r].userUid == reg.userUid
    && (forall l :: Buffer(h'.heap[r], l).queue == if l
         == lane then reg.lanes[lane].queue[1..] else Buffer(reg, l).queue)
  }

  lemma DrainOnHands(g: Hub, r: nat)
    requires Closed(g) && r < |g.heap| && Pending(g.heap[r]) != {}
    ensures HandsOver(g, DrainOn(g, r, r), r)
  {
  }

  /** Same queues, and the same registration otherwise as far as handing over goes. */
  ghost predicate SameQueues(a: Registration, b: Registration) {
    && Pending(a) == Pending(b) && (forall l :: Buffer(a, l).queue == Buffer(b, l).queue)
    && a.closed == b.closed && a.sessionId == b.sessionId && a.userUid == b.userUid
  }

  lemma SettleSame(reg: Registration, lane: string, outcome: Outcome)
    ensures SameQueues(Settle(reg, lane, outcome).(drain := Starting), reg)
  {
    SettleQueues(reg, lane, outcome);
    SamePending(Settle(reg, lane, outcome).(drain := Starting), reg);
  }

  lemma SettleQueues(reg: Registration, lane: string, outcome: Outcome)
    ensures var after := Settle(reg, lane, outcome);
      after.lanes.Keys == reg.lanes.Keys && forall l :: Buffer(after, l).queue == Buffer(reg, l).queue
  {
  }

  lemma SamePending(a: Registration, b: Registration)
    requires a.lanes.Keys == b.lanes.Keys && forall l :: Buffer(a, l).queue == Buffer(b, l).queue
    ensures Pending(a) == Pending(b)
  {
    forall l | l in a.lanes ensures a.lanes[l].queue == b.lanes[l].queue {
      assert Buffer(a, l).queue == Buffer(b, l).queue;
    }
  }

  lemma SettledSame(h: Hub, r: nat, outcome: Outcome)
    requires r < |h.heap|
    ensures var g := Settled(h, r, outcome);
      && g.sent == h.sent && g.published == h.published && |g.heap| == |h.heap|
      && SameQueues(g.heap[r], h.heap[r])
  {
    if h.heap[r].drain.Sending? {
      SettleSame(h.heap[r], h.heap[r].drain.lane, outcome);
    }
  }

  lemma ResumeHands(h: Hub, r: nat, outcome: Outcome)
    requires Inv(h) && r < |h.heap| && !h.heap[r].closed && Pending(h.heap[r]) != {}
    ensures h.heap[r].wake
    ensures HandsOver(h, DoResume(h, r, outcome), r)
  {
    var reg := h.heap[r];
    assert Control(reg, r);
    LiveResume(h, r, outcome);
    var g := Settled(h, r, outcome);
    SettledSame(h, r, outcome);
    DrainOnHands(g, r);
    HandsOverFrom(h, g, DoResume(h, r, outcome), r);
  }

  lemma HandsOverFrom(h: Hub, g: Hub, h': Hub, r: nat)
    requires r < |h.heap| && r < |g.heap| && SameQueues(g.heap[r], h.heap[r]) && Pending(h.heap[r]) != {}
    requires g.sent == h.sent && g.published == h.published && HandsOver(g, h', r)
    ensures HandsOver(h, h', r)
  {
    var lane := Least(Pending(h.heap[r]));
    assert Buffer(g.heap[r], lane).queue == Buffer(h.heap[r], lane).queue;
  }

  // ----- publish_to_user -----

  lemma PublishDelivers(h: Hub, g: Hub, s: string, event: string, lane: string)
    requires Inv(g) && s in g.live && Untouched(h, g, g.live[s])
    ensures Received(h, DoPublish(g, s, event, lane).0, g.live[s], event, lane)
  {
    AppendGrows(h.heap[g.live[s]], g.live[s], event, LaneName(lane));
  }

  lemma StillReceived(h: Hub, g: Hub, g': Hub, r: nat, event: string, lane: string)
    requires Received(h, g, r, event, lane) && Untouched(g, g', r)
    ensures Received(h, g', r, event, lane)
  {
  }

  lemma {:induction false} PublishAllDelivers(h: Hub, order: seq<string>, event: string, lane: string, s: string)
    requires Inv(h) && NoDup(order) && s in order && s in h.live
    ensures Received(h, PublishAll(h, order, event, lane).0, h.live[s], event, lane)
    decreases |order|
  {
    var n := |order| - 1;
    var before, last := order[..n], order[n];
    var g := PublishAll(h, before, event, lane).0;
    PublishAllInv(h, before, event, lane);
    if s == last {
      OthersLive(h, before, s);
      PublishAllFrame(h, before, event, lane, h.live[s]);
      PublishDelivers(h, g, s, event, lane);
    } else {
      PublishAllDelivers(h, before, event, lane, s);
      OthersLive(h, [last], s);
      PublishFrame(g, last, event, lane, h.live[s]);
      StillReceived(h, g, DoPublish(g, last, event, lane).0, h.live[s], event, lane);
    }
  }

  lemma OthersLive(h: Hub, others: seq<string>, s: string)
    requires Inv(h) && s in h.live && s !in others
    ensures forall x | x in others && x in h.live :: h.live[x] != h.live[s]
  {
  }

  lemma IndexedSessions(h: Hub, user: string, order: seq<string>, s: string)
    requires Inv(h) && user != "" && ToSet(order) == SessionsOf(h, user)
    ensures s in order <==> s in h.live && h.heap[h.live[s]].userUid == user
  {
    assert s in order <==> s in ToSet(order);
    assert (user in h.users && s in h.users[user])
      <==> (s in Owners(h.heap, h.live) && user != "" && Owners(h.heap, h.live)[s] == user);
  }

  /** The index lists exactly the live sessions of each user, so a user publish reaches all of them and counts them. */
  lemma UserPublishReachesAll(steps: seq<Step>, user: string, order: seq<string>, event: string, lane: string)
    requires user != "" && NoDup(order) && ToSet(order) == SessionsOf(Run(INIT, steps), user)
    ensures var h := Run(INIT, steps);
      && (forall s :: s in order <==> s in h.live && h.heap[h.live[s]].userUid == user)
      && PublishAll(h, order, event, lane).1 == |order|
      && forall s | s in order :: Received(h, PublishAll(h, order, event, lane).0, h.live[s], event, lane)
  {
    InitInv();
    RunInv(INIT, steps);
    var h := Run(INIT, steps);
    forall s ensures s in order <==> s in h.live && h.heap[h.live[s]].userUid == user {
      IndexedSessions(h, user, order, s);
    }
    PublishAllInv(h, order, event, lane);
    forall s | s in order ensures Received(h, PublishAll(h, order, event, lane).0, h.live[s], event, lane) {
      PublishAllDelivers(h, order, event, lane, s);
    }
  }

  // ----- Backlog -----

  function InLane(lane: string): Envelope -> bool { (e: Envelope) => e.lane == lane }

  lemma {:induction false} Projections(published: seq<Envelope>, sent: seq<Handed>, r: nat, lane: string)
    ensures Filter(PublishedOf(published, r), InLane(lane)) == PublishedOn(published, r, lane)
    ensures Filter(SentOf(sent, r), InLane(lane)) == SentOn(sent, r, lane)
    decreases |published| + |sent|
  {
    if published != [] {
      var rest, last := published[..|published| - 1], published[|published| - 1];
      Projections(rest, sent, r, lane);
      var all, on := PublishedOf(rest, r), PublishedOn(rest, r, lane);
      FilterSnoc(all, last, InLane(lane));
      assert all + [] == all && on + [] == on;
    } else if sent != [] {
      var rest, last := sent[..|sent| - 1], sent[|sent| - 1];
      Projections(published, rest, r, lane);
      var all, on := SentOf(rest, r), SentOn(rest, r, lane);
      FilterSnoc(all, last.env, InLane(lane));
      assert all + [] == all && on + [] == on;
    }
  }

  lemma {:induction false} FilterCount(xs: seq<Envelope>, e: Envelope)
    ensures multiset(xs)[e] == multiset(Filter(xs, InLane(e.lane)))[e]
  {
    if xs != [] {
      assert xs == [xs[0]] + xs[1..];
      FilterCount(xs[1..], e);
    }
  }

  /** How many envelopes of r were published and not yet handed over. */
  function Backlog(h: Hub, r: nat): int {
    |PublishedOf(h.published, r)| - |SentOf(h.sent, r)|
  }

  lemma LaneCounts(h: Hub, r: nat, e: Envelope)
    requires Inv(h) && r < |h.heap|
    ensures multiset(PublishedOf(h.published, r))[e]
         == multiset(SentOf(h.sent, r))[e] + multiset(Buffer(h.heap[r], e.lane).queue)[e]
  {
    var published, sent := PublishedOn(h.published, r, e.lane), SentOn(h.sent, r, e.lane);
    assert LaneOk(h.heap[r], r, e.lane, published, sent);
    Projections(h.published, h.sent, r, e.lane);
    FilterCount(PublishedOf(h.published, r), e);
    FilterCount(SentOf(h.sent, r), e);
    assert multiset(sent + Buffer(h.heap[r], e.lane).queue)
         == multiset(sent) + multiset(Buffer(h.heap[r], e.lane).queue);
  }

  lemma SentIsPart(h: Hub, r: nat)
    requires Inv(h) && r < |h.heap|
    ensures multiset(SentOf(h.sent, r)) <= multiset(PublishedOf(h.published, r))
    ensures Pending(h.heap[r]) == {} ==> multiset(SentOf(h.sent, r)) == multiset(PublishedOf(h.published, r))
  {
    forall e
      ensures multiset(SentOf(h.sent, r))[e] <= multiset(PublishedOf(h.published, r))[e]
      ensures Pending(h.heap[r]) == {} ==>
                multiset(SentOf(h.sent, r))[e] == multiset(PublishedOf(h.published, r))[e] {
      LaneCounts(h, r, e);
      if e.lane in h.heap[r].lanes && h.heap[r].lanes[e.lane].queue != [] {
        assert e.lane in Pending(h.heap[r]);
      }
    }
  }

  lemma QueuedIsNotSent(h: Hub, r: nat, lane: string)
    requires Inv(h) && r < |h.heap| && lane in Pending(h.heap[r])
    ensures var e := h.heap[r].lanes[lane].queue[0];
            multiset(SentOf(h.sent, r))[e] < multiset(PublishedOf(h.published, r))[e]
  {
    var e := h.heap[r].lanes[lane].queue[0];
    QueuedLane(h, r, lane, e);
    LaneCounts(h, r, e);
    assert e in multiset(h.heap[r].lanes[lane].queue);
  }

  lemma PartSize<T>(a: seq<T>, b: seq<T>, e: T)
    requires multiset(b) <= multiset(a)
    ensures |b| <= |a| && (multiset(b)[e] < multiset(a)[e] ==> |b| < |a|) && (multiset(b) == multiset(a) ==> |b| == |a|)
  {
    var rest := multiset(a) - multiset(b);
    assert multiset(a) == multiset(b) + rest;
    assert |multiset(a)| == |a| && |multiset(b)| == |b|;
    if multiset(b)[e] < multiset(a)[e] { assert e in rest; }
  }

  lemma BacklogZero(h: Hub, r: nat)
    requires Inv(h) && r < |h.heap|
    ensures Backlog(h, r) >= 0
    ensures Backlog(h, r) == 0 <==> Pending(h.heap[r]) == {}
  {
    var published, sent := PublishedOf(h.published, r), SentOf(h.sent, r);
    SentIsPart(h, r);
    if Pending(h.heap[r]) != {} {
      var lane :| lane in Pending(h.heap[r]);
      QueuedIsNotSent(h, r, lane);
      PartSize(published, sent, h.heap[r].lanes[lane].queue[0]);
    } else {
      PartSize(published, sent, Envelope("", "", 0, 0, ""));
    }
  }

  lemma QueuedLane(h: Hub, r: nat, lane: string, e: Envelope)
    requires Inv(h) && r < |h.heap| && e in Buffer(h.heap[r], lane).queue
    ensures e.lane == lane && e.origin == r
  {
    var published, sent := PublishedOn(h.published, r, lane), SentOn(h.sent, r, lane);
    assert LaneOk(h.heap[r], r, lane, published, sent);
    assert e in published;
  }

  // ----- Draining -----

  /** The step neither addresses r's session nor publishes to its user, and does not resume its task. */
  ghost predicate Foreign(h: Hub, r: nat, step: Step)
    requires r < |h.heap|
  {
    match step
    case Register(s, _) => s != h.heap[r].sessionId
    case Unregister(s) => s != h.heap[r].sessionId
    case Publish(s, _, _) => s != h.heap[r].sessionId
    case PublishUser(u, _, _, _) => u != h.heap[r].userUid
    case Resume(t, _) => t != r
  }

  ghost predicate Window(h: Hub, r: nat, steps: seq<Step>)
    requires Closed(h)
    decreases |steps|
  {
    r < |h.heap| &&
    (steps == [] || ((Foreign(h, r, steps[0]) || (steps[0].Resume? && steps[0].task == r))
                     && Window(Next(h, steps[0]), r, steps[1..])))
  }

  function Resumes(steps: seq<Step>, r: nat): nat {
    if steps == [] then 0 else (if steps[0].Resume? && steps[0].task == r then 1 else 0) + Resumes(steps[1..], r)
  }

  lemma ForeignFrame(h: Hub, r: nat, step: Step)
    requires Inv(h) && r < |h.heap| && !h.heap[r].closed && Foreign(h, r, step)
    ensures Untouched(h, Next(h, step), r)
  {
    OwnRegistration(h, r);
    match step
    case Register(s, u) =>
      assert s in h.live ==> h.live[s] != r;
    case Unregister(s) =>
      assert s in h.live ==> h.live[s] != r;
    case Publish(s, e, lane) =>
      assert s in h.live ==> h.live[s] != r;
      PublishFrame(h, s, e, lane, r);
    case PublishUser(u, order, e, lane) =>
      if NoDup(order) && ToSet(order) == SessionsOf(h, u) {
        forall s | s in order && s in h.live ensures h.live[s] != r {
          assert s in ToSet(order);
          assert (u in h.users && s in h.users[u])
            <==> (s in Owners(h.heap, h.live) && u != "" && Owners(h.heap, h.live)[s] == u);
        }
        PublishAllFrame(h, order, e, lane, r);
      }
    case Resume(t, outcome) => ResumeFrame(h, t, outcome, r);
  }

  ghost predicate Before(a: Envelope, b: Envelope) {
    (a.lane != b.lane && LexLe(a.lane, b.lane)) || (a.lane == b.lane && a.sequence < b.sequence)
  }

  ghost predicate Ascending(envs: seq<Envelope>) {
    forall i, j | 0 <= i < j < |envs| :: Before(envs[i], envs[j])
  }

  /** Parked with nothing to do. */
  ghost predicate Quiet(reg: Registration, r: nat) {
    Pending(reg) == {} && reg.drain == Waiting(r) && !reg.wake
  }

  lemma IdleResume(h: Hub, r: nat, outcome: Outcome)
    requires Inv(h) && r < |h.heap| && !h.heap[r].closed && Pending(h.heap[r]) == {}
    ensures var h' := DoResume(h, r, outcome);
      && h'.sent == h.sent && h'.published == h.published && r < |h'.heap|
      && Quiet(h'.heap[r], r) && !h'.heap[r].closed
      && h'.heap[r].sessionId == h.heap[r].sessionId && h'.heap[r].userUid == h.heap[r].userUid
  {
    LiveResume(h, r, outcome);
    assert Control(h.heap[r], r);
    var g := Settled(h, r, outcome);
    assert Pending(g.heap[r]) == Pending(h.heap[r]);
    var h' := DoResume(h, r, outcome);
    assert Pending(h'.heap[r]) == Pending(h.heap[r]);
  }

  lemma QueueAhead(h: Hub, r: nat, e: Envelope)
    requires Inv(h) && r < |h.heap| && Pending(h.heap[r]) != {}
    requires var lane := Least(Pending(h.heap[r])); var queue := Buffer(h.heap[r], e.lane).queue;
      e in if e.lane == lane then queue[1..] else queue
    ensures Before(h.heap[r].lanes[Least(Pending(h.heap[r]))].queue[0], e)
  {
    var reg := h.heap[r];
    var lane := Least(Pending(reg));
    var first := reg.lanes[lane].queue[0];
    QueuedLane(h, r, lane, first);
    if e.lane == lane {
      var published, sent := PublishedOn(h.published, r, lane), SentOn(h.sent, r, lane);
      assert LaneOk(reg, r, lane, published, sent);
      var i :| 1 <= i < |reg.lanes[lane].queue| && reg.lanes[lane].queue[i] == e;
      assert published[|sent|] == first && published[|sent| + i] == e;
    } else {
      assert e.lane in Pending(reg);
    }
  }

  /** The first envelope goes ahead of everything the later resumes hand over. */
  lemma FirstAhead(h: Hub, g: Hub, r: nat, tail: seq<Envelope>)
    requires Inv(h) && r < |h.heap| && Pending(h.heap[r]) != {} && HandsOver(h, g, r)
    requires Ascending(tail) && forall e | e in tail :: e in Buffer(g.heap[r], e.lane).queue
    ensures var first := h.heap[r].lanes[Least(Pending(h.heap[r]))].queue[0];
      Ascending([first] + tail) && forall e | e in [first] + tail :: e in Buffer(h.heap[r], e.lane).queue
  {
    var lane := Least(Pending(h.heap[r]));
    var first := h.heap[r].lanes[lane].queue[0];
    QueuedLane(h, r, lane, first);
    forall e | e in tail ensures e in Buffer(h.heap[r], e.lane).queue && Before(first, e) {
      QueueAhead(h, r, e);
    }
    var all := [first] + tail;
    forall i, j | 0 <= i < j < |all| ensures Before(all[i], all[j]) {
      assert all[j] == tail[j - 1];
      if i > 0 { assert all[i] == tail[i - 1]; }
    }
  }

  /**
   * What n resumes of r's task do: they hand over one queued envelope each until the backlog is gone, in strictly
   * ascending (lane, sequence) order; once n reaches the backlog every lane is empty, and one more resume parks the
   * task with the wake event cleared.
   */
  ghost predicate Drained(h: Hub, r: nat, n: nat, h': Hub)
    requires r < |h.heap|
  {
    var before, after := SentOf(h.sent, r), SentOf(h'.sent, r);
    && r < |h'.heap|
    && before <= after
    && |after| - |before| == Min(n, Backlog(h, r))
    && Ascending(after[|before|..])
    && (forall e | e in after[|before|..] :: e in Buffer(h.heap[r], e.lane).queue)
    && (n >= Backlog(h, r) ==> Pending(h'.heap[r]) == {})
    && (n > Backlog(h, r) || Quiet(h.heap[r], r) ==> Quiet(h'.heap[r], r))
  }

  lemma DrainedAfterFirst(h: Hub, g: Hub, r: nat, n: nat, h': Hub)
    requires Inv(h) && r < |h.heap| && Pending(h.heap[r]) != {} && HandsOver(h, g, r)
    requires Drained(g, r, n, h')
    ensures Drained(h, r, n + 1, h')
  {
    var first := h.heap[r].lanes[Least(Pending(h.heap[r]))].queue[0];
    SentOfSnoc(h.sent, Handed(r, r, first), r);
    BacklogZero(h, r);
    var before, mid, after := SentOf(h.sent, r), SentOf(g.sent, r), SentOf(h'.sent, r);
    assert mid == before + [first];
    var tail := after[|mid|..];
    assert after[|before|..] == [first] + tail;
    FirstAhead(h, g, r, tail);
  }

  lemma DrainedIdle(h: Hub, g: Hub, r: nat, n: nat, h': Hub)
    requires Inv(h) && r < |h.heap| && Pending(h.heap[r]) == {} && g.sent == h.sent && g.published == h.published
    requires r < |g.heap| && Quiet(g.heap[r], r) && Drained(g, r, n, h')
    ensures Drained(h, r, n + 1, h')
  {
    BacklogZero(h, r);
    var before, after := SentOf(h.sent, r), SentOf(h'.sent, r);
    assert after[|before|..] == [];
  }

  /**
   * Once publishing to a session stops, its task empties every lane as `Drained` says, whatever its sends return and
   * whatever other sessions and tasks do in between.
   */
  lemma {:induction false} DrainCompletes(h: Hub, r: nat, steps: seq<Step>)
    requires Inv(h) && r < |h.heap| && !h.heap[r].closed && Window(h, r, steps)
    ensures Drained(h, r, Resumes(steps, r), Run(h, steps))
    decreases |steps|
  {
    BacklogZero(h, r);
    if steps == [] {
      var before := SentOf(h.sent, r);
      assert before[|before|..] == [];
    } else {
      var g := Next(h, steps[0]);
      NextInv(h, steps[0]);
      if Foreign(h, r, steps[0]) {
        ForeignFrame(h, r, steps[0]);
        DrainCompletes(g, r, steps[1..]);
      } else if Pending(h.heap[r]) == {} {
        IdleResume(h, r, steps[0].outcome);
        DrainCompletes(g, r, steps[1..]);
        DrainedIdle(h, g, r, Resumes(steps[1..], r), Run(h, steps));
      } else {
        ResumeHands(h, r, steps[0].outcome);
        DrainCompletes(g, r, steps[1..]);
        DrainedAfterFirst(h, g, r, Resumes(steps[1..], r), Run(h, steps));
      }
    }
  }
}
