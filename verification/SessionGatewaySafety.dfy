/** What every interleaving of publishers, (un)registrations and drain tasks keeps. */
module SessionGatewaySafety {
  import opened Seqs
  import opened SessionGateway

  // ----- Per-registration, per-lane history -----

  function PublishedOn(published: seq<Envelope>, r: nat, lane: string): seq<Envelope> {
    if published == [] then []
    else
      var last := published[|published| - 1];
      PublishedOn(published[..|published| - 1], r, lane) + if last.origin == r && last.lane == lane then [last] else []
  }

  function SentOn(sent: seq<Handed>, r: nat, lane: string): seq<Envelope> {
    if sent == [] then []
    else
      var last := sent[|sent| - 1];
      SentOn(sent[..|sent| - 1], r, lane) + if last.sender == r && last.env.lane == lane then [last.env] else []
  }

  lemma PublishedSnoc(published: seq<Envelope>, env: Envelope, r: nat, lane: string)
    ensures PublishedOn(published + [env], r, lane)
         == PublishedOn(published, r, lane) + if env.origin == r && env.lane == lane then [env] else []
  {
    assert (published + [env])[..|published|] == published;
  }

  lemma SentSnoc(sent: seq<Handed>, x: Handed, r: nat, lane: string)
    ensures SentOn(sent + [x], r, lane)
         == SentOn(sent, r, lane) + if x.sender == r && x.env.lane == lane then [x.env] else []
  {
    assert (sent + [x])[..|sent|] == sent;
  }

  // ----- The invariant -----

  ghost predicate Numbered(envs: seq<Envelope>, r: nat, sessionId: string, lane: string) {
    forall i | 0 <= i < |envs| :: envs[i] == Envelope(sessionId, lane, i + 1, r, envs[i].event)
  }

  /** What was published on the lane is what was handed over, followed by what is still queued. */
  ghost predicate LaneOk(reg: Registration, r: nat, lane: string, published: seq<Envelope>, sent: seq<Envelope>) {
    var b := Buffer(reg, lane);
    && published == sent + b.queue
    && Numbered(published, r, reg.sessionId, lane)
    && b.enqueued == Sequence(reg, lane) == |published|
    && b.delivered + (if reg.drain == Sending(r, lane) then 1 else 0) <= |sent|
  }

  ghost predicate Control(reg: Registration, r: nat) {
    && (reg.closed <==> reg.cancelled)
    && (reg.closed ==> reg.wake)
    && (!reg.closed ==> !reg.drain.Done?)
    && (reg.drain.Waiting? || reg.drain.Sending? ==> reg.drain.on == r)
    && (Pending(reg) != {} ==> reg.wake)
  }

  ghost predicate Lanes(reg: Registration, r: nat, published: seq<Envelope>, sent: seq<Handed>) {
    forall lane :: LaneOk(reg, r, lane, PublishedOn(published, r, lane), SentOn(sent, r, lane))
  }

  ghost predicate Indexed(heap: seq<Registration>, live: map<string, nat>) {
    && (forall s | s in live :: live[s] < |heap| && heap[live[s]].sessionId == s && !heap[live[s]].closed)
    && (forall r | 0 <= r < |heap| && !heap[r].closed :: heap[r].sessionId in live && live[heap[r].sessionId] == r)
  }

  /** The user of each live session. */
  function Owners(heap: seq<Registration>, live: map<string, nat>): map<string, string> {
    map s | s in live && live[s] < |heap| :: heap[live[s]].userUid
  }

  /** The user index is exactly the inverse of the live registrations (those without a user are not indexed). */
  ghost predicate UsersExact(owners: map<string, string>, users: map<string, set<string>>) {
    && (forall u, s :: (u in users && s in users[u]) <==> (s in owners && u != "" && owners[s] == u))
    && (forall u | u in users :: users[u] != {})
  }

  ghost predicate Routed(x: Handed) {
    x.task == x.sender == x.env.origin
  }

  ghost predicate Inv(h: Hub) {
    && Closed(h)
    && Indexed(h.heap, h.live)
    && UsersExact(Owners(h.heap, h.live), h.users)
    && (forall r | 0 <= r < |h.heap| :: Control(h.heap[r], r) && Lanes(h.heap[r], r, h.published, h.sent))
    && (forall x | x in h.sent :: Routed(x) && x.sender < |h.heap|)
    && (forall e | e in h.published :: e.origin < |h.heap|)
  }

  lemma InitInv()
    ensures Inv(INIT)
  {
  }

  // ----- Steps that touch one registration only -----

  /** `h'` differs from `h` only in registration r and in history entries of r. */
  ghost predicate Only(h: Hub, h': Hub, r: nat) {
    && r < |h.heap| == |h'.heap|
    && h'.live == h.live && h'.users == h.users
    && (forall i | 0 <= i < |h.heap| && i != r :: h'.heap[i] == h.heap[i])
    && h'.heap[r].sessionId == h.heap[r].sessionId && h'.heap[r].userUid == h.heap[r].userUid
    && h'.heap[r].closed == h.heap[r].closed
    && (h'.published == h.published || exists e :: h'.published == h.published + [e] && e.origin == r)
    && (h'.sent == h.sent || exists x :: h'.sent == h.sent + [x] && x.sender == r && Routed(x))
  }

  lemma OtherLane(h: Hub, h': Hub, r: nat, i: nat, lane: string)
    requires Only(h, h', r) && i != r
    ensures PublishedOn(h'.published, i, lane) == PublishedOn(h.published, i, lane)
    ensures SentOn(h'.sent, i, lane) == SentOn(h.sent, i, lane)
  {
    if h'.published != h.published {
      var e :| h'.published == h.published + [e] && e.origin == r;
      PublishedSnoc(h.published, e, i, lane);
    }
    if h'.sent != h.sent {
      var x :| h'.sent == h.sent + [x] && x.sender == r && Routed(x);
      SentSnoc(h.sent, x, i, lane);
    }
  }

  lemma OnlyInv(h: Hub, h': Hub, r: nat)
    requires Inv(h) && Closed(h') && Only(h, h', r)
    requires Control(h'.heap[r], r) && Lanes(h'.heap[r], r, h'.published, h'.sent)
    ensures Inv(h')
  {
    forall i | 0 <= i < |h'.heap| ensures Control(h'.heap[i], i) && Lanes(h'.heap[i], i, h'.published, h'.sent) {
      if i != r {
        forall lane ensures LaneOk(h'.heap[i], i, lane, PublishedOn(h'.published, i, lane), SentOn(h'.sent, i, lane)) {
          OtherLane(h, h', r, i, lane);
          assert LaneOk(h.heap[i], i, lane, PublishedOn(h.published, i, lane), SentOn(h.sent, i, lane));
        }
      }
    }
    assert forall s | s in h'.live :: h'.heap[h'.live[s]].closed == h.heap[h.live[s]].closed;
    assert Owners(h'.heap, h'.live) == Owners(h.heap, h.live) by {
      forall s | s in h.live ensures h'.heap[h.live[s]].userUid == h.heap[h.live[s]].userUid {
        if h.live[s] != r { assert h'.heap[h.live[s]] == h.heap[h.live[s]]; }
      }
    }
  }

  // ----- publish -----

  lemma AppendLane(reg: Registration, r: nat, event: string, name: string, lane: string,
                   published: seq<Envelope>, sent: seq<Envelope>)
    requires LaneOk(reg, r, lane, published, sent)
    ensures var env := Stamp(reg, r, event, name);
            LaneOk(Append(reg, env), r, lane, published + (if lane == name then [env] else []), sent)
  {
    var env := Stamp(reg, r, event, name);
    if lane == name {
      ConcatAssoc(sent, Buffer(reg, lane).queue, [env]);
    } else {
      assert published + [] == published;
    }
  }

  lemma PublishInv(h: Hub, sessionId: string, event: string, lane: string)
    requires Inv(h)
    ensures Inv(DoPublish(h, sessionId, event, lane).0)
    ensures DoPublish(h, sessionId, event, lane).1 <==> sessionId in h.live
  {
    if sessionId in h.live {
      var r, name := h.live[sessionId], LaneName(lane);
      var reg := h.heap[r];
      var env := Stamp(reg, r, event, name);
      var h' := DoPublish(h, sessionId, event, lane).0;
      forall l ensures LaneOk(h'.heap[r], r, l, PublishedOn(h'.published, r, l), SentOn(h'.sent, r, l)) {
        assert LaneOk(reg, r, l, PublishedOn(h.published, r, l), SentOn(h.sent, r, l));
        PublishedSnoc(h.published, env, r, l);
        AppendLane(reg, r, event, name, l, PublishedOn(h.published, r, l), SentOn(h.sent, r, l));
      }
      OnlyInv(h, h', r);
    }
  }

  // ----- the drain -----

  /** Changing only wake, drain state or last error leaves every lane as it was, unless a delivery is in flight. */
  lemma SameLanes(reg: Registration, reg': Registration, r: nat, published: seq<Envelope>, sent: seq<Handed>)
    requires Lanes(reg, r, published, sent)
    requires reg'.lanes == reg.lanes && reg'.sequences == reg.sequences && reg'.sessionId == reg.sessionId
    requires !reg'.drain.Sending?
    ensures Lanes(reg', r, published, sent)
  {
    forall lane ensures LaneOk(reg', r, lane, PublishedOn(published, r, lane), SentOn(sent, r, lane)) {
      assert LaneOk(reg, r, lane, PublishedOn(published, r, lane), SentOn(sent, r, lane));
    }
  }

  lemma FinishInv(h: Hub, task: nat)
    requires Inv(h) && task < |h.heap| && h.heap[task].closed
    ensures Inv(Finish(h, task))
  {
    var h' := Finish(h, task);
    SameLanes(h.heap[task], h'.heap[task], task, h.published, h.sent);
    OnlyInv(h, h', task);
  }

  /** A live drain task looks up its own registration. */
  lemma OwnRegistration(h: Hub, task: nat)
    requires Inv(h) && task < |h.heap| && !h.heap[task].closed
    ensures h.heap[task].sessionId in h.live && h.live[h.heap[task].sessionId] == task
  {
  }

  ghost predicate NotSending(h: Hub, task: nat) {
    task < |h.heap| && !h.heap[task].drain.Sending?
  }

  lemma PopLaneOk(reg: Registration, r: nat, popped: string, lane: string, published: seq<Envelope>,
                  sent: seq<Envelope>)
    requires !reg.drain.Sending? && popped in Pending(reg)
    requires LaneOk(reg, r, lane, published, sent)
    ensures var env := reg.lanes[popped].queue[0];
            LaneOk(PopLane(reg, popped).(drain := Sending(r, popped)), r, lane, published,
                   sent + (if lane == popped then [env] else []))
            && (lane == popped ==> env.lane == popped && env.origin == r && env.sessionId == reg.sessionId)
  {
    var queue := reg.lanes[popped].queue;
    if lane == popped {
      assert queue == [queue[0]] + queue[1..];
      ConcatAssoc(sent, [queue[0]], queue[1..]);
      assert published[|sent|] == queue[0];
    } else {
      assert sent + [] == sent;
    }
  }

  /** What a drain task of r does when it looks for the next envelope. */
  lemma DrainOnInv(h: Hub, r: nat)
    requires Inv(h) && NotSending(h, r) && !h.heap[r].closed
    ensures Inv(DrainOn(h, r, r))
  {
    var reg, h' := h.heap[r], DrainOn(h, r, r);
    if Pending(reg) == {} {
      SameLanes(reg, h'.heap[r], r, h.published, h.sent);
      assert Pending(h'.heap[r]) == Pending(reg);
      OnlyInv(h, h', r);
    } else {
      var lane := Least(Pending(reg));
      var env := reg.lanes[lane].queue[0];
      var x := Handed(r, r, env);
      forall l ensures LaneOk(h'.heap[r], r, l, PublishedOn(h'.published, r, l), SentOn(h'.sent, r, l)) {
        assert LaneOk(reg, r, lane, PublishedOn(h.published, r, lane), SentOn(h.sent, r, lane));
        assert LaneOk(reg, r, l, PublishedOn(h.published, r, l), SentOn(h.sent, r, l));
        PopLaneOk(reg, r, lane, lane, PublishedOn(h.published, r, lane), SentOn(h.sent, r, lane));
        PopLaneOk(reg, r, lane, l, PublishedOn(h.published, r, l), SentOn(h.sent, r, l));
        SentSnoc(h.sent, x, r, l);
      }
      assert LaneOk(reg, r, lane, PublishedOn(h.published, r, lane), SentOn(h.sent, r, lane));
      PopLaneOk(reg, r, lane, lane, PublishedOn(h.published, r, lane), SentOn(h.sent, r, lane));
      assert Pending(h'.heap[r]) <= Pending(reg);
      OnlyInv(h, h', r);
    }
  }

  lemma SettleLane(reg: Registration, r: nat, lane: string, outcome: Outcome, l: string,
                   published: seq<Envelope>, sent: seq<Envelope>)
    requires reg.drain == Sending(r, lane) && LaneOk(reg, r, l, published, sent)
    ensures LaneOk(Settle(reg, lane, outcome).(drain := Starting), r, l, published, sent)
  {
  }

  /** After its `send` returns, the drain task goes on as from the start of its loop. */
  lemma SettleInv(h: Hub, r: nat, lane: string, outcome: Outcome)
    requires Inv(h) && r < |h.heap| && h.heap[r].drain == Sending(r, lane) && !h.heap[r].closed
    ensures Inv(h.(heap := h.heap[r := Settle(h.heap[r], lane, outcome).(drain := Starting)]))
  {
    var reg := h.heap[r];
    var h' := h.(heap := h.heap[r := Settle(reg, lane, outcome).(drain := Starting)]);
    forall l ensures LaneOk(h'.heap[r], r, l, PublishedOn(h.published, r, l), SentOn(h.sent, r, l)) {
      assert LaneOk(reg, r, l, PublishedOn(h.published, r, l), SentOn(h.sent, r, l));
      SettleLane(reg, r, lane, outcome, l, PublishedOn(h.published, r, l), SentOn(h.sent, r, l));
    }
    assert Pending(h'.heap[r]) == Pending(reg);
    OnlyInv(h, h', r);
  }

  /** The state in which a live task enters its inner loop: as it is, or after settling the returned `send`. */
  ghost function Settled(h: Hub, r: nat, outcome: Outcome): Hub
    requires r < |h.heap|
  {
    if h.heap[r].drain.Sending?
    then h.(heap := h.heap[r := Settle(h.heap[r], h.heap[r].drain.lane, outcome).(drain := Starting)])
    else h
  }

  lemma SettledInv(h: Hub, r: nat, outcome: Outcome)
    requires Inv(h) && r < |h.heap| && !h.heap[r].closed
    ensures Inv(Settled(h, r, outcome)) && NotSending(Settled(h, r, outcome), r)
  {
    assert Control(h.heap[r], r);
    if h.heap[r].drain.Sending? {
      SettleInv(h, r, h.heap[r].drain.lane, outcome);
    }
  }

  /** Is there something for the drain task to do, or would resuming it find it still waiting? */
  ghost predicate Runnable(reg: Registration) {
    reg.drain.Sending? || reg.wake || reg.cancelled
  }

  lemma ResumeSending(h: Hub, r: nat, outcome: Outcome)
    requires Inv(h) && r < |h.heap| && !h.heap[r].closed && h.heap[r].drain.Sending? && Closed(Settled(h, r, outcome))
    ensures DoResume(h, r, outcome) == DrainOn(Settled(h, r, outcome), r, r)
  {
    var reg := h.heap[r];
    assert Control(reg, r);
    OwnRegistration(h, r);
    var g := h.(heap := h.heap[r := Settle(reg, reg.drain.lane, outcome)]);
    SettleKeepsId(reg, reg.drain.lane, outcome);
    InnerLooks(g, r);
    SendingForgotten(g, Settled(h, r, outcome), r);
  }

  lemma SettleKeepsId(reg: Registration, lane: string, outcome: Outcome)
    ensures var after := Settle(reg, lane, outcome);
      after.sessionId == reg.sessionId && after.closed == reg.closed && after.drain == reg.drain
  {
  }

  /** The lookup by session id of a live registration's task finds that registration. */
  lemma InnerLooks(g: Hub, r: nat)
    requires Closed(g) && r < |g.heap| && !g.heap[r].closed
    requires g.heap[r].sessionId in g.live && g.live[g.heap[r].sessionId] == r
    ensures DrainInner(g, r) == DrainOn(g, r, r)
  {
  }

  /** Resuming a live task is: nothing (it starts to wait or keeps waiting), or one look for the next envelope. */
  lemma LiveResume(h: Hub, r: nat, outcome: Outcome)
    requires Inv(h) && r < |h.heap| && !h.heap[r].closed
    ensures Closed(Settled(h, r, outcome))
    ensures var reg := h.heap[r];
      DoResume(h, r, outcome)
        == if Runnable(reg) then DrainOn(Settled(h, r, outcome), r, r)
           else h.(heap := h.heap[r := reg.(drain := Waiting(r))])
  {
    var reg := h.heap[r];
    assert Control(reg, r);
    OwnRegistration(h, r);
    SettledInv(h, r, outcome);
    if reg.drain.Sending? {
      ResumeSending(h, r, outcome);
    } else if !reg.wake && reg.drain.Waiting? {
      assert reg == reg.(drain := Waiting(r));
    }
  }

  /** `DrainOn` overwrites the drain task's await point, so it does not depend on the old one. */
  lemma SendingForgotten(g: Hub, g': Hub, r: nat)
    requires Closed(g) && Closed(g') && r < |g.heap|
    requires g' == g.(heap := g.heap[r := g.heap[r].(drain := Starting)])
    ensures DrainOn(g, r, r) == DrainOn(g', r, r)
  {
    assert Pending(g.heap[r]) == Pending(g'.heap[r]);
    assert DrainOn(g, r, r).heap == DrainOn(g', r, r).heap;
  }

  lemma ResumeInv(h: Hub, task: nat, outcome: Outcome)
    requires Inv(h)
    ensures Inv(DoResume(h, task, outcome))
  {
    if task < |h.heap| {
      assert Control(h.heap[task], task);
      if h.heap[task].closed {
        FinishInv(h, task);
      } else {
        LiveResume(h, task, outcome);
        if Runnable(h.heap[task]) {
          SettledInv(h, task, outcome);
          DrainOnInv(Settled(h, task, outcome), task);
        } else {
          var h' := DoResume(h, task, outcome);
          SameLanes(h.heap[task], h'.heap[task], task, h.published, h.sent);
          assert Pending(h'.heap[task]) == Pending(h.heap[task]);
          OnlyInv(h, h', task);
        }
      }
    }
  }

  // ----- register / unregister -----

  lemma UnregisterInv(h: Hub, sessionId: string)
    requires Inv(h)
    ensures Inv(DoUnregister(h, sessionId))
  {
    if sessionId in h.live {
      var r, h' := h.live[sessionId], DoUnregister(h, sessionId);
      forall i | 0 <= i < |h'.heap| ensures Control(h'.heap[i], i) && Lanes(h'.heap[i], i, h'.published, h'.sent) {
        if i == r {
          forall l ensures LaneOk(h'.heap[r], r, l, PublishedOn(h.published, r, l), SentOn(h.sent, r, l)) {
            assert LaneOk(h.heap[r], r, l, PublishedOn(h.published, r, l), SentOn(h.sent, r, l));
          }
        }
      }
      UnregisterIndexed(h, sessionId);
      DropExact(Owners(h.heap, h.live), h.users, sessionId);
    }
  }

  lemma UnregisterIndexed(h: Hub, sessionId: string)
    requires Inv(h) && sessionId in h.live
    ensures var h' := DoUnregister(h, sessionId);
            Indexed(h'.heap, h'.live) && Owners(h'.heap, h'.live) == Owners(h.heap, h.live) - {sessionId}
  {
    var r, h' := h.live[sessionId], DoUnregister(h, sessionId);
    forall s | s in h'.live ensures h'.heap[h'.live[s]] == h.heap[h.live[s]] {
      assert h.live[s] != r;
    }
  }

  lemma DropExact(owners: map<string, string>, users: map<string, set<string>>, sessionId: string)
    requires UsersExact(owners, users) && sessionId in owners
    ensures UsersExact(owners - {sessionId}, DropUser(users, owners[sessionId], sessionId))
  {
    var user := owners[sessionId];
    var users' := DropUser(users, user, sessionId);
    forall u, s ensures (u in users' && s in users'[u]) <==> (s in owners - {sessionId} && u != "" && owners[s] == u) {
      assert (u in users && s in users[u]) <==> (s in owners && u != "" && owners[s] == u);
      if u == user && u in users && s in users[u] && s != sessionId {
        assert s in users[u] - {sessionId};
      }
    }
  }

  lemma AddExact(owners: map<string, string>, users: map<string, set<string>>, sessionId: string, user: string)
    requires UsersExact(owners, users) && sessionId !in owners
    ensures UsersExact(owners[sessionId := user], AddUser(users, user, sessionId))
  {
    var users', owners' := AddUser(users, user, sessionId), owners[sessionId := user];
    forall u, s ensures (u in users' && s in users'[u]) <==> (s in owners' && u != "" && owners'[s] == u) {
      assert (u in users && s in users[u]) <==> (s in owners && u != "" && owners[s] == u);
    }
  }

  /** Nobody has published on, or been sent from, a registration that does not exist yet. */
  lemma {:induction false} NoHistory(published: seq<Envelope>, sent: seq<Handed>, r: nat, lane: string)
    requires (forall e | e in published :: e.origin < r) && (forall x | x in sent :: x.sender < r)
    ensures PublishedOn(published, r, lane) == [] && SentOn(sent, r, lane) == []
    decreases |published| + |sent|
  {
    if published != [] {
      NoHistory(published[..|published| - 1], sent, r, lane);
    } else if sent != [] {
      NoHistory(published, sent[..|sent| - 1], r, lane);
    }
  }

  lemma RegisterInv(h: Hub, sessionId: string, user: string)
    requires Inv(h)
    ensures Inv(DoRegister(h, sessionId, user))
  {
    UnregisterInv(h, sessionId);
    AddInv(DoUnregister(h, sessionId), sessionId, user);
  }

  function Added(g: Hub, sessionId: string, user: string): Hub {
    g.(heap := g.heap + [NewRegistration(sessionId, user)],
       live := g.live[sessionId := |g.heap|], users := AddUser(g.users, user, sessionId))
  }

  lemma AddLanes(g: Hub, sessionId: string, user: string, i: nat)
    requires Inv(g) && i <= |g.heap|
    ensures var reg := Added(g, sessionId, user).heap[i]; Control(reg, i) && Lanes(reg, i, g.published, g.sent)
  {
    var reg := Added(g, sessionId, user).heap[i];
    if i < |g.heap| {
      assert reg == g.heap[i];
    } else {
      forall lane ensures LaneOk(reg, i, lane, PublishedOn(g.published, i, lane), SentOn(g.sent, i, lane)) {
        NoHistory(g.published, g.sent, i, lane);
      }
      assert Pending(reg) == {};
    }
  }

  lemma AddIndexed(g: Hub, sessionId: string, user: string)
    requires Inv(g) && sessionId !in g.live
    ensures var h' := Added(g, sessionId, user);
            Indexed(h'.heap, h'.live) && Owners(h'.heap, h'.live) == Owners(g.heap, g.live)[sessionId := user]
  {
    IndexGrows(g.heap, g.live, NewRegistration(sessionId, user));
    OwnersGrow(g.heap, g.live, NewRegistration(sessionId, user));
  }

  lemma IndexGrows(heap: seq<Registration>, live: map<string, nat>, reg: Registration)
    requires Indexed(heap, live) && reg.sessionId !in live && !reg.closed
    ensures Indexed(heap + [reg], live[reg.sessionId := |heap|])
  {
    var all, live' := heap + [reg], live[reg.sessionId := |heap|];
    forall r | 0 <= r < |all| && !all[r].closed ensures all[r].sessionId in live' && live'[all[r].sessionId] == r {
      if r < |heap| { assert all[r] == heap[r]; }
    }
  }

  lemma OwnersGrow(heap: seq<Registration>, live: map<string, nat>, reg: Registration)
    requires Indexed(heap, live) && reg.sessionId !in live
    ensures Owners(heap + [reg], live[reg.sessionId := |heap|]) == Owners(heap, live)[reg.sessionId := reg.userUid]
  {
    forall s | s in live ensures (heap + [reg])[live[s]] == heap[live[s]] {}
  }

  lemma AddInv(g: Hub, sessionId: string, user: string)
    requires Inv(g) && sessionId !in g.live
    ensures Inv(Added(g, sessionId, user))
  {
    AddIndexed(g, sessionId, user);
    AddExact(Owners(g.heap, g.live), g.users, sessionId, user);
    AddClosed(g, sessionId, user);
    forall i | 0 <= i <= |g.heap|
      ensures var reg := Added(g, sessionId, user).heap[i]; Control(reg, i) && Lanes(reg, i, g.published, g.sent) {
      AddLanes(g, sessionId, user, i);
    }
  }

  lemma AddClosed(g: Hub, sessionId: string, user: string)
    requires Closed(g)
    ensures Closed(Added(g, sessionId, user))
  {
  }

  // ----- Every run -----

  lemma {:induction false} PublishAllInv(h: Hub, order: seq<string>, event: string, lane: string)
    requires Inv(h)
    ensures Inv(PublishAll(h, order, event, lane).0)
    ensures PublishAll(h, order, event, lane).0.live == h.live
    ensures (forall s | s in order :: s in h.live) ==> PublishAll(h, order, event, lane).1 == |order|
    decreases |order|
  {
    if order != [] {
      var n := |order| - 1;
      PublishAllInv(h, order[..n], event, lane);
      PublishInv(PublishAll(h, order[..n], event, lane).0, order[n], event, lane);
    }
  }

  lemma NextInv(h: Hub, step: Step)
    requires Inv(h)
    ensures Inv(Next(h, step))
  {
    match step
    case Register(s, u) => RegisterInv(h, s, u);
    case Unregister(s) => UnregisterInv(h, s);
    case Publish(s, e, lane) => PublishInv(h, s, e, lane);
    case PublishUser(u, order, e, lane) => PublishAllInv(h, order, e, lane);
    case Resume(task, outcome) => ResumeInv(h, task, outcome);
  }

  lemma {:induction false} RunInv(h: Hub, steps: seq<Step>)
    requires Inv(h)
    ensures Inv(Run(h, steps))
    decreases |steps|
  {
    if steps != [] {
      NextInv(h, steps[0]);
      RunInv(Next(h, steps[0]), steps[1..]);
    }
  }
}
