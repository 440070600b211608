/** What the hub does for its callers, read off the calls alone: who is live, which events arrive, what is recorded. */
module SessionGatewayCalls {
  import opened Text
  import opened Seqs
  import opened SessionGateway
  import opened SessionGatewaySafety
  import opened SessionGatewayTheorems

  // ----- The calls -----

  function Registered(steps: seq<Step>): nat {
    if steps == [] then 0
    else Registered(steps[..|steps| - 1]) + if steps[|steps| - 1].Register? then 1 else 0
  }

  /** The registration the session has: its last one, counted from 0, unless it was unregistered since. */
  function LiveReg(steps: seq<Step>, s: string): Option<nat> {
    if steps == [] then None
    else
      var before, last := steps[..|steps| - 1], steps[|steps| - 1];
      if last.Register? && last.sessionId == s then Some(Registered(before))
      else if last.Unregister? && last.sessionId == s then None
      else LiveReg(before, s)
  }

  /** The session id and the user of the r-th registration. */
  function RegisteredAs(steps: seq<Step>, r: nat): (string, string) {
    if steps == [] then ("", "")
    else
      var before, last := steps[..|steps| - 1], steps[|steps| - 1];
      if last.Register? && Registered(before) == r then (last.sessionId, last.userUid) else RegisteredAs(before, r)
  }

  predicate OnLane(lane: string, name: string) {
    name == if Blank(lane) then "main" else Strip(lane)
  }

  /** The order names exactly the live sessions of the user, each once. */
  ghost predicate Lists(steps: seq<Step>, user: string, order: seq<string>) {
    NoDup(order) && forall s :: s in order <==> user != "" && LiveUser(steps, s) == Some(user)
  }

  function LiveUser(steps: seq<Step>, s: string): Option<string> {
    match LiveReg(steps, s) case None => None case Some(r) => Some(RegisteredAs(steps, r).1)
  }

  ghost predicate Reaches(steps: seq<Step>, step: Step, r: nat, name: string) {
    match step
    case Publish(s, _, lane) => LiveReg(steps, s) == Some(r) && OnLane(lane, name)
    case PublishUser(u, order, _, lane) => Lists(steps, u, order) && Among(steps, order, r) && OnLane(lane, name)
    case _ => false
  }

  ghost predicate Among(steps: seq<Step>, order: seq<string>, r: nat) {
    exists s | s in order :: LiveReg(steps, s) == Some(r)
  }

  /** The events published to the registration on the lane while it was live, in order. */
  ghost function Accepted(steps: seq<Step>, r: nat, name: string): seq<string> {
    if steps == [] then []
    else
      var before, last := steps[..|steps| - 1], steps[|steps| - 1];
      Accepted(before, r, name) + if Reaches(before, last, r, name) then [last.event] else []
  }

  // ----- Registrations -----

  lemma {:induction false} RunLast(h: Hub, steps: seq<Step>)
    requires Closed(h) && steps != []
    ensures Run(h, steps) == Next(Run(h, steps[..|steps| - 1]), steps[|steps| - 1])
    decreases |steps|
  {
    var n := |steps| - 1;
    if n > 0 {
      var rest := steps[1..];
      assert rest[..n - 1] == steps[..n][1..] && rest[n - 1] == steps[n] && steps[..n][0] == steps[0];
      RunLast(Next(h, steps[0]), steps[1..]);
    }
  }

  lemma Reachable(steps: seq<Step>)
    ensures Inv(Run(INIT, steps))
  {
    InitInv();
    RunInv(INIT, steps);
  }

  ghost predicate LiveTracks(steps: seq<Step>, live: map<string, nat>) {
    forall s :: LiveReg(steps, s) == if s in live then Some(live[s]) else None
  }

  ghost predicate IdsTrack(steps: seq<Step>, heap: seq<Registration>) {
    && |heap| == Registered(steps)
    && forall r | 0 <= r < |heap| :: (heap[r].sessionId, heap[r].userUid) == RegisteredAs(steps, r)
  }

  /** The hub's dict and its registrations are those the calls say. */
  ghost predicate Tracks(steps: seq<Step>, h: Hub) {
    LiveTracks(steps, h.live) && IdsTrack(steps, h.heap)
  }

  ghost predicate SameIds(a: seq<Registration>, b: seq<Registration>) {
    && |a| == |b|
    && forall r | 0 <= r < |a| :: b[r].sessionId == a[r].sessionId && b[r].userUid == a[r].userUid
  }

  ghost predicate KeepsIds(h: Hub, h': Hub) {
    h'.live == h.live && SameIds(h.heap, h'.heap)
  }

  lemma {:induction false} PublishAllKeepsIds(h: Hub, order: seq<string>, event: string, lane: string)
    requires Inv(h)
    ensures KeepsIds(h, PublishAll(h, order, event, lane).0)
    decreases |order|
  {
    if order != [] {
      PublishAllKeepsIds(h, order[..|order| - 1], event, lane);
    }
  }

  lemma ResumeKeepsIds(h: Hub, t: nat, outcome: Outcome)
    requires Inv(h)
    ensures KeepsIds(h, DoResume(h, t, outcome))
  {
    if t < |h.heap| && !h.heap[t].closed {
      LiveResume(h, t, outcome);
      if Runnable(h.heap[t]) {
        DrainOnKeepsIds(Settled(h, t, outcome), t);
      }
    } else if t < |h.heap| {
      assert Control(h.heap[t], t);
    }
  }

  lemma DrainOnKeepsIds(h: Hub, t: nat)
    requires Closed(h) && t < |h.heap|
    ensures KeepsIds(h, DrainOn(h, t, t))
  {
  }

  lemma SameTracked(steps: seq<Step>, heap: seq<Registration>, heap': seq<Registration>)
    requires steps != [] && IdsTrack(steps[..|steps| - 1], heap) && SameIds(heap, heap')
    requires !steps[|steps| - 1].Register?
    ensures IdsTrack(steps, heap')
  {
  }

  lemma NewTracked(steps: seq<Step>, heap: seq<Registration>, heap': seq<Registration>)
    requires steps != [] && IdsTrack(steps[..|steps| - 1], heap) && SameIds(heap, heap')
    requires steps[|steps| - 1].Register?
    ensures IdsTrack(steps, heap' + [NewRegistration(steps[|steps| - 1].sessionId, steps[|steps| - 1].userUid)])
  {
  }

  lemma SameLive(steps: seq<Step>, live: map<string, nat>)
    requires steps != [] && LiveTracks(steps[..|steps| - 1], live)
    requires !steps[|steps| - 1].Register? && !steps[|steps| - 1].Unregister?
    ensures LiveTracks(steps, live)
  {
  }

  lemma RegisteredLive(steps: seq<Step>, live: map<string, nat>)
    requires steps != [] && LiveTracks(steps[..|steps| - 1], live) && steps[|steps| - 1].Register?
    ensures LiveTracks(steps, live[steps[|steps| - 1].sessionId := Registered(steps[..|steps| - 1])])
  {
  }

  lemma UnregisteredLive(steps: seq<Step>, live: map<string, nat>)
    requires steps != [] && LiveTracks(steps[..|steps| - 1], live) && steps[|steps| - 1].Unregister?
    ensures LiveTracks(steps, live - {steps[|steps| - 1].sessionId})
  {
  }

  lemma UnregisterKeepsIds(h: Hub, s: string)
    requires Closed(h)
    ensures SameIds(h.heap, DoUnregister(h, s).heap) && DoUnregister(h, s).live == h.live - {s}
  {
  }

  lemma RegisterTracked(steps: seq<Step>, h: Hub)
    requires steps != [] && Inv(h) && Tracks(steps[..|steps| - 1], h) && steps[|steps| - 1].Register?
    ensures Tracks(steps, Next(h, steps[|steps| - 1]))
  {
    var s := steps[|steps| - 1].sessionId;
    var g := DoUnregister(h, s);
    UnregisterKeepsIds(h, s);
    NewTracked(steps, h.heap, g.heap);
    RegisteredLive(steps, h.live);
    assert g.live[s := |g.heap|] == h.live[s := |h.heap|];
  }

  lemma UnregisterTracked(steps: seq<Step>, h: Hub)
    requires steps != [] && Inv(h) && Tracks(steps[..|steps| - 1], h) && steps[|steps| - 1].Unregister?
    ensures Tracks(steps, Next(h, steps[|steps| - 1]))
  {
    var s := steps[|steps| - 1].sessionId;
    UnregisterKeepsIds(h, s);
    SameTracked(steps, h.heap, DoUnregister(h, s).heap);
    UnregisteredLive(steps, h.live);
  }

  lemma PublishKeepsIds(h: Hub, step: Step)
    requires Inv(h) && (step.Publish? || step.PublishUser?)
    ensures KeepsIds(h, Next(h, step))
  {
    if step.PublishUser? { PublishAllKeepsIds(h, step.order, step.event, step.lane); }
  }

  lemma LastTracked(steps: seq<Step>, h: Hub)
    requires steps != [] && Inv(h) && Tracks(steps[..|steps| - 1], h)
    ensures Tracks(steps, Next(h, steps[|steps| - 1]))
  {
    var last := steps[|steps| - 1];
    if last.Register? {
      RegisterTracked(steps, h);
    } else if last.Unregister? {
      UnregisterTracked(steps, h);
    } else {
      if last.Resume? { ResumeKeepsIds(h, last.task, last.outcome); } else { PublishKeepsIds(h, last); }
      SameTracked(steps, h.heap, Next(h, last).heap);
      SameLive(steps, h.live);
    }
  }

  /** After any run a session is live exactly if it was registered last, with the user and number of that call. */
  lemma {:induction false} RunTracks(steps: seq<Step>)
    ensures Tracks(steps, Run(INIT, steps))
    decreases |steps|
  {
    if steps != [] {
      RunLast(INIT, steps);
      Reachable(steps[..|steps| - 1]);
      RunTracks(steps[..|steps| - 1]);
      LastTracked(steps, Run(INIT, steps[..|steps| - 1]));
    }
  }

  /** A publish answers whether the session is registered; a user publish, how many sessions the user has. */
  lemma PublishAnswers(steps: seq<Step>, s: string, user: string, order: seq<string>, event: string, lane: string)
    requires Lists(steps, user, order)
    ensures DoPublish(Run(INIT, steps), s, event, lane).1 <==> LiveReg(steps, s).Some?
    ensures PublishAll(Run(INIT, steps), order, event, lane).1 == |order|
  {
    Reachable(steps);
    RunTracks(steps);
    PublishInv(Run(INIT, steps), s, event, lane);
    PublishAllInv(Run(INIT, steps), order, event, lane);
  }

  // ----- Events -----

  function Events(envs: seq<Envelope>): (r: seq<string>)
    ensures |r| == |envs| && forall i | 0 <= i < |envs| :: r[i] == envs[i].event
  {
    seq(|envs|, i requires 0 <= i < |envs| => envs[i].event)
  }

  lemma EventsConcat(a: seq<Envelope>, b: seq<Envelope>)
    ensures Events(a + b) == Events(a) + Events(b)
  {
  }

  lemma PublishedEvent(h: Hub, s: string, event: string, lane: string, r: nat, name: string)
    requires Inv(h)
    ensures Events(PublishedOn(DoPublish(h, s, event, lane).0.published, r, name))
         == Events(PublishedOn(h.published, r, name))
            + if s in h.live && h.live[s] == r && OnLane(lane, name) then [event] else []
  {
    var before := PublishedOn(h.published, r, name);
    if s in h.live {
      var env := Stamp(h.heap[h.live[s]], h.live[s], event, LaneName(lane));
      PublishedSnoc(h.published, env, r, name);
      EventsConcat(before, [env]);
      assert before + [] == before && Events([env]) == [event];
    }
    assert Events(before) + [] == Events(before);
  }

  ghost predicate Visits(h: Hub, order: seq<string>, r: nat) {
    exists s | s in order :: s in h.live && h.live[s] == r
  }

  lemma VisitsSnoc(h: Hub, order: seq<string>, r: nat)
    requires Inv(h) && order != [] && NoDup(order)
    ensures var n := |order| - 1;
      && (Visits(h, order, r) <==> Visits(h, order[..n], r) || (order[n] in h.live && h.live[order[n]] == r))
      && !(Visits(h, order[..n], r) && order[n] in h.live && h.live[order[n]] == r)
  {
    var n := |order| - 1;
    assert order == order[..n] + [order[n]];
    assert forall s | s in order :: s in order[..n] || s == order[n];
  }

  /** What was published on the lane of r grew by the event if r was visited, and not otherwise. */
  ghost predicate Got(h: Hub, published: seq<Envelope>, visited: bool, event: string, r: nat, name: string) {
    Events(PublishedOn(published, r, name))
    == Events(PublishedOn(h.published, r, name)) + if visited then [event] else []
  }

  lemma GotNothing(h: Hub, event: string, r: nat, name: string)
    ensures Got(h, h.published, false, event, r, name)
  {
    assert Events(PublishedOn(h.published, r, name)) + [] == Events(PublishedOn(h.published, r, name));
  }

  lemma {:induction false} PublishedToAll(h: Hub, order: seq<string>, event: string, lane: string, r: nat, name: string)
    requires Inv(h) && NoDup(order)
    ensures Got(h, PublishAll(h, order, event, lane).0.published, Visits(h, order, r) && OnLane(lane, name), event, r,
                name)
    decreases |order|
  {
    if order == [] {
      GotNothing(h, event, r, name);
    } else {
      var n := |order| - 1;
      PublishAllInv(h, order[..n], event, lane);
      PublishAllLast(h, order, event, lane);
      PublishedToAll(h, order[..n], event, lane, r, name);
      LastVisit(h, PublishAll(h, order[..n], event, lane).0, order, event, lane, r, name);
    }
  }

  lemma PublishAllLast(h: Hub, order: seq<string>, event: string, lane: string)
    requires Closed(h) && order != []
    ensures var n := |order| - 1;
      PublishAll(h, order, event, lane).0
      == DoPublish(PublishAll(h, order[..n], event, lane).0, order[n], event, lane).0
  {
  }

  lemma LastVisit(h: Hub, g: Hub, order: seq<string>, event: string, lane: string, r: nat, name: string)
    requires Inv(h) && Inv(g) && NoDup(order) && order != [] && g.live == h.live
    requires Got(h, g.published, Visits(h, order[..|order| - 1], r) && OnLane(lane, name), event, r, name)
    ensures Got(h, DoPublish(g, order[|order| - 1], event, lane).0.published,
                Visits(h, order, r) && OnLane(lane, name), event, r, name)
  {
    var s := order[|order| - 1];
    PublishedEvent(g, s, event, lane, r, name);
    VisitsSnoc(h, order, r);
    OneMore(Events(PublishedOn(h.published, r, name)), event, Visits(h, order[..|order| - 1], r) && OnLane(lane, name),
            s in h.live && h.live[s] == r && OnLane(lane, name));
  }

  lemma OneMore(events: seq<string>, event: string, earlier: bool, now: bool)
    requires !(earlier && now)
    ensures (events + if earlier then [event] else []) + (if now then [event] else [])
         == events + if earlier || now then [event] else []
  {
  }

  lemma ListsIff(steps: seq<Step>, h: Hub, user: string, order: seq<string>)
    requires Inv(h) && Tracks(steps, h)
    ensures NoDup(order) && ToSet(order) == SessionsOf(h, user) <==> Lists(steps, user, order)
  {
    forall s ensures s in SessionsOf(h, user) <==> user != "" && LiveUser(steps, s) == Some(user) {
      assert (user in h.users && s in h.users[user])
        <==> (s in Owners(h.heap, h.live) && user != "" && Owners(h.heap, h.live)[s] == user);
    }
    assert forall s :: s in order <==> s in ToSet(order);
    if Lists(steps, user, order) {
      assert forall s :: s in ToSet(order) <==> s in SessionsOf(h, user);
    }
  }

  lemma AmongIff(steps: seq<Step>, h: Hub, order: seq<string>, r: nat)
    requires Tracks(steps, h)
    ensures Among(steps, order, r) <==> Visits(h, order, r)
  {
  }

  lemma LastPublished(steps: seq<Step>, h: Hub, r: nat, name: string)
    requires steps != [] && Inv(h) && Tracks(steps[..|steps| - 1], h)
    ensures var before, last := steps[..|steps| - 1], steps[|steps| - 1];
      Events(PublishedOn(Next(h, last).published, r, name))
      == Events(PublishedOn(h.published, r, name)) + if Reaches(before, last, r, name) then [last.event] else []
  {
    var before := steps[..|steps| - 1];
    assert Events(PublishedOn(h.published, r, name)) + [] == Events(PublishedOn(h.published, r, name));
    match steps[|steps| - 1]
    case Register(s, u) =>
    case Unregister(s) =>
    case Publish(s, e, lane) => PublishedEvent(h, s, e, lane, r, name);
    case PublishUser(u, order, e, lane) =>
      ListsIff(before, h, u, order);
      AmongIff(before, h, order, r);
      if NoDup(order) { PublishedToAll(h, order, e, lane, r, name); }
    case Resume(t, outcome) => ResumePublishes(h, t, outcome);
  }

  lemma ResumePublishes(h: Hub, t: nat, outcome: Outcome)
    requires Inv(h)
    ensures DoResume(h, t, outcome).published == h.published
  {
    if t < |h.heap| && !h.heap[t].closed {
      LiveResume(h, t, outcome);
    }
  }

  lemma {:induction false} PublishedAccepted(steps: seq<Step>, r: nat, name: string)
    ensures Events(PublishedOn(Run(INIT, steps).published, r, name)) == Accepted(steps, r, name)
    decreases |steps|
  {
    if steps != [] {
      var before := steps[..|steps| - 1];
      RunLast(INIT, steps);
      Reachable(before);
      RunTracks(before);
      PublishedAccepted(before, r, name);
      LastPublished(steps, Run(INIT, before), r, name);
    }
  }

  /**
   * Per registration and lane, `send` receives a prefix of the events published to it while it was live, in order and
   * numbered 1, 2, 3, ...; the rest is queued. Nothing is lost, changed, repeated, reordered or renumbered by any
   * interleaving.
   */
  lemma DeliveredInOrder(steps: seq<Step>, r: nat, lane: string)
    requires r < Registered(steps)
    ensures var h := Run(INIT, steps);
      && r < |h.heap|
      && var sent, b, accepted := SentOn(h.sent, r, lane), Buffer(h.heap[r], lane), Accepted(steps, r, lane);
         && |sent + b.queue| == |accepted| == b.enqueued && b.delivered <= |sent|
         && forall i | 0 <= i < |accepted| ::
              (sent + b.queue)[i] == Envelope(RegisteredAs(steps, r).0, lane, i + 1, r, accepted[i])
  {
    var h := Run(INIT, steps);
    Reachable(steps);
    RunTracks(steps);
    PublishedAccepted(steps, r, lane);
    assert LaneOk(h.heap[r], r, lane, PublishedOn(h.published, r, lane), SentOn(h.sent, r, lane));
    var published := PublishedOn(h.published, r, lane);
    forall i | 0 <= i < |published| ensures published[i].event == Events(published)[i] {}
  }

  // ----- What the sends returned -----

  /** The lane of the envelope the registration's task has handed to `send` and not yet heard back about. */
  ghost function InFlight(steps: seq<Step>, r: nat): Option<string> {
    if steps == [] then None
    else
      var before, last := steps[..|steps| - 1], steps[|steps| - 1];
      if last.Resume? && last.task == r
      then NewlySent(SentOf(Run(INIT, before).sent, r), SentOf(Run(INIT, steps).sent, r))
      else InFlight(before, r)
  }

  function NewlySent(before: seq<Envelope>, after: seq<Envelope>): Option<string> {
    if |before| < |after| then Some(after[|after| - 1].lane) else None
  }

  /** With this step the `send` of a live registration returns, or raises. */
  ghost predicate Settles(steps: seq<Step>, step: Step, r: nat) {
    && step.Resume? && step.task == r
    && LiveReg(steps, RegisteredAs(steps, r).0) == Some(r) && InFlight(steps, r).Some?
  }

  /** How many sends on the lane returned true. */
  ghost function Succeeded(steps: seq<Step>, r: nat, lane: string): nat {
    if steps == [] then 0
    else
      var before, last := steps[..|steps| - 1], steps[|steps| - 1];
      Succeeded(before, r, lane)
      + if Settles(before, last, r) && last.outcome == Returned(true) && InFlight(before, r) == Some(lane) then 1 else 0
  }

  /** The error of the last send that raised, unless one returned true since. */
  ghost function LastError(steps: seq<Step>, r: nat): Option<string> {
    if steps == [] then None
    else
      var before, last := steps[..|steps| - 1], steps[|steps| - 1];
      if Settles(before, last, r) && last.outcome.Raised? then Some(last.outcome.error)
      else if Settles(before, last, r) && last.outcome.ok then None
      else LastError(before, r)
  }

  /** What a registration has recorded about its sends. */
  ghost predicate SameResults(a: Registration, b: Registration) {
    b.drain == a.drain && b.lastError == a.lastError && SameDelivered(a, b)
  }

  ghost predicate SameDelivered(a: Registration, b: Registration) {
    forall lane :: Buffer(b, lane).delivered == Buffer(a, lane).delivered
  }

  lemma AppendKeepsResults(reg: Registration, env: Envelope)
    ensures SameResults(reg, Append(reg, env))
  {
  }

  lemma PublishKeepsResults(h: Hub, s: string, event: string, lane: string, r: nat)
    requires Inv(h) && r < |h.heap|
    ensures r < |DoPublish(h, s, event, lane).0.heap|
    ensures SameResults(h.heap[r], DoPublish(h, s, event, lane).0.heap[r])
  {
    if s in h.live && h.live[s] == r {
      AppendKeepsResults(h.heap[r], Stamp(h.heap[r], r, event, LaneName(lane)));
    }
  }

  lemma {:induction false} PublishAllKeepsResults(h: Hub, order: seq<string>, event: string, lane: string, r: nat)
    requires Inv(h) && r < |h.heap|
    ensures r < |PublishAll(h, order, event, lane).0.heap|
    ensures SameResults(h.heap[r], PublishAll(h, order, event, lane).0.heap[r])
    decreases |order|
  {
    if order != [] {
      var n := |order| - 1;
      PublishAllInv(h, order[..n], event, lane);
      PublishAllKeepsResults(h, order[..n], event, lane, r);
      PublishKeepsResults(PublishAll(h, order[..n], event, lane).0, order[n], event, lane, r);
    }
  }

  lemma OthersKeepResults(h: Hub, step: Step, r: nat)
    requires Inv(h) && r < |h.heap| && !(step.Resume? && step.task == r)
    ensures r < |Next(h, step).heap| && SameResults(h.heap[r], Next(h, step).heap[r])
  {
    match step
    case Register(s, u) =>
    case Unregister(s) =>
    case Publish(s, e, lane) => PublishKeepsResults(h, s, e, lane, r);
    case PublishUser(u, order, e, lane) => PublishAllKeepsResults(h, order, e, lane, r);
    case Resume(t, outcome) => ResumeFrame(h, t, outcome, r);
  }

  function FlightOf(drain: Drain): Option<string> {
    if drain.Sending? then Some(drain.lane) else None
  }

  /** A send that returned true is counted, and its error forgotten; one that raised leaves its error. */
  ghost predicate Recorded(before: Registration, after: Registration, flight: Option<string>, outcome: Outcome) {
    && after.lastError == (if flight == None || outcome == Returned(false) then before.lastError
                           else if outcome.Raised? then Some(outcome.error) else None)
    && forall lane ::
         Buffer(after, lane).delivered
         == Buffer(before, lane).delivered + if flight == Some(lane) && outcome == Returned(true) then 1 else 0
  }

  lemma SettleRecords(reg: Registration, lane: string, outcome: Outcome)
    requires lane in reg.lanes
    ensures Recorded(reg, Settle(reg, lane, outcome).(drain := Starting), Some(lane), outcome)
  {
  }

  lemma SendingLane(h: Hub, r: nat)
    requires Inv(h) && r < |h.heap| && h.heap[r].drain.Sending? && !h.heap[r].closed
    ensures h.heap[r].drain.on == r && h.heap[r].drain.lane in h.heap[r].lanes
  {
    var lane := h.heap[r].drain.lane;
    assert Control(h.heap[r], r);
    assert LaneOk(h.heap[r], r, lane, PublishedOn(h.published, r, lane), SentOn(h.sent, r, lane));
  }

  lemma SettledRecords(h: Hub, r: nat, outcome: Outcome)
    requires Inv(h) && r < |h.heap| && !h.heap[r].closed
    ensures Recorded(h.heap[r], Settled(h, r, outcome).heap[r], FlightOf(h.heap[r].drain), outcome)
    ensures Settled(h, r, outcome).sent == h.sent
  {
    if h.heap[r].drain.Sending? {
      SendingLane(h, r);
      SettleRecords(h.heap[r], h.heap[r].drain.lane, outcome);
    }
  }

  lemma PopKeepsDelivered(reg: Registration, lane: string, drain: Drain)
    requires lane in reg.lanes && reg.lanes[lane].queue != []
    ensures SameDelivered(reg, PopLane(reg, lane).(drain := drain))
  {
  }

  /** Looking for the next envelope changes nothing that was recorded; if there is one, it is in flight afterwards. */
  lemma DrainOnFlies(g: Hub, r: nat)
    requires Inv(g) && NotSending(g, r) && !g.heap[r].closed
    ensures var h' := DrainOn(g, r, r);
      && r < |h'.heap| && h'.heap[r].lastError == g.heap[r].lastError && SameDelivered(g.heap[r], h'.heap[r])
      && FlightOf(h'.heap[r].drain) == NewlySent(SentOf(g.sent, r), SentOf(h'.sent, r))
  {
    var reg := g.heap[r];
    if Pending(reg) != {} {
      var lane := Least(Pending(reg));
      var env := reg.lanes[lane].queue[0];
      SentOfSnoc(g.sent, Handed(r, r, env), r);
      QueuedLane(g, r, lane, env);
      PopKeepsDelivered(reg, lane, Sending(r, lane));
    }
  }

  lemma OwnResume(h: Hub, r: nat, outcome: Outcome)
    requires Inv(h) && r < |h.heap| && !h.heap[r].closed
    ensures var h' := DoResume(h, r, outcome);
      && r < |h'.heap| && Recorded(h.heap[r], h'.heap[r], FlightOf(h.heap[r].drain), outcome)
      && FlightOf(h'.heap[r].drain) == NewlySent(SentOf(h.sent, r), SentOf(h'.sent, r))
  {
    LiveResume(h, r, outcome);
    if Runnable(h.heap[r]) {
      SettledInv(h, r, outcome);
      SettledRecords(h, r, outcome);
      DrainOnFlies(Settled(h, r, outcome), r);
      RecordedThen(h.heap[r], Settled(h, r, outcome).heap[r], DoResume(h, r, outcome).heap[r],
                   FlightOf(h.heap[r].drain), outcome);
    }
  }

  lemma RecordedThen(a: Registration, b: Registration, c: Registration, flight: Option<string>, outcome: Outcome)
    requires Recorded(a, b, flight, outcome) && c.lastError == b.lastError && SameDelivered(b, c)
    ensures Recorded(a, c, flight, outcome)
  {
  }

  lemma DeadResume(h: Hub, r: nat, outcome: Outcome)
    requires Inv(h) && r < |h.heap| && h.heap[r].closed
    ensures var h' := DoResume(h, r, outcome);
      && r < |h'.heap| && h'.heap[r].closed && h'.heap[r].lastError == h.heap[r].lastError
      && SameDelivered(h.heap[r], h'.heap[r])
  {
    assert Control(h.heap[r], r);
  }

  /** A registration's record agrees with what the calls say about its sends. */
  ghost predicate Agrees(steps: seq<Step>, reg: Registration, r: nat) {
    && reg.lastError == LastError(steps, r)
    && (forall lane :: Buffer(reg, lane).delivered == Succeeded(steps, r, lane))
    && (!reg.closed ==> FlightOf(reg.drain) == InFlight(steps, r))
  }

  ghost predicate Nothing(steps: seq<Step>, r: nat) {
    LastError(steps, r) == None && InFlight(steps, r) == None && forall lane :: Succeeded(steps, r, lane) == 0
  }

  lemma AliveIff(steps: seq<Step>, h: Hub, r: nat)
    requires Inv(h) && Tracks(steps, h)
    ensures LiveReg(steps, RegisteredAs(steps, r).0) == Some(r) <==> r < |h.heap| && !h.heap[r].closed
  {
    if r < |h.heap| && !h.heap[r].closed { OwnRegistration(h, r); }
  }

  ghost predicate AgreesAt(steps: seq<Step>, heap: seq<Registration>, r: nat) {
    if r < |heap| then Agrees(steps, heap[r], r) else Nothing(steps, r)
  }

  lemma {:induction false} RunAgrees(steps: seq<Step>, r: nat)
    ensures AgreesAt(steps, Run(INIT, steps).heap, r)
    decreases |steps|
  {
    if steps != [] {
      var before := steps[..|steps| - 1];
      Reachable(before);
      RunTracks(before);
      RunAgrees(before, r);
      RunLast(INIT, steps);
      FlightIs(steps, r);
      StepAgrees(steps, Run(INIT, before), r);
    }
  }

  ghost predicate FlightKnown(steps: seq<Step>, sent: seq<Handed>, sent': seq<Handed>, r: nat)
    requires steps != []
  {
    steps[|steps| - 1].Resume? && steps[|steps| - 1].task == r ==>
      InFlight(steps, r) == NewlySent(SentOf(sent, r), SentOf(sent', r))
  }

  lemma FlightIs(steps: seq<Step>, r: nat)
    requires steps != []
    ensures FlightKnown(steps, Run(INIT, steps[..|steps| - 1]).sent, Run(INIT, steps).sent, r)
  {
  }

  lemma NextIsResume(h: Hub, step: Step)
    requires Closed(h) && step.Resume?
    ensures Next(h, step) == DoResume(h, step.task, step.outcome)
  {
  }

  lemma StepAgrees(steps: seq<Step>, h: Hub, r: nat)
    requires steps != [] && Inv(h) && Tracks(steps[..|steps| - 1], h) && AgreesAt(steps[..|steps| - 1], h.heap, r)
    requires FlightKnown(steps, h.sent, Next(h, steps[|steps| - 1]).sent, r)
    ensures AgreesAt(steps, Next(h, steps[|steps| - 1]).heap, r)
  {
    var last := steps[|steps| - 1];
    AliveIff(steps[..|steps| - 1], h, r);
    if last.Resume? && last.task == r {
      NextIsResume(h, last);
      OwnStep(steps, h, r);
    } else {
      OtherStep(steps, h, r);
    }
  }

  lemma OwnStep(steps: seq<Step>, h: Hub, r: nat)
    requires steps != [] && steps[|steps| - 1].Resume? && steps[|steps| - 1].task == r
    requires Inv(h) && AgreesAt(steps[..|steps| - 1], h.heap, r)
    requires var before := steps[..|steps| - 1];
      LiveReg(before, RegisteredAs(before, r).0) == Some(r) <==> r < |h.heap| && !h.heap[r].closed
    requires InFlight(steps, r)
          == NewlySent(SentOf(h.sent, r), SentOf(DoResume(h, r, steps[|steps| - 1].outcome).sent, r))
    ensures AgreesAt(steps, DoResume(h, r, steps[|steps| - 1].outcome).heap, r)
  {
    if r < |h.heap| { ResumedAgrees(steps, h, r); } else { NotYet(steps, h.sent, r); }
  }

  lemma OtherStep(steps: seq<Step>, h: Hub, r: nat)
    requires steps != [] && !(steps[|steps| - 1].Resume? && steps[|steps| - 1].task == r)
    requires Inv(h) && AgreesAt(steps[..|steps| - 1], h.heap, r)
    ensures AgreesAt(steps, Next(h, steps[|steps| - 1]).heap, r)
  {
    var last := steps[|steps| - 1];
    if r < |h.heap| {
      OthersKeepResults(h, last, r);
      if h.heap[r].closed { ClosedStep(h, last, r); }
      OtherAgrees(steps, h.heap[r], Next(h, last).heap[r], r);
    } else {
      NotYet(steps, h.sent, r);
      if r < |Next(h, last).heap| {
        JustMade(h, last, r);
        MadeAgrees(steps, Next(h, last).heap[r], r);
      }
    }
  }

  lemma MadeAgrees(steps: seq<Step>, reg: Registration, r: nat)
    requires Nothing(steps, r) && reg.lastError == None && reg.drain == Starting
    requires forall lane :: Buffer(reg, lane).delivered == 0
    ensures Agrees(steps, reg, r)
  {
  }

  lemma ResumedAgrees(steps: seq<Step>, h: Hub, r: nat)
    requires steps != [] && steps[|steps| - 1].Resume? && steps[|steps| - 1].task == r
    requires Inv(h) && r < |h.heap| && Agrees(steps[..|steps| - 1], h.heap[r], r)
    requires var before := steps[..|steps| - 1];
      LiveReg(before, RegisteredAs(before, r).0) == Some(r) <==> !h.heap[r].closed
    requires InFlight(steps, r)
          == NewlySent(SentOf(h.sent, r), SentOf(DoResume(h, r, steps[|steps| - 1].outcome).sent, r))
    ensures var h' := DoResume(h, r, steps[|steps| - 1].outcome); r < |h'.heap| && Agrees(steps, h'.heap[r], r)
  {
    var outcome := steps[|steps| - 1].outcome;
    var reg := h.heap[r];
    if reg.closed {
      DeadResume(h, r, outcome);
      DeadAgrees(steps, reg, DoResume(h, r, outcome).heap[r], r);
    } else {
      OwnResume(h, r, outcome);
      OwnAgrees(steps, reg, DoResume(h, r, outcome).heap[r], r);
    }
  }

  lemma DeadAgrees(steps: seq<Step>, reg: Registration, reg': Registration, r: nat)
    requires steps != [] && Agrees(steps[..|steps| - 1], reg, r) && reg.closed && reg'.closed
    requires reg'.lastError == reg.lastError && SameDelivered(reg, reg')
    requires !Settles(steps[..|steps| - 1], steps[|steps| - 1], r)
    ensures Agrees(steps, reg', r)
  {
  }

  /** Nothing is known of a registration before it is made. */
  lemma NotYet(steps: seq<Step>, sent: seq<Handed>, r: nat)
    requires steps != [] && Nothing(steps[..|steps| - 1], r) && !Settles(steps[..|steps| - 1], steps[|steps| - 1], r)
    requires steps[|steps| - 1].Resume? && steps[|steps| - 1].task == r ==>
               InFlight(steps, r) == NewlySent(SentOf(sent, r), SentOf(sent, r))
    ensures Nothing(steps, r)
  {
  }

  lemma JustMade(h: Hub, step: Step, r: nat)
    requires Inv(h) && |h.heap| <= r < |Next(h, step).heap|
    ensures var reg := Next(h, step).heap[r];
      reg.lastError == None && reg.drain == Starting && forall lane :: Buffer(reg, lane).delivered == 0
  {
    if step.Resume? { ResumeKeepsIds(h, step.task, step.outcome); }
    if step.PublishUser? || step.Publish? { PublishKeepsIds(h, step); }
  }

  lemma OtherAgrees(steps: seq<Step>, reg: Registration, reg': Registration, r: nat)
    requires steps != [] && Agrees(steps[..|steps| - 1], reg, r) && SameResults(reg, reg')
    requires !(steps[|steps| - 1].Resume? && steps[|steps| - 1].task == r) && (reg.closed ==> reg'.closed)
    ensures Agrees(steps, reg', r)
  {
    assert !Settles(steps[..|steps| - 1], steps[|steps| - 1], r);
  }

  lemma OwnAgrees(steps: seq<Step>, reg: Registration, reg': Registration, r: nat)
    requires steps != [] && steps[|steps| - 1].Resume? && steps[|steps| - 1].task == r && !reg.closed
    requires var before := steps[..|steps| - 1];
      Agrees(before, reg, r) && LiveReg(before, RegisteredAs(before, r).0) == Some(r)
    requires Recorded(reg, reg', FlightOf(reg.drain), steps[|steps| - 1].outcome)
    requires FlightOf(reg'.drain) == InFlight(steps, r)
    ensures Agrees(steps, reg', r)
  {
  }

  /**
   * After any run a lane's `delivered` is the number of its sends that returned true while the registration was live,
   * and the last error is that of the last send that raised, unless one returned true since.
   */
  lemma ResultsRecorded(steps: seq<Step>, r: nat, lane: string)
    requires r < Registered(steps)
    ensures var h := Run(INIT, steps);
      && r < |h.heap| && Buffer(h.heap[r], lane).delivered == Succeeded(steps, r, lane)
      && h.heap[r].lastError == LastError(steps, r)
  {
    RunTracks(steps);
    RunAgrees(steps, r);
  }
}
