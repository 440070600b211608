/**
 * The session event hub (backend/session_gateway.py) as a step system.
 *
 * Python objects that outlive their dict entry (registrations, and the drain tasks holding them) are addressed by
 * their index in `heap`. Code between two awaits is one step; a drain task is at one of its await points.
 */
module SessionGateway {
  import opened Text
  import opened Seqs

  /** `origin` is the registration whose route stamped the envelope. */
  datatype Envelope = Envelope(sessionId: string, lane: string, sequence: nat, origin: nat, event: string)

  datatype LaneBuffer = LaneBuffer(queue: seq<Envelope>, enqueued: nat, delivered: nat)

  /** Where a drain task is suspended: not started, in `wake_event.wait()`, in `send`, or finished. */
  datatype Drain = Starting | Waiting(on: nat) | Sending(on: nat, lane: string) | Done

  datatype Registration = Registration(
    sessionId: string, userUid: string, sequences: map<string, nat>, lanes: map<string, LaneBuffer>,
    wake: bool, closed: bool, lastError: Option<string>, drain: Drain, cancelled: bool)

  /** One call of `send`: by which task, on which registration's sender, with what. */
  datatype Handed = Handed(task: nat, sender: nat, env: Envelope)

  /** `published` and `sent` are the history of the hub. */
  datatype Hub = Hub(heap: seq<Registration>, live: map<string, nat>, users: map<string, set<string>>,
                     published: seq<Envelope>, sent: seq<Handed>)

  datatype Outcome = Returned(ok: bool) | Raised(error: string)

  datatype Step =
    | Register(sessionId: string, userUid: string)
    | Unregister(sessionId: string)
    | Publish(sessionId: string, event: string, lane: string)
    | PublishUser(userUid: string, order: seq<string>, event: string, lane: string)
    | Resume(task: nat, outcome: Outcome)

  const EMPTY_BUFFER := LaneBuffer([], 0, 0)
  const INIT := Hub([], map[], map[], [], [])

  function Buffer(reg: Registration, lane: string): LaneBuffer {
    if lane in reg.lanes then reg.lanes[lane] else EMPTY_BUFFER
  }

  function Sequence(reg: Registration, lane: string): nat {
    if lane in reg.sequences then reg.sequences[lane] else 0
  }

  function Pending(reg: Registration): set<string> {
    set l | l in reg.lanes && reg.lanes[l].queue != []
  }

  /** Ids stored in the hub always point into the heap. */
  ghost predicate Closed(h: Hub) {
    && (forall s | s in h.live :: h.live[s] < |h.heap|)
    && (forall r | 0 <= r < |h.heap| && h.heap[r].drain.Waiting? :: h.heap[r].drain.on < |h.heap|)
    && (forall r | 0 <= r < |h.heap| && h.heap[r].drain.Sending? :: h.heap[r].drain.on < |h.heap|)
  }

  // ----- register / unregister -----

  function DropUser(users: map<string, set<string>>, user: string, sessionId: string): map<string, set<string>> {
    if user == "" || user !in users then users
    else if users[user] - {sessionId} == {} then users - {user}
    else users[user := users[user] - {sessionId}]
  }

  function AddUser(users: map<string, set<string>>, user: string, sessionId: string): map<string, set<string>> {
    if user == "" then users
    else users[user := (if user in users then users[user] else {}) + {sessionId}]
  }

  function DoUnregister(h: Hub, sessionId: string): (h': Hub)
    requires Closed(h)
    ensures Closed(h')
  {
    if sessionId !in h.live then h
    else
      var r := h.live[sessionId];
      h.(live := h.live - {sessionId},
         heap := h.heap[r := h.heap[r].(closed := true, wake := true, cancelled := true)],
         users := DropUser(h.users, h.heap[r].userUid, sessionId))
  }

  function NewRegistration(sessionId: string, user: string): Registration {
    Registration(sessionId, user, map[], map[], false, false, None, Starting, false)
  }

  function DoRegister(h: Hub, sessionId: string, user: string): (h': Hub)
    requires Closed(h)
    ensures Closed(h')
  {
    var g := DoUnregister(h, sessionId);
    g.(heap := g.heap + [NewRegistration(sessionId, user)],
       live := g.live[sessionId := |g.heap|],
       users := AddUser(g.users, user, sessionId))
  }

  // ----- publish -----

  function LaneName(lane: string): string {
    if Strip(lane) == "" then "main" else Strip(lane)
  }

  function Stamp(reg: Registration, r: nat, event: string, lane: string): Envelope {
    Envelope(reg.sessionId, lane, Sequence(reg, lane) + 1, r, event)
  }

  function Append(reg: Registration, env: Envelope): Registration {
    var b := Buffer(reg, env.lane);
    reg.(sequences := reg.sequences[env.lane := env.sequence],
         lanes := reg.lanes[env.lane := b.(queue := b.queue + [env], enqueued := b.enqueued + 1)],
         wake := true)
  }

  function DoPublish(h: Hub, sessionId: string, event: string, lane: string): (r: (Hub, bool))
    requires Closed(h)
    ensures Closed(r.0)
  {
    if sessionId !in h.live || h.heap[h.live[sessionId]].closed then (h, false)
    else
      var r := h.live[sessionId];
      var env := Stamp(h.heap[r], r, event, LaneName(lane));
      (h.(heap := h.heap[r := Append(h.heap[r], env)], published := h.published + [env]), true)
  }

  function PublishAll(h: Hub, order: seq<string>, event: string, lane: string): (r: (Hub, nat))
    requires Closed(h)
    ensures Closed(r.0)
    decreases |order|
  {
    if order == [] then (h, 0)
    else
      var (g, n) := PublishAll(h, order[..|order| - 1], event, lane);
      var (g', ok) := DoPublish(g, order[|order| - 1], event, lane);
      (g', n + if ok then 1 else 0)
  }

  /** Registration r got exactly this event, at the end of its lane and stamped with its own next number. */
  ghost predicate Received(h: Hub, h': Hub, r: nat, event: string, lane: string) {
    && r < |h.heap| && r < |h'.heap|
    && Grown(h.heap[r], h'.heap[r], r, event, if Blank(lane) then "main" else Strip(lane))
  }

  /** One envelope with the event joined the named lane, numbered on from the last, and the drain task is woken. */
  ghost predicate Grown(before: Registration, after: Registration, r: nat, event: string, name: string) {
    && Joined(Buffer(before, name), Buffer(after, name),
              Envelope(before.sessionId, name, Sequence(before, name) + 1, r, event))
    && Sequence(after, name) == Sequence(before, name) + 1
    && (forall l | l != name :: Buffer(after, l) == Buffer(before, l) && Sequence(after, l) == Sequence(before, l))
    && after == before.(lanes := after.lanes, sequences := after.sequences, wake := true)
  }

  predicate Joined(before: LaneBuffer, after: LaneBuffer, env: Envelope) {
    after == LaneBuffer(before.queue + [env], before.enqueued + 1, before.delivered)
  }

  lemma AppendJoins(reg: Registration, env: Envelope)
    ensures Joined(Buffer(reg, env.lane), Buffer(Append(reg, env), env.lane), env)
    ensures Sequence(Append(reg, env), env.lane) == env.sequence
  {
  }

  lemma AppendElsewhere(reg: Registration, env: Envelope, l: string)
    requires l != env.lane
    ensures Buffer(Append(reg, env), l) == Buffer(reg, l) && Sequence(Append(reg, env), l) == Sequence(reg, l)
  {
  }

  lemma AppendGrows(reg: Registration, r: nat, event: string, name: string)
    ensures Grown(reg, Append(reg, Stamp(reg, r, event, name)), r, event, name)
  {
    var env := Stamp(reg, r, event, name);
    var after := Append(reg, env);
    AppendJoins(reg, env);
    forall l | l != name ensures Buffer(after, l) == Buffer(reg, l) && Sequence(after, l) == Sequence(reg, l) {
      AppendElsewhere(reg, env, l);
    }
  }

  function SessionsOf(h: Hub, user: string): set<string> {
    if user in h.users then h.users[user] else {}
  }

  // ----- the drain task -----

  lemma LeastExists(lanes: set<string>)
    requires lanes != {}
    ensures exists l :: l in lanes && forall m | m in lanes :: LexLe(l, m)
  {
    var x :| x in lanes;
    if lanes == {x} {
      LexTotal(x, x);
      assert x in lanes && forall m | m in lanes :: LexLe(x, m);
    } else {
      var rest := lanes - {x};
      LeastExists(rest);
      var l :| l in rest && forall m | m in rest :: LexLe(l, m);
      LexTotal(x, l);
      LexTotal(x, x);
      if LexLe(x, l) {
        forall m | m in lanes ensures LexLe(x, m) {
          if m != x { LexTransitive(x, l, m); }
        }
      }
      var least := if LexLe(x, l) then x else l;
      assert least in lanes && forall m | m in lanes :: LexLe(least, m);
    }
  }

  /** The first of `sorted(lanes)`. */
  ghost function Least(lanes: set<string>): (l: string)
    requires lanes != {}
    ensures l in lanes && forall m | m in lanes :: LexLe(l, m)
  {
    LeastExists(lanes);
    var l :| l in lanes && forall m | m in lanes :: LexLe(l, m);
    l
  }

  lemma LeastUnique(lanes: set<string>, l: string)
    requires l in lanes && forall m | m in lanes :: LexLe(l, m)
    ensures l == Least(lanes)
  {
    LexTotal(l, Least(lanes));
  }

  function PopLane(reg: Registration, lane: string): Registration
    requires lane in reg.lanes && reg.lanes[lane].queue != []
  {
    var b := reg.lanes[lane];
    reg.(lanes := reg.lanes[lane := b.(queue := b.queue[1..])])
  }

  /** From a successful lookup on: hand over the next envelope, or clear the wake event and wait. */
  ghost function DrainOn(h: Hub, task: nat, q: nat): (h': Hub)
    requires Closed(h) && task < |h.heap| && q < |h.heap|
    ensures Closed(h')
  {
    var reg := h.heap[q];
    if Pending(reg) == {} then
      var g := h.(heap := h.heap[q := reg.(wake := Pending(reg) != {})]);
      g.(heap := g.heap[task := g.heap[task].(drain := Waiting(q))])
    else
      var lane := Least(Pending(reg));
      var env := reg.lanes[lane].queue[0];
      var g := h.(heap := h.heap[q := PopLane(reg, lane)], sent := h.sent + [Handed(task, q, env)]);
      g.(heap := g.heap[task := g.heap[task].(drain := Sending(q, lane))])
  }

  function Finish(h: Hub, task: nat): (h': Hub)
    requires Closed(h) && task < |h.heap|
    ensures Closed(h')
  {
    h.(heap := h.heap[task := h.heap[task].(drain := Done)])
  }

  /** The inner loop up to its next await; the registration is looked up again by session id. */
  ghost function DrainInner(h: Hub, task: nat): (h': Hub)
    requires Closed(h) && task < |h.heap|
    ensures Closed(h')
  {
    var s := h.heap[task].sessionId;
    if s !in h.live || h.heap[h.live[s]].closed then Finish(h, task) else DrainOn(h, task, h.live[s])
  }

  /** The head of the outer loop: `wait()` returns at once when the event is already set. */
  ghost function DrainOuter(h: Hub, task: nat): (h': Hub)
    requires Closed(h) && task < |h.heap|
    ensures Closed(h')
  {
    var s := h.heap[task].sessionId;
    if s !in h.live || h.heap[h.live[s]].closed then Finish(h, task)
    else if h.heap[h.live[s]].wake then DrainInner(h, task)
    else h.(heap := h.heap[task := h.heap[task].(drain := Waiting(h.live[s]))])
  }

  function Settle(reg: Registration, lane: string, outcome: Outcome): Registration {
    match outcome
    case Raised(error) => reg.(lastError := Some(error))
    case Returned(ok) =>
      if !ok then reg
      else if lane in reg.lanes then
        reg.(lastError := None,
              lanes := reg.lanes[lane := reg.lanes[lane].(delivered := reg.lanes[lane].delivered + 1)])
      else reg.(lastError := None)
  }

  /** A drain task runs from its await point to the next; a cancelled task exits at its next resume. */
  ghost function DoResume(h: Hub, task: nat, outcome: Outcome): (h': Hub)
    requires Closed(h)
    ensures Closed(h')
  {
    if task >= |h.heap| then h
    else
      var reg := h.heap[task];
      if reg.drain.Done? then h
      else if reg.cancelled then Finish(h, task)
      else
        match reg.drain
        case Starting => DrainOuter(h, task)
        case Waiting(q) => if h.heap[q].wake then DrainInner(h, task) else h
        case Sending(q, lane) => DrainInner(h.(heap := h.heap[q := Settle(h.heap[q], lane, outcome)]), task)
        case Done => h
  }

  ghost function Next(h: Hub, step: Step): (h': Hub)
    requires Closed(h)
    ensures Closed(h')
  {
    match step
    case Register(s, u) => DoRegister(h, s, u)
    case Unregister(s) => DoUnregister(h, s)
    case Publish(s, e, lane) => DoPublish(h, s, e, lane).0
    case PublishUser(u, order, e, lane) =>
      if NoDup(order) && ToSet(order) == SessionsOf(h, u) then PublishAll(h, order, e, lane).0 else h
    case Resume(task, outcome) => DoResume(h, task, outcome)
  }

  ghost function Run(h: Hub, steps: seq<Step>): (h': Hub)
    requires Closed(h)
    ensures Closed(h')
    decreases |steps|
  {
    if steps == [] then h else Run(Next(h, steps[0]), steps[1..])
  }
}
