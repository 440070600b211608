/** `SessionEventHub`: the methods that update the hub in place, each one atomic step of the model. */
module SessionEventHub {
  import opened Text
  import opened Seqs
  import opened SessionGateway

  /** Every method below only needs ids that point into the heap; that the hub's invariant is kept is `NextInv`. */
  class EventHub {
    var heap: seq<Registration>
    var live: map<string, nat>
    var users: map<string, set<string>>
    ghost var published: seq<Envelope>
    ghost var sent: seq<Handed>

    ghost function View(): Hub
      reads this
    {
      Hub(heap, live, users, published, sent)
    }

    constructor ()
      ensures View() == INIT
    {
      heap, live, users, published, sent := [], map[], map[], [], [];
    }

    method Unregister(sessionId: string)
      requires Closed(View())
      modifies this
      ensures View() == DoUnregister(old(View()), sessionId)
    {
      if sessionId !in live {
        return;
      }
      var r := live[sessionId];
      live := live - {sessionId};
      heap := heap[r := heap[r].(closed := true, wake := true, cancelled := true)];
      var user := heap[r].userUid;
      if user == "" || user !in users {
        return;
      }
      var sessions := users[user] - {sessionId};
      users := if sessions == {} then users - {user} else users[user := sessions];
    }

    method Register(sessionId: string, user: string) returns (r: nat)
      requires Closed(View())
      modifies this
      ensures View() == DoRegister(old(View()), sessionId, user)
      ensures r == |old(heap)| && sessionId in live && live[sessionId] == r
    {
      if sessionId in live {
        Unregister(sessionId);
      }
      r := |heap|;
      heap := heap + [NewRegistration(sessionId, user)];
      live := live[sessionId := r];
      if user != "" {
        var sessions := if user in users then users[user] else {};
        users := users[user := sessions + {sessionId}];
      }
    }

    /** `route.next_sequence(lane)`. */
    method NextSequence(r: nat, lane: string) returns (next: nat)
      requires r < |heap|
      modifies this`heap
      ensures next == Sequence(old(heap[r]), lane) + 1
      ensures heap == old(heap)[r := old(heap[r]).(sequences := old(heap[r]).sequences[lane := next])]
    {
      var reg := heap[r];
      next := (if lane in reg.sequences then reg.sequences[lane] else 0) + 1;
      heap := heap[r := reg.(sequences := reg.sequences[lane := next])];
    }

    /** `_envelope`, then the append to the lane buffer and the wake-up. */
    method PublishToSession(sessionId: string, event: string, lane: string) returns (ok: bool)
      requires Closed(View())
      modifies this
      ensures (View(), ok) == DoPublish(old(View()), sessionId, event, lane)
      ensures ok ==> sessionId in live && Received(old(View()), View(), live[sessionId], event, lane)
    {
      if sessionId !in live || heap[live[sessionId]].closed {
        return false;
      }
      var r, name := live[sessionId], LaneName(lane);
      ghost var reg := heap[r];
      var next := NextSequence(r, name);
      var env := Envelope(heap[r].sessionId, name, next, r, event);
      var buffer := if name in heap[r].lanes then heap[r].lanes[name] else EMPTY_BUFFER;
      buffer := buffer.(queue := buffer.queue + [env], enqueued := buffer.enqueued + 1);
      heap := heap[r := heap[r].(lanes := heap[r].lanes[name := buffer], wake := true)];
      published := published + [env];
      AppendGrows(reg, r, event, name);
      assert heap == old(heap)[r := Append(reg, env)];
      return true;
    }

    /** `order` is the order in which `list(set)` happens to enumerate the user's sessions. */
    method PublishToUser(user: string, event: string, lane: string) returns (delivered: nat, ghost order: seq<string>)
      requires Closed(View())
      modifies this
      ensures NoDup(order) && ToSet(order) == SessionsOf(old(View()), user)
      ensures (View(), delivered) == PublishAll(old(View()), order, event, lane)
    {
      delivered, order := 0, [];
      var remaining := if user in users then users[user] else {};
      while remaining != {}
        invariant Closed(View())
        invariant Visiting(SessionsOf(old(View()), user), order, remaining)
        invariant (View(), delivered) == PublishAll(old(View()), order, event, lane)
      {
        var sessionId :| sessionId in remaining;
        VisitOne(SessionsOf(old(View()), user), order, remaining, sessionId);
        remaining := remaining - {sessionId};
        PublishAllSnoc(old(View()), order, sessionId, event, lane);
        var ok := PublishToSession(sessionId, event, lane);
        order := order + [sessionId];
        if ok {
          delivered := delivered + 1;
        }
      }
    }

    /** The least lane with something queued, by one pass over the lanes. */
    method LeastLane(reg: Registration) returns (lane: string)
      requires Pending(reg) != {}
      ensures lane == Least(Pending(reg))
    {
      var active := Pending(reg);
      lane :| lane in active;
      var rest := active - {lane};
      LexTotal(lane, lane);
      while rest != {}
        invariant rest <= active && lane in active
        invariant forall m | m in active - rest :: LexLe(lane, m)
      {
        var m :| m in rest;
        ghost var seen := active - rest;
        rest := rest - {m};
        LexTotal(m, lane);
        LexTotal(m, m);
        if !LexLe(lane, m) {
          forall x | x in seen ensures LexLe(m, x) {
            LexTransitive(m, lane, x);
          }
          lane := m;
        }
      }
      LeastUnique(active, lane);
    }

    /** `_pop_next_delivery`: the head of the least non-empty lane leaves its buffer. */
    method PopNextDelivery(q: nat) returns (next: Option<(string, Envelope)>)
      requires q < |heap|
      modifies this`heap
      ensures next == None <==> Pending(old(heap[q])) == {}
      ensures next == None ==> heap == old(heap)
      ensures next.Some? ==>
                var reg, lane := old(heap[q]), Least(Pending(old(heap[q])));
                next.value == (lane, reg.lanes[lane].queue[0]) && heap == old(heap)[q := PopLane(reg, lane)]
    {
      if Pending(heap[q]) == {} {
        return None;
      }
      var lane := LeastLane(heap[q]);
      var buffer := heap[q].lanes[lane];
      heap := heap[q := heap[q].(lanes := heap[q].lanes[lane := buffer.(queue := buffer.queue[1..])])];
      return Some((lane, buffer.queue[0]));
    }

    /** The inner loop from its lookup to the next await: `send` is called, or the drain task goes back to waiting. */
    method InnerLoop(task: nat)
      requires Closed(View()) && task < |heap|
      modifies this`heap, this`sent
      ensures View() == DrainInner(old(View()), task)
    {
      var s := heap[task].sessionId;
      if s !in live || heap[live[s]].closed {
        heap := heap[task := heap[task].(drain := Done)];
        return;
      }
      var q := live[s];
      var next := PopNextDelivery(q);
      if next == None {
        heap := heap[q := heap[q].(wake := Pending(heap[q]) != {})];
        heap := heap[task := heap[task].(drain := Waiting(q))];
      } else {
        var (lane, payload) := next.value;
        sent := sent + [Handed(task, q, payload)];
        heap := heap[task := heap[task].(drain := Sending(q, lane))];
      }
    }

    /** One run of the drain task, from the await it is suspended at to the next one. */
    method ResumeDrain(task: nat, outcome: Outcome)
      requires Closed(View())
      modifies this`heap, this`sent
      ensures View() == DoResume(old(View()), task, outcome)
    {
      if task >= |heap| || heap[task].drain.Done? {
        return;
      }
      if heap[task].cancelled {
        heap := heap[task := heap[task].(drain := Done)];
        return;
      }
      match heap[task].drain
      case Starting =>
        var s := heap[task].sessionId;
        if s !in live || heap[live[s]].closed {
          heap := heap[task := heap[task].(drain := Done)];
        } else if heap[live[s]].wake {
          InnerLoop(task);
        } else {
          heap := heap[task := heap[task].(drain := Waiting(live[s]))];
        }
      case Waiting(q) =>
        if heap[q].wake {
          InnerLoop(task);
        }
      case Sending(q, lane) =>
        heap := heap[q := Settle(heap[q], lane, outcome)];
        InnerLoop(task);
      case Done =>
    }
  }

  /** A loop over a set, part of the way: `order` was visited, `remaining` was not. */
  ghost predicate Visiting(all: set<string>, order: seq<string>, remaining: set<string>) {
    NoDup(order) && ToSet(order) !! remaining && ToSet(order) + remaining == all
  }

  lemma VisitOne(all: set<string>, order: seq<string>, remaining: set<string>, s: string)
    requires Visiting(all, order, remaining) && s in remaining
    ensures Visiting(all, order + [s], remaining - {s})
  {
    ToSetSnoc(order, s);
    assert s !in ToSet(order);
  }

  lemma PublishAllSnoc(h: Hub, order: seq<string>, s: string, event: string, lane: string)
    requires Closed(h)
    ensures var (g, n) := PublishAll(h, order, event, lane);
            var (g', ok) := DoPublish(g, s, event, lane);
            PublishAll(h, order + [s], event, lane) == (g', n + if ok then 1 else 0)
  {
    assert (order + [s])[..|order|] == order;
  }
}
