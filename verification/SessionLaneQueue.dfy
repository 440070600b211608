/** `SessionLaneQueue` itself: the object whose fields the operations update in place. */
module SessionLaneQueue {
  import opened Text
  import opened Seqs
  import L = SessionLanes

  type Item = L.Item

  datatype PopResult = Popped(item: Item) | IndexError(message: string)

  class LaneQueue {
    var queues: map<string, seq<Item>>
    var keys: seq<string>  // insertion order of the `queues` dict
    var laneOrder: seq<string>
    var cursor: nat

    ghost function View(): L.Lanes
      reads this
    {
      L.Lanes(queues, keys, laneOrder, cursor)
    }

    constructor (preferredLanes: seq<string>)
      ensures L.Ok(View()) && View() == L.Empty(preferredLanes)
    {
      queues, keys, cursor := map[], [], 0;
      laneOrder := if preferredLanes == [] then L.DEFAULT_LANES else preferredLanes;
    }

    /** `list(self._queues.values())` flattened in a loop and sorted by age. */
    method Snapshot() returns (items: seq<Item>)
      requires L.Valid(View())
      ensures items == L.Snapshot(View())
    {
      var flat := [];
      for i := 0 to |keys|
        invariant flat == L.Flatten(keys[..i], queues)
      {
        L.FlattenSnoc(keys[..i], queues, keys[i]);
        assert keys[..i + 1] == keys[..i] + [keys[i]];
        flat := flat + queues[keys[i]];
      }
      assert keys[..|keys|] == keys;
      items := L.SortByAge(flat);
    }

    /** `uuid4` makes `queueId` new; `now` is the clock reading. */
    method Enqueue(instruction: string, lane: string, source: string, metadata: map<string, string>, queueId: int,
                   now: real)
      returns (item: Item)
      requires L.Ok(View())
      requires forall x | x in L.Items(View()) :: x.queueId != queueId
      modifies this
      ensures L.Ok(View())
      ensures item == L.MakeItem(instruction, lane, source, metadata, queueId, now)
      ensures View() == L.Enqueue(old(View()), item)
    {
      item := L.Item(Strip(instruction), L.OrDefault(lane, "default"), L.OrDefault(source, "runtime"), metadata,
            queueId, now);
      L.EnqueueOk(View(), item);
      Store(item);
    }

    method Store(item: Item)
      modifies this
      ensures View() == L.Enqueue(old(View()), item)
    {
      SetDefault(item.lane);
      queues := queues[item.lane := queues[item.lane] + [item]];
      if item.lane !in laneOrder {
        laneOrder := laneOrder + [item.lane];
      }
    }

    /** `self._queues.setdefault(lane, deque())`. */
    method SetDefault(lane: string)
      modifies this`queues, this`keys
      ensures keys == if lane in old(queues) then old(keys) else old(keys) + [lane]
      ensures queues == old(queues)[lane := L.Queue(old(View()), lane)]
    {
      if lane !in queues {
        queues := queues[lane := []];
        keys := keys + [lane];
      }
    }

    /** The active lanes: the list comprehension of `pop_next`. */
    method ActiveLanes() returns (active: seq<string>)
      ensures active == L.Active(View())
    {
      active := [];
      for i := 0 to |laneOrder|
        invariant active == Filter(laneOrder[..i], L.NonEmpty(View()))
      {
        assert laneOrder[..i + 1] == laneOrder[..i] + [laneOrder[i]];
        FilterSnoc(laneOrder[..i], laneOrder[i], L.NonEmpty(View()));
        if laneOrder[i] in queues && queues[laneOrder[i]] != [] {
          active := active + [laneOrder[i]];
        }
      }
      assert laneOrder[..|laneOrder|] == laneOrder;
    }

    method PopNext() returns (item: Option<Item>)
      requires L.Ok(View())
      modifies this
      ensures L.Ok(View())
      ensures (View(), item) == L.PopNext(old(View()))
    {
      L.PopOk(View());
      item := ServeCursor();
    }

    /**
     * The lane at the cursor is active, so the source's search over offsets always stops at offset 0;
     * the method serves that lane directly.
     */
    method ServeCursor() returns (item: Option<Item>)
      modifies this
      ensures (View(), item) == L.PopNext(old(View()))
    {
      var active := ActiveLanes();
      if active == [] {
        return None;
      }
      L.PopStep(View());
      var start := cursor % |active|;
      var lane := active[start];
      var head := TakeHead(lane);
      item := Some(head);
      cursor := (start + 1) % |active|;
    }

    /** `queue.popleft()` of a non-empty lane. */
    method TakeHead(lane: string) returns (head: Item)
      requires lane in queues && queues[lane] != []
      modifies this
      ensures head == old(queues)[lane][0]
      ensures View() == L.SetQueue(old(View()), lane, old(queues)[lane][1..])
    {
      var queue := queues[lane];
      head := queue[0];
      StoreQueue(lane, queue[1..]);
    }

    /** Writes a shortened deque back; an emptied lane is popped from the dict. */
    method StoreQueue(lane: string, rest: seq<Item>)
      modifies this
      ensures View() == L.SetQueue(old(View()), lane, rest)
    {
      if rest == [] {
        queues := queues - {lane};
        keys := Without(keys, lane);
      } else {
        queues := queues[lane := rest];
      }
    }

    /** The search of `remove_at` through one deque. */
    method FindId(queue: seq<Item>, id: int) returns (i: nat)
      ensures i == L.IndexOfId(queue, id)
    {
      i := 0;
      while i < |queue| && queue[i].queueId != id
        invariant i <= L.IndexOfId(queue, id)
      {
        i := i + 1;
      }
    }

    method RemoveAt(index: int) returns (item: Option<Item>)
      requires L.Ok(View())
      modifies this
      ensures L.Ok(View())
      ensures (View(), item) == L.RemoveAt(old(View()), index)
    {
      L.RemoveOk(View(), index);
      if index < 0 {
        return None;
      }
      var flattened := Snapshot();
      if index >= |flattened| {
        return None;
      }
      var target := flattened[index];
      if target.lane !in queues {
        return None;
      }
      var queue := queues[target.lane];
      var i := FindId(queue, target.queueId);
      if i == |queue| {
        return None;
      }
      item := Some(queue[i]);
      StoreQueue(target.lane, Seqs.DeleteAt(queue, i));
    }

    /** List-style `pop`: -1 means the newest item; every other out-of-range index raises. */
    method Pop(index: int) returns (r: PopResult)
      requires L.Ok(View())
      modifies this
      ensures L.Ok(View())
      ensures var s := L.Snapshot(old(View()));
              var i := if index == -1 then |s| - 1 else index;
              if 0 <= i < |s| then r == Popped(s[i]) && L.Snapshot(View()) == Seqs.DeleteAt(s, i)
              else r.IndexError? && View() == old(View())
    {
      var flattened := Snapshot();
      if flattened == [] {
        return IndexError("pop from empty SessionLaneQueue");
      }
      var resolved := if index == -1 then |flattened| - 1 else index;
      L.RemoveAtDeletes(View(), resolved);
      var item := RemoveAt(resolved);
      if item == None {
        return IndexError("SessionLaneQueue index out of range");
      }
      return Popped(item.value);
    }
  }
}
