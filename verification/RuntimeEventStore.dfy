/** `RuntimeEventStore`: the deque and the file, updated in place. */
module RuntimeEventStore {
  import opened Text
  import opened Seqs
  import T = RuntimeTelemetry
  import P = RuntimeEventPages

  type Event = T.Event

  class EventStore {
    const retention: T.Retention
    const persistent: bool
    var events: seq<Event>
    var file: seq<T.Line>  // the lines of the persistence file; empty when it does not exist

    ghost function View(): T.Store
      reads this
    {
      T.Store(events, file)
    }

    constructor (ttlSeconds: int, maxEvents: int, persistent: bool, lines: seq<T.Line>, now: real)
      ensures retention == T.MakeRetention(ttlSeconds, maxEvents) && this.persistent == persistent && file == lines
      ensures events == if persistent then T.Load(retention, lines, now) else []
    {
      retention := T.MakeRetention(ttlSeconds, maxEvents);
      this.persistent := persistent;
      events := [];
      file := lines;
      new;
      if persistent {
        LoadFromDisk(now);
      }
    }

    method LoadFromDisk(now: real)
      modifies this`events
      ensures events == T.Load(retention, file, now)
    {
      var loaded := [];
      var i := 0;
      while i < |file|
        invariant 0 <= i <= |file|
        invariant T.Raising !in file[..i]
        invariant loaded + T.DecodeLines(file[i..], now) == T.DecodeLines(file, now)
      {
        if file[i] == T.Raising {
          assert exists j | 0 <= j < |file| :: file[j] == T.Raising;
          events := [];
          return;
        }
        PrefixSnoc(file, i);
        T.DecodeNext(file, i, loaded, now);
        if file[i].Row? {
          loaded := loaded + [T.Decode(file[i].e, now)];
        }
        i := i + 1;
      }
      assert file[..i] == file && file[i..] == [] && loaded + [] == loaded;
      assert forall j | 0 <= j < |file| :: file[j] in file;
      events := loaded;
      var _ := Prune(now);
    }

    method Prune(now: real) returns (removed: bool)
      modifies this`events
      ensures events == T.Prune(retention, old(events), now)
      ensures removed <==> |events| < |old(events)|
    {
      removed := false;
      var threshold := now - retention.ttl;
      while events != [] && events[0].ts < threshold
        invariant |events| <= |old(events)| && (removed <==> |events| < |old(events)|)
        invariant T.DropExpired(events, threshold) == T.DropExpired(old(events), threshold)
        decreases |events|
      {
        events := events[1..];
        removed := true;
      }
      ghost var unexpired := events;
      while |events| > retention.maxEvents
        invariant |events| <= |old(events)| && (removed <==> |events| < |old(events)|)
        invariant Suffix(events, retention.maxEvents) == Suffix(unexpired, retention.maxEvents)
        decreases |events|
      {
        SuffixRest(events, retention.maxEvents);
        events := events[1..];
        removed := true;
      }
    }

    /** Rewrites the file with one row per event in memory. */
    method CompactPersistenceFile()
      modifies this`file
      ensures file == if persistent then T.Rows(events) else old(file)
    {
      if !persistent {
        return;
      }
      file := [];
      for i := 0 to |events|
        invariant file == T.Rows(events[..i])
      {
        file := file + [T.Row(events[i])];
      }
      assert events[..|events|] == events;
    }

    method AppendEventToDisk(e: Event)
      modifies this`file
      ensures file == if persistent then old(file) + [T.Row(e)] else old(file)
    {
      if persistent {
        file := file + [T.Row(e)];
      }
    }

    method Append(id: string, now: real, category: string, subsystem: string, level: string, message: string,
                  session: Option<string>, request: Option<string>, task: Option<string>, details: map<string, string>)
      returns (e: Event)
      modifies this
      ensures e == T.MakeEvent(id, now, category, subsystem, level, message, session, request, task, details)
      ensures events == T.DoAppend(retention, old(View()), e).events
      ensures file == if persistent then T.DoAppend(retention, old(View()), e).file else old(file)
    {
      e := T.MakeEvent(id, now, category, subsystem, level, message, session, request, task, details);
      ghost var before := View();
      events := events + [e];
      var pruned := Prune(now);
      if pruned {
        CompactPersistenceFile();
      } else {
        T.PruneNothing(retention, before.events + [e], now);
        AppendEventToDisk(e);
      }
    }

    /** The list comprehension over `reversed(self._events)`. */
    method FilterNewestFirst(q: P.Query, rows: seq<Event>) returns (filtered: seq<Event>)
      ensures filtered == P.Filtered(q, rows)
    {
      filtered := [];
      for i := 0 to |rows|
        invariant filtered == P.Filtered(q, rows[..i])
      {
        PrefixSnoc(rows, i);
        P.FilteredSnoc(q, rows[..i], rows[i]);
        if P.Matches(q, rows[i]) {
          filtered := [rows[i]] + filtered;
        }
      }
      assert rows[..|rows|] == rows;
    }

    method ListEvents(q: P.Query, limit: int, cursor: int, now: real) returns (page: P.Page)
      modifies this
      ensures events == T.Compacted(retention, old(View()), now).events
      ensures file == if persistent then T.Compacted(retention, old(View()), now).file else old(file)
      ensures page == P.PageOf(P.Filtered(q, events), limit, cursor)
    {
      ghost var before := View();
      var pruned := Prune(now);
      if pruned {
        CompactPersistenceFile();
      } else {
        T.PruneNothing(retention, before.events, now);
      }
      var filtered := FilterNewestFirst(q, events);
      page := P.PageOf(filtered, limit, cursor);
    }
  }
}
