/** What the event log holds after a run, read off the appends: the retained end of everything that was appended. */
module RuntimeEventHistory {
  import opened Numbers
  import opened Text
  import opened Seqs
  import opened RuntimeTelemetry

  function Appended(ops: seq<Op>): seq<Event> {
    if ops == [] then [] else (if ops[0].OpAppend? then [ops[0].e] else []) + Appended(ops[1..])
  }

  // ----- Pruning part of a list -----

  lemma SortedParts(a: seq<Event>, b: seq<Event>)
    requires Sorted(a + b)
    ensures Sorted(a) && Sorted(b)
  {
    forall i, j | 0 <= i < j < |a| ensures a[i].ts <= a[j].ts {
      assert (a + b)[i] == a[i] && (a + b)[j] == a[j];
    }
    forall i, j | 0 <= i < j < |b| ensures b[i].ts <= b[j].ts {
      assert (a + b)[|a| + i] == b[i] && (a + b)[|a| + j] == b[j];
    }
  }

  lemma FreshOfConcat(a: seq<Event>, b: seq<Event>, threshold: real)
    requires Sorted(a + b)
    ensures FreshCount(a + b, threshold) <= FreshCount(a, threshold) + |b|
  {
    SortedParts(a, b);
    DropIsSuffix(a + b, threshold);
    DropIsSuffix(a, threshold);
    var n := FreshCount(a + b, threshold);
    if n > |b| {
      var i := |a| + |b| - n;
      assert (a + b)[i] == a[i] && (a + b)[i].ts >= threshold;
    }
  }

  lemma SuffixThenMore(a: seq<Event>, b: seq<Event>, n: nat)
    requires n <= |a|
    ensures Suffix(a, n) + b == Suffix(a + b, n + |b|)
  {
  }

  /** What was pruned away earlier would not have been retained later either. */
  lemma PruneThenMore(k: Retention, a: seq<Event>, b: seq<Event>, now: real, later: real)
    requires Sorted(a + b) && now <= later
    ensures Prune(k, Prune(k, a, now) + b, later) == Prune(k, a + b, later)
  {
    var n := Min(k.maxEvents, FreshCount(a, now - k.ttl));
    SortedParts(a, b);
    PruneIsSuffix(k, a, now);
    SuffixThenMore(a, b, n);
    FreshShrinks(a, now - k.ttl, later - k.ttl);
    FreshOfConcat(a, b, later - k.ttl);
    PruneOfSuffix(k, a + b, n + |b|, later);
  }

  lemma CanonConcat(a: seq<Event>, b: seq<Event>)
    ensures CanonAll(a + b) == CanonAll(a) + CanonAll(b)
  {
  }

  lemma CanonAllTwice(events: seq<Event>)
    requires AllStripped(events)
    ensures CanonAll(CanonAll(events)) == CanonAll(events)
  {
    forall i | 0 <= i < |events| ensures Canon(Canon(events[i])) == Canon(events[i]) {
      CanonTwice(events[i]);
    }
  }

  // ----- One step -----

  lemma StepEvents(k: Retention, s: Store, op: Op)
    requires !op.OpReload?
    ensures Apply(k, s, op).events == Prune(k, s.events + Appended([op]), TimeOf(op))
  {
    assert Appended([op][1..]) == [];
    if op.OpList? {
      assert s.events + Appended([op]) == s.events;
      if |Prune(k, s.events, op.now)| >= |s.events| { PruneNothing(k, s.events, op.now); }
    } else {
      assert Appended([op]) == [op.e];
      var grown := s.events + [op.e];
      if |Prune(k, grown, op.e.ts)| >= |grown| { PruneNothing(k, grown, op.e.ts); }
    }
  }

  lemma ReloadEvents(k: Retention, s: Store, now: real, later: real)
    requires InSync(k, s, now) && now <= later
    ensures Apply(k, s, OpReload(later)).events == CanonAll(Prune(k, s.events, later))
  {
    InSyncLater(k, s, now, later);
    LoadReadable(k, s.file, later);
    PruneCanon(k, s.events, later);
  }

  /** An event that was just appended is the last one held. */
  lemma AppendedIsLast(k: Retention, s: Store, e: Event)
    requires k.maxEvents >= 1 && k.ttl >= 0.0 && Sorted(s.events + [e])
    ensures var events := DoAppend(k, s, e).events; events != [] && events[|events| - 1] == e
  {
    var grown := s.events + [e];
    assert DoAppend(k, s, e) == Apply(k, s, OpAppend(e));
    StepEvents(k, s, OpAppend(e));
    assert Appended([OpAppend(e)][1..]) == [];
    FreshSnoc(s.events, e, e.ts - k.ttl);
    PruneIsSuffix(k, grown, e.ts);
  }

  // ----- Runs -----

  ghost predicate NoReload(ops: seq<Op>) {
    forall op | op in ops :: !op.OpReload?
  }

  lemma {:induction false} HistorySorted(events: seq<Event>, now: real, ops: seq<Op>)
    requires Sorted(events) && (forall i | 0 <= i < |events| :: events[i].ts <= now) && ClockRuns(now, ops)
    ensures Sorted(events + Appended(ops))
    decreases |ops|
  {
    if ops == [] {
      assert events + [] == events;
    } else {
      var more := if ops[0].OpAppend? then [ops[0].e] else [];
      HistorySorted(events + more, TimeOf(ops[0]), ops[1..]);
      ConcatAssoc(events, more, Appended(ops[1..]));
    }
  }

  lemma StepInSync(k: Retention, s: Store, now: real, op: Op)
    requires InSync(k, s, now) && now > 0.0 && k.ttl >= 0.0 && now <= TimeOf(op)
    requires op.OpAppend? ==> StrippedIds(op.e)
    ensures InSync(k, Apply(k, s, op), TimeOf(op))
  {
    match op
    case OpAppend(e) => AppendInSync(k, s, e, now);
    case OpList(later) => ListInSync(k, s, now, later);
    case OpReload(later) => ReloadInSync(k, s, now, later);
  }

  /** Without reloads the log is, event for event, the retained end of what it held followed by what was appended. */
  lemma {:induction false} EventsHeld(k: Retention, s: Store, now: real, ops: seq<Op>)
    requires InSync(k, s, now) && now > 0.0 && k.ttl >= 0.0 && ClockRuns(now, ops)
    requires forall op | op in ops && op.OpAppend? :: StrippedIds(op.e)
    requires NoReload(ops) && ops != []
    ensures Run(k, s, ops).events == Prune(k, s.events + Appended(ops), LastTime(now, ops))
    decreases |ops|
  {
    var op, rest := ops[0], ops[1..];
    var s1 := Apply(k, s, op);
    assert op in ops;
    StepEvents(k, s, op);
    HistoryGrows(s.events, now, ops);
    if rest == [] {
      assert s.events + Appended([op]) + [] == s.events + Appended([op]);
    } else {
      StepInSync(k, s, now, op);
      EventsHeld(k, s1, TimeOf(op), rest);
      ClockReaches(TimeOf(op), rest);
      PruneThenMore(k, s.events + Appended([op]), Appended(rest), TimeOf(op), LastTime(now, ops));
    }
  }

  lemma {:induction false} ClockReaches(now: real, ops: seq<Op>)
    requires ClockRuns(now, ops)
    ensures now <= LastTime(now, ops)
    decreases |ops|
  {
    if ops != [] { ClockReaches(TimeOf(ops[0]), ops[1..]); }
  }

  /** The same retained end, up to the file round trip. */
  ghost predicate SameHeld(k: Retention, a: seq<Event>, b: seq<Event>, later: real) {
    CanonAll(Prune(k, a, later)) == CanonAll(Prune(k, b, later))
  }

  lemma SameHeldIff(k: Retention, a: seq<Event>, b: seq<Event>, later: real)
    ensures SameHeld(k, a, b, later) <==> Prune(k, CanonAll(a), later) == Prune(k, CanonAll(b), later)
  {
    PruneCanon(k, a, later);
    PruneCanon(k, b, later);
  }

  lemma ReloadSameHeld(k: Retention, s: Store, now: real, at: real, more: seq<Event>, later: real)
    requires InSync(k, s, now) && now <= at <= later && Sorted(s.events + more)
    ensures SameHeld(k, Apply(k, s, OpReload(at)).events + more, s.events + more, later)
  {
    ReloadEvents(k, s, now, at);
    var held := Prune(k, s.events, at);
    InSyncLater(k, s, now, at);
    PruneParts(k, s.events, at, at);
    CanonAllTwice(held);
    CanonConcat(CanonAll(held), more);
    CanonConcat(held, more);
    SameHeldIff(k, CanonAll(held) + more, held + more, later);
    PruneThenMore(k, s.events, more, at, later);
  }

  lemma StepSameHeld(k: Retention, s: Store, now: real, op: Op, more: seq<Event>, later: real)
    requires InSync(k, s, now) && now <= TimeOf(op) <= later && Sorted(s.events + Appended([op]) + more)
    ensures SameHeld(k, Apply(k, s, op).events + more, s.events + Appended([op]) + more, later)
  {
    if op.OpReload? {
      assert Appended([op][1..]) == [] && s.events + Appended([op]) == s.events;
      ReloadSameHeld(k, s, now, op.now, more, later);
    } else {
      StepEvents(k, s, op);
      PruneThenMore(k, s.events + Appended([op]), more, TimeOf(op), later);
    }
  }

  lemma {:induction false} RunSameHeld(k: Retention, s: Store, now: real, ops: seq<Op>, later: real)
    requires InSync(k, s, now) && now > 0.0 && k.ttl >= 0.0 && ClockRuns(now, ops) && LastTime(now, ops) <= later
    requires forall op | op in ops && op.OpAppend? :: StrippedIds(op.e)
    ensures SameHeld(k, Run(k, s, ops).events, s.events + Appended(ops), later)
    decreases |ops|
  {
    if ops == [] {
      assert s.events + [] == s.events;
    } else {
      var op, rest := ops[0], ops[1..];
      assert op in ops;
      StepInSync(k, s, now, op);
      RunSameHeld(k, Apply(k, s, op), TimeOf(op), rest, later);
      HistoryGrows(s.events, now, ops);
      ClockReaches(TimeOf(op), rest);
      StepSameHeld(k, s, now, op, Appended(rest), later);
    }
  }

  lemma HistoryGrows(events: seq<Event>, now: real, ops: seq<Op>)
    requires Sorted(events) && UpTo(events, now) && ClockRuns(now, ops) && ops != []
    ensures events + Appended(ops) == events + Appended([ops[0]]) + Appended(ops[1..])
    ensures Sorted(events + Appended(ops))
  {
    var op := ops[0];
    assert Appended([op][1..]) == [];
    assert Appended([op]) == if op.OpAppend? then [op.e] else [];
    ConcatAssoc(events, Appended([op]), Appended(ops[1..]));
    HistorySorted(events, now, ops);
  }

  /**
   * After any run of appends, lists and reloads with a non-decreasing clock, what is retained at a later time, in live
   * memory as in the file, is what is retained of the events read at the start followed by those appended, up to the
   * round trip of each event; without reloads, memory holds exactly those.
   */
  lemma LogHoldsAppended(k: Retention, lines: seq<Line>, start: real, ops: seq<Op>, later: real)
    requires Readable(lines) && Sorted(FileEvents(lines)) && UpTo(FileEvents(lines), start)
    requires start > 0.0 && k.ttl >= 0.0 && ClockRuns(start, ops) && LastTime(start, ops) <= later
    requires forall op | op in ops && op.OpAppend? :: Made(op.e)
    ensures var s := Run(k, Store(Load(k, lines, start), lines), ops);
      var history := Load(k, lines, start) + Appended(ops);
      && CanonAll(Prune(k, s.events, later)) == Load(k, s.file, later) == CanonAll(Prune(k, history, later))
      && (NoReload(ops) && ops != [] ==> s.events == Prune(k, history, LastTime(start, ops)))
  {
    var s := Store(Load(k, lines, start), lines);
    OpenInSync(k, lines, start);
    ReloadAgrees(k, lines, start, ops, later);
    RunSameHeld(k, s, start, ops, later);
    if NoReload(ops) && ops != [] { EventsHeld(k, s, start, ops); }
  }

  // ----- The file stays as short as memory -----

  lemma RowsConcat(a: seq<Event>, b: seq<Event>)
    ensures Rows(a + b) == Rows(a) + Rows(b)
  {
  }

  /** An append or a list that prunes anything rewrites the file to the events held; else only new rows are added. */
  lemma PruningCompacts(k: Retention, s: Store, op: Op)
    requires !op.OpReload?
    ensures var after, grown := Apply(k, s, op), s.events + Appended([op]);
      after.file == if |after.events| < |grown| then Rows(after.events) else s.file + Rows(Appended([op]))
  {
    assert Appended([op][1..]) == [];
    if op.OpAppend? {
      assert Appended([op]) == [op.e] && Rows([op.e]) == [Row(op.e)];
      PruneIsSuffix(k, s.events + [op.e], op.e.ts);
    } else {
      assert s.events + Appended([op]) == s.events && s.file + Rows(Appended([op])) == s.file;
      PruneIsSuffix(k, s.events, op.now);
    }
  }

  lemma StepFileIsMemory(k: Retention, s: Store, op: Op)
    requires s.file == Rows(s.events) && !op.OpReload?
    ensures Apply(k, s, op).file == Rows(Apply(k, s, op).events)
  {
    var grown := s.events + Appended([op]);
    PruningCompacts(k, s, op);
    StepEvents(k, s, op);
    RowsConcat(s.events, Appended([op]));
    if |Apply(k, s, op).events| >= |grown| { PruneNothing(k, grown, TimeOf(op)); }
  }

  /** Without reloads the file is memory written out, row by row. */
  lemma {:induction false} FileIsMemory(k: Retention, s: Store, ops: seq<Op>)
    requires s.file == Rows(s.events) && NoReload(ops)
    ensures Run(k, s, ops).file == Rows(Run(k, s, ops).events)
    decreases |ops|
  {
    if ops != [] {
      assert ops[0] in ops;
      StepFileIsMemory(k, s, ops[0]);
      FileIsMemory(k, Apply(k, s, ops[0]), ops[1..]);
    }
  }

  lemma {:induction false} DecodeCount(events: seq<Event>, now: real)
    ensures |DecodeLines(Rows(events), now)| == |events| && Raising !in Rows(events)
  {
    if events != [] {
      assert Rows(events)[1..] == Rows(events[1..]);
      DecodeCount(events[1..], now);
    }
  }

  /** A reload never rewrites the file, so it is as short as memory afterwards exactly if nothing was pruned. */
  lemma ReloadKeepsFileIff(k: Retention, s: Store, now: real)
    requires s.file == Rows(s.events)
    ensures var after := Apply(k, s, OpReload(now));
      && after.file == s.file
      && (|after.events| == |after.file| <==> after.events == DecodeLines(s.file, now))
  {
    DecodeCount(s.events, now);
    PruneIsSuffix(k, DecodeLines(s.file, now), now);
  }
}
