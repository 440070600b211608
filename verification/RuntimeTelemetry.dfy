/** The retained runtime event log (backend/runtime_telemetry.py): pruning, the file behind it, and pagination. */
module RuntimeTelemetry {
  import opened Numbers
  import opened Text
  import opened Seqs

  datatype Event = Event(
    id: string, ts: real, category: string, subsystem: string, level: string, message: string,
    session: Option<string>, request: Option<string>, task: Option<string>, details: map<string, string>)

  /** A line of the file: a JSON row, or one of the things the loader meets instead. */
  datatype Line = Row(e: Event) | EmptyLine | Malformed | Raising

  datatype Retention = Retention(ttl: real, maxEvents: nat)

  function MakeRetention(ttlSeconds: int, maxEvents: int): Retention {
    Retention(if ttlSeconds < 60 then 60.0 else ttlSeconds as real, if maxEvents < 100 then 100 else maxEvents)
  }

  // ----- Fields -----

  function OrElse(value: string, fallback: string): string {
    if value == "" then fallback else value
  }

  function Label(value: string, fallback: string): string {
    OrElse(Lower(Strip(OrElse(value, fallback))), fallback)
  }

  /** `str(x).strip() if x else None` */
  function OptionalId(x: Option<string>): Option<string> {
    if x.Some? && x.value != "" then Some(Strip(x.value)) else None
  }

  function MakeEvent(id: string, now: real, category: string, subsystem: string, level: string, message: string,
                     session: Option<string>, request: Option<string>, task: Option<string>,
                     details: map<string, string>): Event {
    Event(id, now, Label(category, "runtime"), Label(subsystem, "system"), Label(level, "info"),
          OrElse(Strip(OrElse(message, "event")), "event"),
          OptionalId(session), OptionalId(request), OptionalId(task), details)
  }

  /** What the loader makes of a row; the clock stands in for a missing (zero) time stamp. */
  function Decode(row: Event, now: real): Event {
    Canon(row).(ts := if row.ts == 0.0 then now else row.ts)
  }

  function Canon(row: Event): Event {
    Event(row.id, row.ts, OrElse(row.category, "runtime"), OrElse(row.subsystem, "system"), OrElse(row.level, "info"),
          OrElse(row.message, "event"), OptionalId(row.session), OptionalId(row.request), OptionalId(row.task),
                row.details)
  }

  function CanonAll(rows: seq<Event>): (r: seq<Event>)
    ensures |r| == |rows| && forall i | 0 <= i < |rows| :: r[i] == Canon(rows[i])
  {
    if rows == [] then [] else [Canon(rows[0])] + CanonAll(rows[1..])
  }

  function DecodeLines(lines: seq<Line>, now: real): seq<Event> {
    if lines == [] then []
    else (if lines[0].Row? then [Decode(lines[0].e, now)] else []) + DecodeLines(lines[1..], now)
  }

  lemma DecodeNext(lines: seq<Line>, i: nat, loaded: seq<Event>, now: real)
    requires i < |lines|
    ensures loaded + DecodeLines(lines[i..], now)
         == (if lines[i].Row? then loaded + [Decode(lines[i].e, now)] else loaded) + DecodeLines(lines[i + 1..], now)
  {
    assert lines[i..][1..] == lines[i + 1..];
    if lines[i].Row? {
      ConcatAssoc(loaded, [Decode(lines[i].e, now)], DecodeLines(lines[i + 1..], now));
    }
  }

  function Rows(events: seq<Event>): (r: seq<Line>)
    ensures |r| == |events| && forall i | 0 <= i < |events| :: r[i] == Row(events[i])
  {
    if events == [] then [] else [Row(events[0])] + Rows(events[1..])
  }

  // ----- Retention -----

  function DropExpired(events: seq<Event>, threshold: real): seq<Event> {
    if events != [] && events[0].ts < threshold then DropExpired(events[1..], threshold) else events
  }

  function Prune(k: Retention, events: seq<Event>, now: real): seq<Event> {
    Suffix(DropExpired(events, now - k.ttl), k.maxEvents)
  }

  /** `_load_from_disk`: an exception from any row drops everything that was read. */
  function Load(k: Retention, lines: seq<Line>, now: real): seq<Event> {
    if exists i | 0 <= i < |lines| :: lines[i] == Raising then [] else Prune(k, DecodeLines(lines, now), now)
  }

  // ----- The store -----

  datatype Store = Store(events: seq<Event>, file: seq<Line>)

  function Compacted(k: Retention, s: Store, now: real): Store {
    var kept := Prune(k, s.events, now);
    if |kept| < |s.events| then Store(kept, Rows(kept)) else s
  }

  function DoAppend(k: Retention, s: Store, e: Event): Store {
    var grown := s.events + [e];
    var kept := Prune(k, grown, e.ts);
    if |kept| < |grown| then Store(kept, Rows(kept)) else Store(grown, s.file + [Row(e)])
  }

  datatype Op = OpAppend(e: Event) | OpList(now: real) | OpReload(now: real)

  function TimeOf(op: Op): real {
    match op case OpAppend(e) => e.ts case OpList(now) => now case OpReload(now) => now
  }

  function Apply(k: Retention, s: Store, op: Op): Store {
    match op
    case OpAppend(e) => DoAppend(k, s, e)
    case OpList(now) => Compacted(k, s, now)
    case OpReload(now) => Store(Load(k, s.file, now), s.file)
  }

  function Run(k: Retention, s: Store, ops: seq<Op>): Store
    decreases |ops|
  {
    if ops == [] then s else Run(k, Apply(k, s, ops[0]), ops[1..])
  }

  // ----- Pruning sorted events -----

  ghost predicate Sorted(events: seq<Event>) {
    forall i, j | 0 <= i < j < |events| :: events[i].ts <= events[j].ts
  }

  function FreshCount(events: seq<Event>, threshold: real): nat {
    |DropExpired(events, threshold)|
  }

  lemma {:induction false} DropIsSuffix(events: seq<Event>, threshold: real)
    ensures FreshCount(events, threshold) <= |events|
    ensures DropExpired(events, threshold) == Suffix(events, FreshCount(events, threshold))
    ensures Sorted(events) ==> forall i | 0 <= i < |events| ::
          events[i].ts >= threshold <==> i >= |events| - FreshCount(events, threshold)
  {
    if events != [] && events[0].ts < threshold {
      DropIsSuffix(events[1..], threshold);
      var n := FreshCount(events, threshold);
      forall i | 0 <= i < |events| && Sorted(events) ensures events[i].ts >= threshold <==> i >= |events| - n {
        if i > 0 { assert events[i] == events[1..][i - 1]; }
      }
    }
  }

  lemma {:induction false} FreshUnique(events: seq<Event>, threshold: real, n: nat)
    requires n <= |events|
    requires forall i | 0 <= i < |events| :: events[i].ts >= threshold <==> i >= |events| - n
    ensures FreshCount(events, threshold) == n
  {
    if n < |events| {
      assert events[0].ts < threshold;
      forall i | 0 <= i < |events[1..]| ensures events[1..][i].ts >= threshold <==> i >= |events[1..]| - n {
        assert events[1..][i] == events[i + 1];
      }
      FreshUnique(events[1..], threshold, n);
    }
  }

  /** A suffix that retention allows: no longer than the limit, and nothing in it expired. */
  ghost predicate Retainable(k: Retention, events: seq<Event>, now: real) {
    |events| <= k.maxEvents && forall e | e in events :: e.ts >= now - k.ttl
  }

  /** For time-ordered events pruning keeps the longest suffix that is both fresh and short enough. */
  lemma PruneKeepsLongest(k: Retention, events: seq<Event>, now: real)
    requires Sorted(events)
    ensures var n := |Prune(k, events, now)|;
      && n <= |events| && Prune(k, events, now) == Suffix(events, n)
      && forall m: nat | m <= |events| :: Retainable(k, Suffix(events, m), now) <==> m <= n
  {
    PruneIsSuffix(k, events, now);
    DropIsSuffix(events, now - k.ttl);
    forall m: nat | m <= |events|
      ensures Retainable(k, Suffix(events, m), now) <==> m <= |Prune(k, events, now)| {
      SuffixRetainable(k, events, m, now);
    }
  }

  lemma SuffixRetainable(k: Retention, events: seq<Event>, m: nat, now: real)
    requires Sorted(events) && m <= |events|
    ensures Retainable(k, Suffix(events, m), now) <==> m <= k.maxEvents && m <= FreshCount(events, now - k.ttl)
  {
    var s, threshold := Suffix(events, m), now - k.ttl;
    DropIsSuffix(events, threshold);
    SuffixAt(events, m);
    if m > FreshCount(events, threshold) {
      assert s[0] in s && s[0].ts < threshold;
    } else {
      forall e | e in s ensures e.ts >= threshold {
        var i :| 0 <= i < |s| && s[i] == e;
        assert e == events[|events| - m + i];
      }
    }
  }

  lemma SuffixAt(events: seq<Event>, m: nat)
    requires m <= |events|
    ensures |Suffix(events, m)| == m && forall i | 0 <= i < m :: Suffix(events, m)[i] == events[|events| - m + i]
  {
  }

  lemma PruneIsSuffix(k: Retention, events: seq<Event>, now: real)
    ensures var n := Min(k.maxEvents, FreshCount(events, now - k.ttl));
            0 <= n <= |events| && Prune(k, events, now) == Suffix(events, n)
  {
    DropIsSuffix(events, now - k.ttl);
    SuffixMin(events, FreshCount(events, now - k.ttl), k.maxEvents);
  }

  lemma SuffixMin(events: seq<Event>, n: nat, m: nat)
    requires n <= |events|
    ensures Suffix(Suffix(events, n), m) == Suffix(events, Min(m, n))
  {
    var s := Suffix(events, n);
    if m < n {
      assert s[n - m..] == events[|events| - m..];
    }
  }

  lemma FreshOfSuffix(events: seq<Event>, n: nat, threshold: real)
    requires Sorted(events) && n <= |events|
    ensures FreshCount(Suffix(events, n), threshold) == Min(n, FreshCount(events, threshold))
  {
    DropIsSuffix(events, threshold);
    var s := Suffix(events, n);
    var m := Min(n, FreshCount(events, threshold));
    forall i | 0 <= i < |s| ensures s[i].ts >= threshold <==> i >= |s| - m {
      assert s[i] == events[|events| - n + i];
    }
    FreshUnique(s, threshold, m);
  }

  lemma FreshShrinks(events: seq<Event>, a: real, b: real)
    requires Sorted(events) && a <= b
    ensures FreshCount(events, b) <= FreshCount(events, a)
  {
    DropIsSuffix(events, a);
    DropIsSuffix(events, b);
    var n := FreshCount(events, b);
    if n > 0 {
      assert events[|events| - n].ts >= b;
    }
  }

  lemma SuffixSuffix(events: seq<Event>, m: nat, n: nat)
    requires m <= n <= |events|
    ensures Suffix(Suffix(events, n), m) == Suffix(events, m)
  {
  }

  /** Pruning now and again later is pruning later. */
  lemma PruneTwice(k: Retention, events: seq<Event>, now: real, later: real)
    requires Sorted(events) && now <= later
    ensures Prune(k, Prune(k, events, now), later) == Prune(k, events, later)
  {
    PruneIsSuffix(k, events, now);
    FreshShrinks(events, now - k.ttl, later - k.ttl);
    PruneOfSuffix(k, events, Min(k.maxEvents, FreshCount(events, now - k.ttl)), later);
  }

  lemma FreshSnoc(events: seq<Event>, e: Event, threshold: real)
    requires Sorted(events + [e]) && e.ts >= threshold
    ensures FreshCount(events + [e], threshold) == FreshCount(events, threshold) + 1
  {
    assert Sorted(events) by {
      forall i, j | 0 <= i < j < |events| ensures events[i].ts <= events[j].ts {
        assert (events + [e])[i] == events[i] && (events + [e])[j] == events[j];
      }
    }
    DropIsSuffix(events, threshold);
    FreshUnique(events + [e], threshold, FreshCount(events, threshold) + 1);
  }

  lemma SuffixSortedSnoc(events: seq<Event>, n: nat, e: Event)
    requires Sorted(events + [e]) && n <= |events|
    ensures Sorted(Suffix(events, n) + [e]) && Suffix(events, n) + [e] == Suffix(events + [e], n + 1)
  {
    var s, all, d := Suffix(events, n) + [e], events + [e], |events| - n;
    forall i, j | 0 <= i < j < |s| ensures s[i].ts <= s[j].ts {
      assert s[i] == all[d + i] && s[j] == all[d + j];
    }
  }

  /** A new event can be added before or after pruning the old ones. */
  lemma PruneSnoc(k: Retention, events: seq<Event>, e: Event)
    requires Sorted(events + [e]) && Sorted(events) && k.ttl >= 0.0
    ensures Prune(k, Prune(k, events, e.ts) + [e], e.ts) == Prune(k, events + [e], e.ts)
  {
    var threshold := e.ts - k.ttl;
    var n := Min(k.maxEvents, FreshCount(events, threshold));
    PruneIsSuffix(k, events, e.ts);
    SuffixSortedSnoc(events, n, e);
    FreshSnoc(events, e, threshold);
    PruneOfSuffix(k, events + [e], n + 1, e.ts);
  }

  /** A suffix that holds all that pruning can keep prunes to the same events. */
  lemma PruneOfSuffix(k: Retention, events: seq<Event>, n: nat, now: real)
    requires Sorted(events) && Min(k.maxEvents, FreshCount(events, now - k.ttl)) <= n <= |events|
    ensures Prune(k, Suffix(events, n), now) == Prune(k, events, now)
  {
    FreshOfSuffix(events, n, now - k.ttl);
    PruneIsSuffix(k, Suffix(events, n), now);
    PruneIsSuffix(k, events, now);
    SuffixSuffix(events, Min(k.maxEvents, FreshCount(events, now - k.ttl)), n);
  }

  lemma {:induction false} DropCanon(events: seq<Event>, threshold: real)
    ensures DropExpired(CanonAll(events), threshold) == CanonAll(DropExpired(events, threshold))
  {
    if events != [] && events[0].ts < threshold {
      assert CanonAll(events)[1..] == CanonAll(events[1..]);
      DropCanon(events[1..], threshold);
    }
  }

  lemma CanonRest(events: seq<Event>)
    requires events != []
    ensures CanonAll(events)[1..] == CanonAll(events[1..])
  {
  }

  lemma {:induction false} CanonSuffix(events: seq<Event>, n: nat)
    ensures Suffix(CanonAll(events), n) == CanonAll(Suffix(events, n))
  {
    if |events| > n {
      CanonRest(events);
      SuffixRest(events, n);
      SuffixRest(CanonAll(events), n);
      CanonSuffix(events[1..], n);
    }
  }

  lemma DropSuffixCanon(events: seq<Event>, threshold: real, n: nat)
    ensures Suffix(DropExpired(CanonAll(events), threshold), n) == CanonAll(Suffix(DropExpired(events, threshold), n))
  {
    DropCanon(events, threshold);
    CanonSuffix(DropExpired(events, threshold), n);
  }

  /** Pruning looks at time stamps only, so it commutes with what a round trip through the file does to an event. */
  lemma PruneCanon(k: Retention, events: seq<Event>, now: real)
    ensures Prune(k, CanonAll(events), now) == CanonAll(Prune(k, events, now))
  {
    DropSuffixCanon(events, now - k.ttl, k.maxEvents);
  }

  /** Events that already went through the file are not changed by it again. */
  lemma CanonFixed(events: seq<Event>)
    requires forall i | 0 <= i < |events| :: Canon(events[i]) == events[i]
    ensures CanonAll(events) == events
  {
  }

  // ----- Memory and file agree -----

  ghost predicate StrippedIds(e: Event) {
    && (e.session.Some? ==> Stripped(e.session.value))
    && (e.request.Some? ==> Stripped(e.request.value))
    && (e.task.Some? ==> Stripped(e.task.value))
  }

  lemma CanonTwice(e: Event)
    requires StrippedIds(e)
    ensures Canon(Canon(e)) == Canon(e)
  {
  }

  /** Every line can be read, and every row has a real time stamp and stripped ids, as rows of a store have. */
  ghost predicate Readable(lines: seq<Line>) {
    forall i | 0 <= i < |lines| :: lines[i] != Raising && (lines[i].Row? ==>
          lines[i].e.ts > 0.0 && StrippedIds(lines[i].e))
  }

  ghost predicate AllStripped(events: seq<Event>) {
    forall i | 0 <= i < |events| :: StrippedIds(events[i])
  }

  function FileEvents(lines: seq<Line>): seq<Event> {
    if lines == [] then [] else LineEvents(lines[0]) + FileEvents(lines[1..])
  }

  function LineEvents(line: Line): seq<Event> {
    if line.Row? then [Canon(line.e)] else []
  }

  lemma FileEventsCons(line: Line, rest: seq<Line>)
    ensures FileEvents([line] + rest) == LineEvents(line) + FileEvents(rest)
  {
    assert ([line] + rest)[1..] == rest;
  }

  lemma ReadableRest(lines: seq<Line>)
    requires Readable(lines) && lines != []
    ensures Readable(lines[1..]) && lines[0] != Raising
    ensures lines[0].Row? ==> lines[0].e.ts > 0.0 && StrippedIds(lines[0].e)
  {
    forall i | 0 <= i < |lines[1..]| ensures lines[1..][i] == lines[i + 1] {}
  }

  lemma {:induction false} DecodeReadable(lines: seq<Line>, now: real)
    requires Readable(lines)
    ensures DecodeLines(lines, now) == FileEvents(lines)
  {
    if lines != [] {
      ReadableRest(lines);
      DecodeReadable(lines[1..], now);
    }
  }

  lemma {:induction false} FileEventsSnoc(lines: seq<Line>, e: Event)
    ensures FileEvents(lines + [Row(e)]) == FileEvents(lines) + [Canon(e)]
  {
    if lines == [] {
      assert lines + [Row(e)] == [Row(e)] + [];
      FileEventsCons(Row(e), []);
    } else {
      FileEventsCons(lines[0], lines[1..]);
      FileEventsCons(lines[0], lines[1..] + [Row(e)]);
      ConcatAssoc([lines[0]], lines[1..], [Row(e)]);
      assert [lines[0]] + lines[1..] == lines;
      FileEventsSnoc(lines[1..], e);
      ConcatAssoc(LineEvents(lines[0]), FileEvents(lines[1..]), [Canon(e)]);
    }
  }

  lemma {:induction false} FileEventsOfRows(events: seq<Event>)
    ensures FileEvents(Rows(events)) == CanonAll(events)
  {
    if events != [] {
      assert Rows(events)[1..] == Rows(events[1..]);
      FileEventsOfRows(events[1..]);
    }
  }

  lemma {:induction false} FileEventsCanonical(lines: seq<Line>)
    requires Readable(lines)
    ensures AllStripped(FileEvents(lines))
    ensures forall i | 0 <= i < |FileEvents(lines)| :: Canon(FileEvents(lines)[i]) == FileEvents(lines)[i]
  {
    if lines != [] {
      ReadableRest(lines);
      FileEventsCanonical(lines[1..]);
      if lines[0].Row? {
        CanonTwice(lines[0].e);
        var all := FileEvents(lines);
        assert all == [Canon(lines[0].e)] + FileEvents(lines[1..]);
        forall i | 0 <= i < |all| ensures Canon(all[i]) == all[i] && StrippedIds(all[i]) {
          if i > 0 { assert all[i] == FileEvents(lines[1..])[i - 1]; }
        }
      }
    }
  }

  ghost predicate UpTo(events: seq<Event>, now: real) {
    forall i | 0 <= i < |events| :: 0.0 < events[i].ts <= now
  }

  /**
   * The file holds, up to its round trip, everything live memory holds, behind a prefix that pruning removes: from
   * `now` on, both prune to the same events.
   */
  ghost predicate InSync(k: Retention, s: Store, now: real) {
    && Readable(s.file) && AllStripped(s.events)
    && Sorted(s.events) && Sorted(FileEvents(s.file))
    && UpTo(s.events, now) && UpTo(FileEvents(s.file), now)
    && Prune(k, FileEvents(s.file), now) == Prune(k, CanonAll(s.events), now)
  }

  lemma CanonSorted(events: seq<Event>, now: real)
    requires Sorted(events) && UpTo(events, now)
    ensures Sorted(CanonAll(events)) && UpTo(CanonAll(events), now)
  {
  }

  lemma InSyncLater(k: Retention, s: Store, now: real, later: real)
    requires InSync(k, s, now) && now <= later
    ensures InSync(k, s, later)
  {
    CanonSorted(s.events, now);
    PruneTwice(k, FileEvents(s.file), now, later);
    PruneTwice(k, CanonAll(s.events), now, later);
  }

  /** What holds of the events holds of the pruned ones. */
  lemma PruneParts(k: Retention, events: seq<Event>, now: real, upTo: real)
    requires Sorted(events) && UpTo(events, upTo) && AllStripped(events)
    ensures Sorted(Prune(k, events, now)) && UpTo(Prune(k, events, now), upTo) && AllStripped(Prune(k, events, now))
  {
    PruneIsSuffix(k, events, now);
    PartsOfSuffix(events, Min(k.maxEvents, FreshCount(events, now - k.ttl)), upTo);
  }

  lemma PartsOfSuffix(events: seq<Event>, n: nat, upTo: real)
    requires Sorted(events) && UpTo(events, upTo) && AllStripped(events)
    ensures Sorted(Suffix(events, n)) && UpTo(Suffix(events, n), upTo) && AllStripped(Suffix(events, n))
  {
    var s := Suffix(events, n);
    var d := |events| - |s|;
    forall i, j | 0 <= i < j < |s| ensures s[i].ts <= s[j].ts {
      assert s[i] == events[d + i] && s[j] == events[d + j];
    }
    forall i | 0 <= i < |s| ensures 0.0 < s[i].ts <= upTo && StrippedIds(s[i]) {
      assert s[i] == events[d + i];
    }
  }

  /** Pruned events of a file are not changed by another round trip. */
  lemma PrunedCanonical(k: Retention, lines: seq<Line>, now: real)
    requires Readable(lines)
    ensures var loaded := Prune(k, FileEvents(lines), now); CanonAll(loaded) == loaded
  {
    PruneCanon(k, FileEvents(lines), now);
    FileEventsCanonical(lines);
    CanonFixed(FileEvents(lines));
  }

  lemma RowsReadable(events: seq<Event>, now: real)
    requires UpTo(events, now) && AllStripped(events)
    ensures Readable(Rows(events))
  {
  }

  /** A freshly compacted store is in sync: the file is memory written out. */
  lemma CompactedInSync(k: Retention, events: seq<Event>, now: real)
    requires Sorted(events) && UpTo(events, now) && AllStripped(events)
    ensures InSync(k, Store(Prune(k, events, now), Rows(Prune(k, events, now))), now)
  {
    var kept := Prune(k, events, now);
    PruneParts(k, events, now, now);
    FileEventsOfRows(kept);
    CanonSorted(kept, now);
    RowsReadable(kept, now);
  }

  lemma PruneNothing(k: Retention, events: seq<Event>, now: real)
    requires |Prune(k, events, now)| >= |events|
    ensures Prune(k, events, now) == events
  {
    PruneIsSuffix(k, events, now);
  }

  lemma AppendInSync(k: Retention, s: Store, e: Event, now: real)
    requires InSync(k, s, now) && now <= e.ts && e.ts > 0.0 && k.ttl >= 0.0 && StrippedIds(e)
    ensures InSync(k, DoAppend(k, s, e), e.ts)
  {
    InSyncLater(k, s, now, e.ts);
    var grown := s.events + [e];
    SortedSnoc(s.events, e);
    StrippedSnoc(s.events, e);
    if |Prune(k, grown, e.ts)| < |grown| {
      CompactedInSync(k, grown, e.ts);
    } else {
      FileEventsSnoc(s.file, e);
      ReadableSnoc(s.file, e);
      CanonSorted(s.events, e.ts);
      CanonSnoc(s.events, e);
      SortedSnoc(FileEvents(s.file), Canon(e));
      SortedSnoc(CanonAll(s.events), Canon(e));
      PruneSnoc(k, FileEvents(s.file), Canon(e));
      PruneSnoc(k, CanonAll(s.events), Canon(e));
    }
  }

  lemma SortedSnoc(events: seq<Event>, e: Event)
    requires Sorted(events) && UpTo(events, e.ts) && e.ts > 0.0
    ensures Sorted(events + [e]) && UpTo(events + [e], e.ts)
  {
  }

  lemma StrippedSnoc(events: seq<Event>, e: Event)
    requires AllStripped(events) && StrippedIds(e)
    ensures AllStripped(events + [e])
  {
  }

  lemma ReadableSnoc(lines: seq<Line>, e: Event)
    requires Readable(lines) && StrippedIds(e) && e.ts > 0.0
    ensures Readable(lines + [Row(e)])
  {
  }

  lemma CanonSnoc(events: seq<Event>, e: Event)
    ensures CanonAll(events + [e]) == CanonAll(events) + [Canon(e)]
  {
    var all := CanonAll(events + [e]);
    assert all[|events|] == Canon(e);
  }

  lemma ListInSync(k: Retention, s: Store, now: real, later: real)
    requires InSync(k, s, now) && now <= later
    ensures InSync(k, Compacted(k, s, later), later)
  {
    InSyncLater(k, s, now, later);
    if |Prune(k, s.events, later)| < |s.events| {
      CompactedInSync(k, s.events, later);
    }
  }

  lemma LoadReadable(k: Retention, lines: seq<Line>, now: real)
    requires Readable(lines)
    ensures Load(k, lines, now) == Prune(k, FileEvents(lines), now)
  {
    DecodeReadable(lines, now);
  }

  lemma ReloadInSync(k: Retention, s: Store, now: real, later: real)
    requires InSync(k, s, now) && now <= later
    ensures InSync(k, Store(Load(k, s.file, later), s.file), later)
  {
    InSyncLater(k, s, now, later);
    LoadReadable(k, s.file, later);
    var file := FileEvents(s.file);
    FileEventsCanonical(s.file);
    PruneParts(k, file, later, later);
    PrunedCanonical(k, s.file, later);
    PruneTwice(k, file, later, later);
  }

  ghost predicate ClockRuns(now: real, ops: seq<Op>)
    decreases |ops|
  {
    ops == [] || (now <= TimeOf(ops[0]) && ClockRuns(TimeOf(ops[0]), ops[1..]))
  }

  function LastTime(now: real, ops: seq<Op>): real
    decreases |ops|
  {
    if ops == [] then now else LastTime(TimeOf(ops[0]), ops[1..])
  }

  lemma {:induction false} RunInSync(k: Retention, s: Store, now: real, ops: seq<Op>)
    requires InSync(k, s, now) && now > 0.0 && k.ttl >= 0.0 && ClockRuns(now, ops)
    requires forall op | op in ops && op.OpAppend? :: StrippedIds(op.e)
    ensures InSync(k, Run(k, s, ops), LastTime(now, ops))
    decreases |ops|
  {
    if ops != [] {
      assert ops[0] in ops;
      match ops[0] {
        case OpAppend(e) => AppendInSync(k, s, e, now);
        case OpList(later) => ListInSync(k, s, now, later);
        case OpReload(later) => ReloadInSync(k, s, now, later);
      }
      RunInSync(k, Apply(k, s, ops[0]), TimeOf(ops[0]), ops[1..]);
    }
  }

  /** A store opened on a readable, time-ordered file starts in sync with it. */
  lemma OpenInSync(k: Retention, lines: seq<Line>, now: real)
    requires Readable(lines) && Sorted(FileEvents(lines)) && UpTo(FileEvents(lines), now)
    ensures InSync(k, Store(Load(k, lines, now), lines), now)
  {
    LoadReadable(k, lines, now);
    var file := FileEvents(lines);
    FileEventsCanonical(lines);
    PruneParts(k, file, now, now);
    PrunedCanonical(k, lines, now);
    PruneTwice(k, file, now, now);
  }

  /** An optional id that was given but blank: kept as "" in memory, read back as missing. */
  predicate BlankId(x: Option<string>) { x == Some("") }

  predicate SurvivesFile(e: Event) {
    !BlankId(e.session) && !BlankId(e.request) && !BlankId(e.task)
  }

  ghost predicate Made(e: Event) {
    && e.category != "" && e.subsystem != "" && e.level != "" && e.message != ""
    && StrippedIds(e)
  }

  /** An optional argument that is given, not empty, and all blanks. */
  predicate GivenBlank(x: Option<string>) {
    x.Some? && x.value != "" && Blank(x.value)
  }

  /** Append only makes events that `ReloadAgrees` speaks of, and they survive the file unless an id is given blank. */
  lemma MadeEventsSurvive(id: string, now: real, category: string, subsystem: string, level: string, message: string,
                          session: Option<string>, request: Option<string>, task: Option<string>,
                          details: map<string, string>)
    ensures var e := MakeEvent(id, now, category, subsystem, level, message, session, request, task, details);
      Made(e) && (Canon(e) == e <==> !GivenBlank(session) && !GivenBlank(request) && !GivenBlank(task))
  {
  }

  /** Each field of an appended event comes from its own argument, with a default for a blank one. */
  lemma AppendedFields(id: string, now: real, category: string, subsystem: string, level: string, message: string,
                       session: Option<string>, request: Option<string>, task: Option<string>,
                       details: map<string, string>)
    ensures var e := MakeEvent(id, now, category, subsystem, level, message, session, request, task, details);
      && e.id == id && e.ts == now && e.details == details
      && LabelFrom(category, "runtime", e.category) && LabelFrom(subsystem, "system", e.subsystem)
      && LabelFrom(level, "info", e.level) && MessageFrom(message, e.message)
      && IdFrom(session, e.session) && IdFrom(request, e.request) && IdFrom(task, e.task)
  {
    PlainDefaults();
    LabelIs(category, "runtime");
    LabelIs(subsystem, "system");
    LabelIs(level, "info");
    MessageIs(message);
    IdIs(session);
    IdIs(request);
    IdIs(task);
  }

  predicate MessageFrom(argument: string, found: string) {
    found == if Blank(argument) then "event" else Strip(argument)
  }

  lemma MessageIs(message: string)
    ensures MessageFrom(message, OrElse(Strip(OrElse(message, "event")), "event"))
  {
  }

  lemma IdIs(argument: Option<string>)
    ensures IdFrom(argument, OptionalId(argument))
  {
  }

  predicate LabelFrom(argument: string, fallback: string, found: string) {
    found == if Blank(argument) then fallback else Lower(Strip(argument))
  }

  /** Stripping and lower-casing leave it as it is. */
  predicate Plain(s: string) {
    s != "" && Stripped(s) && forall i | 0 <= i < |s| :: !('A' <= s[i] <= 'Z')
  }

  lemma PlainDefaults()
    ensures Plain("runtime") && Plain("system") && Plain("info")
  {
  }

  predicate IdFrom(argument: Option<string>, id: Option<string>) {
    if argument == None || argument == Some("") then id == None else id == Some(Strip(argument.value))
  }

  lemma LabelIs(value: string, fallback: string)
    requires Plain(fallback)
    ensures LabelFrom(value, fallback, Label(value, fallback))
  {
    LowerFixed(fallback);
  }

  /** The settings have a floor of a minute and of a hundred events, and are otherwise taken as they are. */
  lemma RetentionBounds(ttlSeconds: int, maxEvents: int)
    ensures var k := MakeRetention(ttlSeconds, maxEvents);
      && k.ttl >= 60.0 && k.maxEvents >= 100
      && (ttlSeconds >= 60 ==> k.ttl == ttlSeconds as real) && (ttlSeconds <= 60 ==> k.ttl == 60.0)
      && (maxEvents >= 100 ==> k.maxEvents == maxEvents) && (maxEvents <= 100 ==> k.maxEvents == 100)
  {
  }

  /** A row keeps its stamp; the loading instant stands in for a missing one, so that no event is loaded without. */
  lemma {:induction false} StampsLoaded(lines: seq<Line>, now: real, e: Event)
    requires now != 0.0
    ensures e in DecodeLines(lines, now) <==> exists i: nat :: LoadsAs(lines, i, now, e)
    ensures e in DecodeLines(lines, now) ==> e.ts != 0.0
    decreases |lines|
  {
    if lines != [] {
      var rest := lines[1..];
      StampsLoaded(rest, now, e);
      if i: nat :| LoadsAs(rest, i, now, e) { assert LoadsAs(lines, i + 1, now, e); }
      if LoadsAs(lines, 0, now, e) { assert e == Decode(lines[0].e, now); }
      if i: nat :| LoadsAs(lines, i, now, e) && i > 0 { assert LoadsAs(rest, i - 1, now, e); }
      if lines[0].Row? && e == Decode(lines[0].e, now) { assert LoadsAs(lines, 0, now, e); }
    }
  }

  ghost predicate LoadsAs(lines: seq<Line>, i: nat, now: real, e: Event) {
    i < |lines| && lines[i].Row? && e == Canon(lines[i].e).(ts := e.ts)
    && (e.ts == lines[i].e.ts != 0.0 || (e.ts == now && lines[i].e.ts == 0.0))
  }

  /** A line that cannot be read makes no difference to a load, but one whose fields do not convert empties it. */
  lemma BadLines(k: Retention, a: seq<Line>, bad: Line, b: seq<Line>, now: real)
    ensures bad == EmptyLine || bad == Malformed ==> Load(k, a + [bad] + b, now) == Load(k, a + b, now)
    ensures bad == Raising ==> Load(k, a + [bad] + b, now) == []
  {
    var with, without := a + [bad] + b, a + b;
    if bad == Raising {
      assert with[|a|] == Raising;
    } else if !bad.Row? {
      DecodeConcat(a + [bad], b, now);
      DecodeConcat(a, [bad], now);
      DecodeConcat(a, b, now);
      assert DecodeLines([bad][1..], now) == [] && DecodeLines([bad], now) == [];
      assert DecodeLines(a, now) + [] == DecodeLines(a, now);
      assert (exists i | 0 <= i < |with| :: with[i] == Raising) <==> Raising in with;
      assert (exists i | 0 <= i < |without| :: without[i] == Raising) <==> Raising in without;
      assert Raising in with <==> Raising in a || Raising in b;
    }
  }

  lemma {:induction false} DecodeConcat(a: seq<Line>, b: seq<Line>, now: real)
    ensures DecodeLines(a + b, now) == DecodeLines(a, now) + DecodeLines(b, now)
  {
    if a == [] {
      assert a + b == b;
    } else {
      assert (a + b)[0] == a[0] && (a + b)[1..] == a[1..] + b;
      DecodeConcat(a[1..], b, now);
    }
  }

  /**
   * After any run of appends, lists and reloads with a non-decreasing clock, reloading the file at any later time
   * gives what pruning live memory at that time gives, up to the round trip of each event; so it gives exactly that
   * if and only if no retained event carries a blank session, request or task id.
   */
  lemma ReloadAgrees(k: Retention, lines: seq<Line>, start: real, ops: seq<Op>, later: real)
    requires Readable(lines) && Sorted(FileEvents(lines)) && UpTo(FileEvents(lines), start)
    requires start > 0.0 && k.ttl >= 0.0 && ClockRuns(start, ops) && LastTime(start, ops) <= later
    requires forall op | op in ops && op.OpAppend? :: Made(op.e)
    ensures var s := Run(k, Store(Load(k, lines, start), lines), ops);
      var live := Prune(k, s.events, later);
      && Load(k, s.file, later) == CanonAll(live)
      && (Load(k, s.file, later) == live <==> forall i | 0 <= i < |live| :: SurvivesFile(live[i]))
  {
    var s0 := Store(Load(k, lines, start), lines);
    OpenInSync(k, lines, start);
    RunInSync(k, s0, start, ops);
    var s := Run(k, s0, ops);
    InSyncLater(k, s, LastTime(start, ops), later);
    LoadReadable(k, s.file, later);
    PruneCanon(k, s.events, later);
    LoadedMade(k, lines, start);
    RunMade(k, s0, ops);
    PruneMade(k, s.events, later);
    CanonAllIff(Prune(k, s.events, later));
  }

  lemma PruneMade(k: Retention, events: seq<Event>, now: real)
    requires forall e | e in events :: Made(e)
    ensures forall e | e in Prune(k, events, now) :: Made(e)
  {
    PruneIsSuffix(k, events, now);
  }

  lemma CanonAllIff(events: seq<Event>)
    requires forall e | e in events :: Made(e)
    ensures CanonAll(events) == events <==> forall i | 0 <= i < |events| :: SurvivesFile(events[i])
  {
    forall i | 0 <= i < |events| ensures CanonAll(events)[i] == events[i] <==> SurvivesFile(events[i]) {
      assert events[i] in events;
      CanonIffSurvives(events[i]);
    }
  }

  /** A session id of blanks makes such an event: the live store and its own file disagree after one append. */
  lemma BlankSessionLost(k: Retention, e: Event)
    requires k.ttl >= 0.0 && k.maxEvents >= 1 && e.ts > 0.0 && e.session == OptionalId(Some(" "))
    ensures var s := DoAppend(k, Store([], []), e);
      Prune(k, s.events, e.ts) == [e] && Load(k, s.file, e.ts) != [e]
  {
    assert Strip(" ") == "";
    assert DropExpired([e], e.ts - k.ttl) == [e];
    var s := DoAppend(k, Store([], []), e);
    assert s == Store([e], [Row(e)]);
    assert [Row(e)][1..] == [];
    assert DecodeLines([Row(e)], e.ts) == [Decode(e, e.ts)];
    var loaded := Load(k, s.file, e.ts);
    assert loaded != [] ==> loaded[0].session == None;
  }

  lemma CanonIffSurvives(e: Event)
    requires Made(e)
    ensures Canon(e) == e <==> SurvivesFile(e)
  {
  }

  lemma CanonMade(e: Event)
    ensures Made(Canon(e))
  {
  }

  lemma {:induction false} DecodedMade(lines: seq<Line>, now: real)
    ensures forall e | e in DecodeLines(lines, now) :: Made(e)
  {
    if lines != [] {
      DecodedMade(lines[1..], now);
      if lines[0].Row? { CanonMade(lines[0].e); }
    }
  }

  lemma LoadedMade(k: Retention, lines: seq<Line>, now: real)
    ensures forall e | e in Load(k, lines, now) :: Made(e)
  {
    DecodedMade(lines, now);
    PruneIsSuffix(k, DecodeLines(lines, now), now);
  }

  lemma {:induction false} RunMade(k: Retention, s: Store, ops: seq<Op>)
    requires forall e | e in s.events :: Made(e)
    requires forall op | op in ops && op.OpAppend? :: Made(op.e)
    ensures forall e | e in Run(k, s, ops).events :: Made(e)
    decreases |ops|
  {
    if ops != [] {
      assert ops[0] in ops;
      match ops[0] {
        case OpAppend(e) => PruneIsSuffix(k, s.events + [e], e.ts);
        case OpList(now) => PruneIsSuffix(k, s.events, now);
        case OpReload(now) => LoadedMade(k, s.file, now);
      }
      RunMade(k, Apply(k, s, ops[0]), ops[1..]);
    }
  }
}
