/** The heartbeat scheduler (backend/heartbeat_pinger.py): which cron slot fires, over whole runs of ticks. */
module HeartbeatPinger {
  import opened Text

  /** `schedule` names a cron expression; clocks are seconds as reals. */
  datatype Automation = Automation(enabled: bool, schedule: int, lastRun: Option<real>, task: string)

  /** `croniter(expr, now).get_prev()`: the greatest slot strictly before the instant. */
  ghost predicate GreatestBefore(slots: iset<real>, prev: real -> real) {
    forall t :: prev(t) in slots && prev(t) < t && forall s | s in slots && s < t :: s <= prev(t)
  }

  predicate Due(a: Automation, prevRun: real, interval: real, now: real) {
    && a.enabled
    && now - prevRun <= interval * 1.2
    && !(a.lastRun.Some? && a.lastRun.value >= prevRun)
  }

  function Fire(a: Automation, prevRun: real, interval: real, now: real): Automation {
    if Due(a, prevRun, interval, now) then a.(lastRun := Some(now)) else a
  }

  // ----- Runs of one automation -----

  /** One tick of the loop, with the automation's switch as the user has set it by then. */
  datatype Tick = Tick(now: real, enabled: bool)

  datatype Dispatch = Dispatch(slot: real, at: real)

  datatype Log = Log(lastRun: Option<real>, dispatched: seq<Dispatch>)

  function Step(prev: real -> real, interval: real, log: Log, tick: Tick): Log {
    var a := Automation(tick.enabled, 0, log.lastRun, "");
    if Due(a, prev(tick.now), interval, tick.now)
    then Log(Some(tick.now), log.dispatched + [Dispatch(prev(tick.now), tick.now)])
    else log
  }

  /** The log after the ticks, latest last; `start` is the `last_run` stamp saved before them. */
  function Run(prev: real -> real, interval: real, start: Option<real>, ticks: seq<Tick>): Log {
    if ticks == [] then Log(start, [])
    else Step(prev, interval, Run(prev, interval, start, ticks[..|ticks| - 1]), ticks[|ticks| - 1])
  }

  /** The stamp saved before the run does not cover the slot. */
  predicate Unserved(start: Option<real>, slot: real) {
    start.None? || start.value < slot
  }

  /** Dispatches answer slots after `start` in strictly increasing order, and the last one set `last_run`. */
  ghost predicate InOrder(prev: real -> real, start: Option<real>, log: Log) {
    && (forall d | d in log.dispatched :: Unserved(start, d.slot))
    && (forall d | d in log.dispatched :: d.slot == prev(d.at))
    && (forall i, j | 0 <= i < j < |log.dispatched| :: log.dispatched[i].slot < log.dispatched[j].slot)
    && log.lastRun == if log.dispatched == [] then start else Some(log.dispatched[|log.dispatched| - 1].at)
  }

  lemma {:induction false} RunInOrder(slots: iset<real>, prev: real -> real, interval: real, start: Option<real>,
                                      ticks: seq<Tick>)
    requires GreatestBefore(slots, prev)
    ensures InOrder(prev, start, Run(prev, interval, start, ticks))
  {
    if ticks != [] {
      var n := |ticks| - 1;
      RunInOrder(slots, prev, interval, start, ticks[..n]);
      StepInOrder(slots, prev, interval, start, Run(prev, interval, start, ticks[..n]), ticks[n]);
    }
  }

  lemma StepInOrder(slots: iset<real>, prev: real -> real, interval: real, start: Option<real>, log: Log, tick: Tick)
    requires GreatestBefore(slots, prev) && InOrder(prev, start, log)
    ensures InOrder(prev, start, Step(prev, interval, log, tick))
  {
    if Step(prev, interval, log, tick) != log {
      var slot := prev(tick.now);
      forall i | 0 <= i < |log.dispatched| ensures log.dispatched[i].slot < slot {
        var last := log.dispatched[|log.dispatched| - 1];
        assert last in log.dispatched && prev(last.at) < last.at;
      }
      AppendInOrder(prev, start, log, Dispatch(slot, tick.now));
    }
  }

  lemma AppendInOrder(prev: real -> real, start: Option<real>, log: Log, d: Dispatch)
    requires InOrder(prev, start, log) && d.slot == prev(d.at) && Unserved(start, d.slot)
    requires forall i | 0 <= i < |log.dispatched| :: log.dispatched[i].slot < d.slot
    ensures InOrder(prev, start, Log(Some(d.at), log.dispatched + [d]))
  {
  }

  /** No slot is dispatched twice, even if the clock jumps. */
  lemma SlotAtMostOnce(slots: iset<real>, prev: real -> real, interval: real, start: Option<real>, ticks: seq<Tick>,
                       i: nat, j: nat)
    requires GreatestBefore(slots, prev)
    requires i < j < |Run(prev, interval, start, ticks).dispatched|
    ensures Run(prev, interval, start, ticks).dispatched[i].slot != Run(prev, interval, start, ticks).dispatched[j].slot
  {
    RunInOrder(slots, prev, interval, start, ticks);
  }

  ghost predicate ClockRuns(ticks: seq<Tick>) {
    forall i, j | 0 <= i < j < |ticks| :: ticks[i].now <= ticks[j].now
  }

  /** A tick that finds the slot as the latest one, in time, with the automation switched on. */
  predicate Catches(prev: real -> real, interval: real, slot: real, tick: Tick) {
    tick.enabled && prev(tick.now) == slot && tick.now - slot <= interval * 1.2
  }

  ghost predicate Dispatched(log: Log, slot: real) {
    exists d | d in log.dispatched :: d.slot == slot
  }

  ghost predicate FiredAt(log: Log, instant: real) {
    exists d | d in log.dispatched :: d.at == instant
  }

  /** Dispatches happen at ticks that catch their slot. */
  lemma {:induction false} DispatchesAreTicks(prev: real -> real, interval: real, start: Option<real>,
                                              ticks: seq<Tick>, d: Dispatch)
    requires d in Run(prev, interval, start, ticks).dispatched
    ensures exists i | 0 <= i < |ticks| :: ticks[i].now == d.at && Catches(prev, interval, d.slot, ticks[i])
  {
    var n := |ticks| - 1;
    if d in Run(prev, interval, start, ticks[..n]).dispatched {
      DispatchesAreTicks(prev, interval, start, ticks[..n], d);
      var i :| 0 <= i < n && ticks[..n][i].now == d.at && Catches(prev, interval, d.slot, ticks[..n][i]);
      assert ticks[i] == ticks[..n][i];
    } else {
      assert ticks[n].now == d.at && Catches(prev, interval, d.slot, ticks[n]);
    }
  }

  lemma LaterSlots(slots: iset<real>, prev: real -> real, a: real, b: real)
    requires GreatestBefore(slots, prev) && a <= b
    ensures prev(a) <= prev(b)
  {
    assert prev(a) in slots && prev(a) < b;
  }

  predicate Caught(prev: real -> real, interval: real, ticks: seq<Tick>, slot: real) {
    exists i | 0 <= i < |ticks| :: Catches(prev, interval, slot, ticks[i])
  }

  /**
   * Some tick at the very instant t fires, so `last_run` becomes t. In terms of the ticks alone: it catches the slot
   * before t, is the first tick to do so, and that slot was itself neither covered by the saved stamp nor stamped.
   */
  predicate Stamps(prev: real -> real, interval: real, start: Option<real>, ticks: seq<Tick>, t: real)
    decreases |ticks|
  {
    ticks != [] &&
    var before, last := ticks[..|ticks| - 1], ticks[|ticks| - 1];
    Stamps(prev, interval, start, before, t)
    || (last.now == t && Catches(prev, interval, prev(t), last) && Unserved(start, prev(t))
        && !Caught(prev, interval, before, prev(t)) && !Stamps(prev, interval, start, before, prev(t)))
  }

  /**
   * Exactly which slots are dispatched, read off the saved stamp and the ticks: those the stamp does not cover, some
   * tick catches and no tick stamps. A tick landing exactly on a slot serves the slot before it and, if it fires,
   * stamps `last_run` with the slot instant, so the slot looks served.
   */
  lemma SlotDispatchedIff(slots: iset<real>, prev: real -> real, interval: real, start: Option<real>, ticks: seq<Tick>,
                          slot: real)
    requires GreatestBefore(slots, prev) && ClockRuns(ticks) && slot in slots
    ensures Dispatched(Run(prev, interval, start, ticks), slot)
       <==> Unserved(start, slot) && Caught(prev, interval, ticks, slot)
            && !Stamps(prev, interval, start, ticks, slot)
  {
    DispatchedUnlessFired(slots, prev, interval, start, ticks, slot);
    FiredIff(slots, prev, interval, start, ticks, slot);
  }

  lemma ClockPrefix(ticks: seq<Tick>, n: nat)
    requires ClockRuns(ticks) && n <= |ticks|
    ensures ClockRuns(ticks[..n])
  {
    forall i, j | 0 <= i < j < n ensures ticks[..n][i].now <= ticks[..n][j].now {}
  }

  /** A dispatch happens at an instant exactly when the ticks stamp it. */
  lemma {:induction false} FiredIff(slots: iset<real>, prev: real -> real, interval: real, start: Option<real>,
                                    ticks: seq<Tick>, t: real)
    requires GreatestBefore(slots, prev) && ClockRuns(ticks)
    ensures FiredAt(Run(prev, interval, start, ticks), t) <==> Stamps(prev, interval, start, ticks, t)
    decreases |ticks|
  {
    if ticks != [] {
      var n := |ticks| - 1;
      var before, slot := Run(prev, interval, start, ticks[..n]), prev(ticks[n].now);
      ClockPrefix(ticks, n);
      FiredIff(slots, prev, interval, start, ticks[..n], t);
      FiredIff(slots, prev, interval, start, ticks[..n], slot);
      LogSnoc(prev, interval, before, ticks[n], t);
      LastFiresIff(slots, prev, interval, start, ticks);
    }
  }

  lemma {:induction false} NoTickNoStamp(prev: real -> real, interval: real, start: Option<real>, ticks: seq<Tick>,
                                         t: real)
    requires forall j | 0 <= j < |ticks| :: ticks[j].now != t
    ensures !Stamps(prev, interval, start, ticks, t)
    decreases |ticks|
  {
    if ticks != [] {
      var before := ticks[..|ticks| - 1];
      assert forall j | 0 <= j < |before| :: before[j] == ticks[j];
      NoTickNoStamp(prev, interval, start, before, t);
    }
  }

  /** The last tick fires exactly when it is the first to catch its slot and nothing covered the slot before. */
  lemma LastFiresIff(slots: iset<real>, prev: real -> real, interval: real, start: Option<real>, ticks: seq<Tick>)
    requires GreatestBefore(slots, prev) && ClockRuns(ticks) && ticks != []
    ensures var n := |ticks| - 1;
            var before, slot := Run(prev, interval, start, ticks[..n]), prev(ticks[n].now);
      Run(prev, interval, start, ticks) != before
      <==> Catches(prev, interval, slot, ticks[n]) && Unserved(start, slot)
           && !Caught(prev, interval, ticks[..n], slot) && !FiredAt(before, slot)
  {
    var n := |ticks| - 1;
    var slot := prev(ticks[n].now);
    var before := Run(prev, interval, start, ticks[..n]);
    ClockPrefix(ticks, n);
    DispatchedUnlessFired(slots, prev, interval, start, ticks[..n], slot);
    LastTick(slots, prev, interval, start, ticks, slot);
    if Run(prev, interval, start, ticks) != before {
      RunInOrder(slots, prev, interval, start, ticks);
      NewSlot(prev, interval, start, before, ticks[n]);
    }
  }

  /** A dispatch answers a slot that was not dispatched before. */
  lemma NewSlot(prev: real -> real, interval: real, start: Option<real>, log: Log, tick: Tick)
    requires Step(prev, interval, log, tick) != log && InOrder(prev, start, Step(prev, interval, log, tick))
    ensures !Dispatched(log, prev(tick.now))
  {
    var after := Step(prev, interval, log, tick).dispatched;
    forall d | d in log.dispatched ensures d.slot != prev(tick.now) {
      var i :| 0 <= i < |log.dispatched| && log.dispatched[i] == d;
      assert after[i] == d && after[|log.dispatched|].slot == prev(tick.now);
    }
  }

  lemma {:induction false} DispatchedUnlessFired(slots: iset<real>, prev: real -> real, interval: real,
                                                 start: Option<real>, ticks: seq<Tick>, slot: real)
    requires GreatestBefore(slots, prev) && ClockRuns(ticks) && slot in slots
    ensures Dispatched(Run(prev, interval, start, ticks), slot)
       <==> Unserved(start, slot) && Caught(prev, interval, ticks, slot)
            && !FiredAt(Run(prev, interval, start, ticks), slot)
    decreases |ticks|
  {
    if ticks != [] {
      var n := |ticks| - 1;
      ClockPrefix(ticks, n);
      DispatchedUnlessFired(slots, prev, interval, start, ticks[..n], slot);
      CaughtSnoc(prev, interval, ticks, slot);
      LastTick(slots, prev, interval, start, ticks, slot);
      LogSnoc(prev, interval, Run(prev, interval, start, ticks[..n]), ticks[n], slot);
    }
  }

  lemma CaughtSnoc(prev: real -> real, interval: real, ticks: seq<Tick>, slot: real)
    requires ticks != []
    ensures Caught(prev, interval, ticks, slot)
       <==> Caught(prev, interval, ticks[..|ticks| - 1], slot) || Catches(prev, interval, slot, ticks[|ticks| - 1])
  {
    var n := |ticks| - 1;
    if Caught(prev, interval, ticks[..n], slot) {
      var i :| 0 <= i < n && Catches(prev, interval, slot, ticks[..n][i]);
      assert ticks[i] == ticks[..n][i];
    }
    if Caught(prev, interval, ticks, slot) && !Catches(prev, interval, slot, ticks[n]) {
      var i :| 0 <= i < |ticks| && Catches(prev, interval, slot, ticks[i]);
      assert ticks[..n][i] == ticks[i];
    }
  }

  lemma LogSnoc(prev: real -> real, interval: real, log: Log, tick: Tick, slot: real)
    ensures var after := Step(prev, interval, log, tick);
      && (Dispatched(after, slot) <==> Dispatched(log, slot) || (after != log && prev(tick.now) == slot))
      && (FiredAt(after, slot) <==> FiredAt(log, slot) || (after != log && tick.now == slot))
  {
    var after := Step(prev, interval, log, tick);
    if after.dispatched != log.dispatched {
      var d := Dispatch(prev(tick.now), tick.now);
      assert after.dispatched == log.dispatched + [d];
      assert forall x | x in log.dispatched :: x in after.dispatched;
      assert d in after.dispatched;
    }
  }

  /** What the last tick can still change for a slot. */
  lemma LastTick(slots: iset<real>, prev: real -> real, interval: real, start: Option<real>, ticks: seq<Tick>,
                 slot: real)
    requires GreatestBefore(slots, prev) && ClockRuns(ticks) && slot in slots && ticks != []
    ensures var n := |ticks| - 1;
      var before, after, tick := Run(prev, interval, start, ticks[..n]), Run(prev, interval, start, ticks), ticks[n];
      && (after != before && prev(tick.now) == slot ==>
            Catches(prev, interval, slot, tick) && !FiredAt(before, slot) && tick.now != slot && Unserved(start, slot))
      && (Catches(prev, interval, slot, tick) && after == before ==>
            Dispatched(before, slot) || FiredAt(before, slot) || !Unserved(start, slot))
      && (after != before && tick.now == slot ==> !Dispatched(before, slot))
  {
    var n := |ticks| - 1;
    var before, after, tick := Run(prev, interval, start, ticks[..n]), Run(prev, interval, start, ticks), ticks[n];
    RunInOrder(slots, prev, interval, start, ticks[..n]);
    assert prev(tick.now) < tick.now;
    forall d | d in before.dispatched ensures d.at <= tick.now && d.slot < d.at {
      DispatchesAreTicks(prev, interval, start, ticks[..n], d);
      assert prev(d.at) < d.at;
    }
    if before.dispatched != [] {
      var last := before.dispatched[|before.dispatched| - 1];
      assert last in before.dispatched;
      LaterSlots(slots, prev, last.at, tick.now);
      LastIsLatest(slots, prev, start, before);
    }
  }

  /** In a log of a running clock no dispatch is later than the last one. */
  lemma LastIsLatest(slots: iset<real>, prev: real -> real, start: Option<real>, log: Log)
    requires GreatestBefore(slots, prev) && InOrder(prev, start, log) && log.dispatched != []
    ensures forall d | d in log.dispatched :: d.at <= log.dispatched[|log.dispatched| - 1].at
  {
    var last := log.dispatched[|log.dispatched| - 1];
    forall d | d in log.dispatched ensures d.at <= last.at {
      var i :| 0 <= i < |log.dispatched| && log.dispatched[i] == d;
      assert last in log.dispatched;
      if d.at > last.at {
        LaterSlots(slots, prev, last.at, d.at);
      }
    }
  }

  /**
   * The promise for a loop that keeps up: if the first tick after a slot comes within the grace period, with the
   * automation on and no other slot in between, and no tick lands exactly on the slot, it is dispatched once.
   */
  lemma SlotExactlyOnce(slots: iset<real>, prev: real -> real, interval: real, start: Option<real>, ticks: seq<Tick>,
                        slot: real, i: nat)
    requires GreatestBefore(slots, prev) && ClockRuns(ticks) && slot in slots
    requires i < |ticks| && slot < ticks[i].now && ticks[i].enabled && ticks[i].now - slot <= interval * 1.2
    requires forall s | s in slots && s < ticks[i].now :: s <= slot
    requires Unserved(start, slot) && forall j | 0 <= j < |ticks| :: ticks[j].now != slot
    ensures var log := Run(prev, interval, start, ticks).dispatched;
      exists k | 0 <= k < |log| :: log[k].slot == slot && forall m | 0 <= m < |log| && m != k :: log[m].slot != slot
  {
    assert prev(ticks[i].now) == slot;
    assert Catches(prev, interval, slot, ticks[i]);
    var log := Run(prev, interval, start, ticks);
    NoTickNoStamp(prev, interval, start, ticks, slot);
    SlotDispatchedIff(slots, prev, interval, start, ticks, slot);
    RunInOrder(slots, prev, interval, start, ticks);
    var d :| d in log.dispatched && d.slot == slot;
    var k :| 0 <= k < |log.dispatched| && log.dispatched[k] == d;
    forall m | 0 <= m < |log.dispatched| && m != k ensures log.dispatched[m].slot != slot {
      if m < k { assert log.dispatched[m].slot < log.dispatched[k].slot; }
    }
  }

  // ----- Ticks that land on slots -----

  function Minute(m: int): real { (60 * m) as real }

  /** The whole minute strictly before an instant. */
  function MinuteBefore(t: real): real {
    var m := (t / 60.0).Floor;
    Minute(if Minute(m) == t then m - 1 else m)
  }

  lemma MinuteBounds(t: real)
    ensures exists m :: MinuteBefore(t) == Minute(m) < t <= Minute(m + 1)
  {
    var x := t / 60.0;
    var m := x.Floor;
    assert m as real <= x < m as real + 1.0 && t == 60.0 * x;
    assert MinuteBefore(t) == Minute(m) || MinuteBefore(t) == Minute(m - 1);
    assert Minute(m) <= t < Minute(m + 1) && Minute(m - 1) < Minute(m - 1 + 1);
  }

  lemma MinuteOrder(a: int, b: int)
    requires Minute(a) < Minute(b + 1)
    ensures Minute(a) <= Minute(b)
  {
    assert 60 * a < 60 * (b + 1);
    assert 60 * a <= 60 * b;
  }

  ghost function MinuteMarks(): iset<real> {
    iset m: int :: Minute(m)
  }

  lemma MinuteSlots()
    ensures GreatestBefore(MinuteMarks(), MinuteBefore)
  {
    var slots := MinuteMarks();
    forall t ensures MinuteBefore(t) in slots && MinuteBefore(t) < t
      && forall s | s in slots && s < t :: s <= MinuteBefore(t) {
      MinuteBounds(t);
      var m :| MinuteBefore(t) == Minute(m) < t <= Minute(m + 1);
      forall s | s in slots && s < t ensures s <= MinuteBefore(t) {
        var a :| s == Minute(a);
        MinuteOrder(a, m);
      }
    }
  }

  lemma PreviousMinute(n: int)
    ensures MinuteBefore(Minute(n)) == Minute(n - 1)
  {
    MinuteBounds(Minute(n));
    var m :| MinuteBefore(Minute(n)) == Minute(m) < Minute(n) <= Minute(m + 1);
    assert 60 * m < 60 * n <= 60 * (m + 1);
    assert m == n - 1;
  }

  /** A tick on each of the minutes 1 to n. */
  function MinuteTicks(n: nat): seq<Tick> {
    if n == 0 then [] else MinuteTicks(n - 1) + [Tick(Minute(n), true)]
  }

  function EveryOther(n: nat): seq<Dispatch> {
    if n == 0 then []
    else EveryOther(n - 1) + if n % 2 == 1 then [Dispatch(Minute(n - 1), Minute(n))] else []
  }

  /** What the loop has recorded after those ticks: the odd ones serve the minute before them and stamp their own. */
  function MinuteLog(n: nat): Log {
    Log(if n == 0 then None else Some(Minute(if n % 2 == 1 then n else n - 1)), EveryOther(n))
  }

  lemma {:induction false} AlignedRun(n: nat)
    ensures Run(MinuteBefore, 60.0, None, MinuteTicks(n)) == MinuteLog(n)
  {
    if n > 0 {
      AlignedRun(n - 1);
      RunSnoc(MinuteBefore, 60.0, None, MinuteTicks(n - 1), Tick(Minute(n), true));
      AlignedStep(n);
    }
  }

  lemma RunSnoc(prev: real -> real, interval: real, start: Option<real>, ticks: seq<Tick>, tick: Tick)
    ensures Run(prev, interval, start, ticks + [tick]) == Step(prev, interval, Run(prev, interval, start, ticks), tick)
  {
    assert (ticks + [tick])[..|ticks|] == ticks;
  }

  lemma MinuteSteps(n: int)
    ensures Minute(n) - Minute(n - 1) == 60.0 && Minute(n - 2) < Minute(n - 1)
  {
  }

  lemma AlignedStep(n: nat)
    requires n > 0
    ensures Step(MinuteBefore, 60.0, MinuteLog(n - 1), Tick(Minute(n), true)) == MinuteLog(n)
  {
    PreviousMinute(n);
    MinuteSteps(n);
  }

  lemma {:induction false} EveryOtherSlots(n: nat, m: int)
    requires 0 <= m < n
    ensures (exists d | d in EveryOther(n) :: d.slot == Minute(m)) <==> m % 2 == 0
  {
    var rest := EveryOther(n - 1);
    var last := if n % 2 == 1 then [Dispatch(Minute(n - 1), Minute(n))] else [];
    assert EveryOther(n) == rest + last;
    if m == n - 1 {
      EveryOtherBelow(n - 1, m);
      if n % 2 == 1 { assert last[0] in EveryOther(n); }
    } else {
      EveryOtherSlots(n - 1, m);
      if m % 2 == 0 {
        var d :| d in rest && d.slot == Minute(m);
        assert d in EveryOther(n);
      }
    }
  }

  lemma {:induction false} EveryOtherBelow(n: nat, m: int)
    requires m >= n
    ensures forall d | d in EveryOther(n) :: d.slot != Minute(m)
  {
    if n > 0 { EveryOtherBelow(n - 1, m); }
  }

  lemma {:induction false} MinutesCaught(n: nat, m: int)
    requires 0 <= m < n
    ensures Caught(MinuteBefore, 60.0, MinuteTicks(n), Minute(m))
  {
    var ticks := MinuteTicks(n);
    if m == n - 1 {
      PreviousMinute(n);
      assert ticks[|ticks| - 1] == Tick(Minute(n), true);
      assert Catches(MinuteBefore, 60.0, Minute(m), ticks[|ticks| - 1]);
    } else {
      MinutesCaught(n - 1, m);
      var i :| 0 <= i < |MinuteTicks(n - 1)| && Catches(MinuteBefore, 60.0, Minute(m), MinuteTicks(n - 1)[i]);
      assert ticks[i] == MinuteTicks(n - 1)[i];
    }
  }

  /**
   * With a slot on every minute, a tick on every minute and a 60-second interval, every slot is caught by a tick, and
   * exactly every other slot is dispatched.
   */
  lemma AlignedTicksMissSlot(n: nat, m: int)
    requires 0 <= m < n
    ensures GreatestBefore(MinuteMarks(), MinuteBefore) && Minute(m) in MinuteMarks()
    ensures Caught(MinuteBefore, 60.0, MinuteTicks(n), Minute(m))
    ensures Dispatched(Run(MinuteBefore, 60.0, None, MinuteTicks(n)), Minute(m)) <==> m % 2 == 0
  {
    MinuteSlots();
    MinutesCaught(n, m);
    AlignedRun(n);
    EveryOtherSlots(n, m);
  }

  // ----- The tick over all sessions -----

  class Pinger {
    const interval: real
    const prevRun: (int, real) -> real  // per schedule, the greatest slot strictly before an instant
    var saved: map<string, seq<Automation>>  // the automations file of each session

    constructor (interval: real, prevRun: (int, real) -> real, saved: map<string, seq<Automation>>)
      ensures this.interval == interval && this.prevRun == prevRun && this.saved == saved
    {
      this.interval, this.prevRun, this.saved := interval, prevRun, saved;
    }

    /** One session: the loaded list is updated in place, firing what is due, in order. */
    method TickSession(autos: array<Automation>, now: real) returns (tasks: seq<string>, updated: bool)
      modifies autos
      ensures autos[..] == FireAll(old(autos[..]), prevRun, interval, now)
      ensures tasks == DueTasks(old(autos[..]), prevRun, interval, now)
      ensures updated <==> tasks != []
    {
      tasks, updated := [], false;
      ghost var loaded := autos[..];
      for i := 0 to autos.Length
        invariant autos[..] == FireAll(loaded[..i], prevRun, interval, now) + loaded[i..]
        invariant tasks == DueTasks(loaded[..i], prevRun, interval, now)
        invariant updated <==> tasks != []
      {
        DuePrefix(loaded, i, prevRun, interval, now);
        var fired := FireOne(autos, i, now);
        if fired {
          updated := true;
          tasks := tasks + [autos[i].task];
        }
      }
      assert loaded[..autos.Length] == loaded;
    }

    /** The body of the loop for one automation; the answer says whether it is dispatched. */
    method FireOne(autos: array<Automation>, i: nat, now: real) returns (fired: bool)
      requires i < autos.Length
      modifies autos
      ensures autos[..] == old(autos[..])[i := Fire(old(autos[i]), prevRun(old(autos[i]).schedule, now), interval, now)]
      ensures fired <==> Due(old(autos[i]), prevRun(old(autos[i]).schedule, now), interval, now)
    {
      var auto := autos[i];
      if !auto.enabled {
        return false;
      }
      var slot := prevRun(auto.schedule, now);
      var alreadyRan := auto.lastRun.Some? && auto.lastRun.value >= slot;
      fired := now - slot <= interval * 1.2 && !alreadyRan;
      if fired {
        autos[i] := auto.(lastRun := Some(now));
      }
    }

    /** Loads, ticks and, when something fired, saves one session. */
    method TickSaved(session: string, now: real) returns (tasks: seq<string>)
      requires session in saved
      modifies this`saved
      ensures saved == old(saved)[session := FireAll(old(saved)[session], prevRun, interval, now)]
      ensures tasks == DueTasks(old(saved)[session], prevRun, interval, now)
    {
      var loaded := saved[session];
      var autos := new Automation[|loaded|](i requires 0 <= i < |loaded| => loaded[i]);
      assert autos[..] == loaded;
      var updated;
      tasks, updated := TickSession(autos, now);
      if updated {
        saved := saved[session := autos[..]];
      } else {
        NothingDue(loaded, prevRun, interval, now);
      }
    }
  }

  function DueTasks(autos: seq<Automation>, prevRun: (int, real) -> real, interval: real, now: real): seq<string> {
    if autos == [] then []
    else (if Due(autos[0], prevRun(autos[0].schedule, now), interval, now) then [autos[0].task] else [])
         + DueTasks(autos[1..], prevRun, interval, now)
  }

  function FireAll(autos: seq<Automation>, prevRun: (int, real) -> real, interval: real,
                   now: real): (r: seq<Automation>)
    ensures |r| == |autos|
    ensures forall i | 0 <= i < |autos| :: r[i] == Fire(autos[i], prevRun(autos[i].schedule, now), interval, now)
  {
    if autos == [] then []
    else [Fire(autos[0], prevRun(autos[0].schedule, now), interval, now)] + FireAll(autos[1..], prevRun, interval, now)
  }

  lemma {:induction false} DueSnoc(autos: seq<Automation>, a: Automation, prevRun: (int, real) -> real,
                                   interval: real, now: real)
    ensures DueTasks(autos + [a], prevRun, interval, now)
         == DueTasks(autos, prevRun, interval, now)
            + if Due(a, prevRun(a.schedule, now), interval, now) then [a.task] else []
  {
    if autos == [] {
      assert autos + [a] == [a];
      assert DueTasks([a][1..], prevRun, interval, now) == [];
    } else {
      assert (autos + [a])[0] == autos[0] && (autos + [a])[1..] == autos[1..] + [a];
      DueSnoc(autos[1..], a, prevRun, interval, now);
    }
  }

  /** What one more automation adds to the tasks and to the stamped list. */
  lemma DuePrefix(autos: seq<Automation>, i: nat, prevRun: (int, real) -> real, interval: real, now: real)
    requires i < |autos|
    ensures DueTasks(autos[..i + 1], prevRun, interval, now)
         == DueTasks(autos[..i], prevRun, interval, now)
            + if Due(autos[i], prevRun(autos[i].schedule, now), interval, now) then [autos[i].task] else []
    ensures FireAll(autos[..i + 1], prevRun, interval, now) + autos[i + 1..]
         == (FireAll(autos[..i], prevRun, interval, now)
             + autos[i..])[i := Fire(autos[i], prevRun(autos[i].schedule, now), interval, now)]
  {
    assert autos[..i + 1] == autos[..i] + [autos[i]];
    DueSnoc(autos[..i], autos[i], prevRun, interval, now);
  }

  /** For each automation a tick of the class is a step of the run model, whatever was dispatched before. */
  lemma FireIsStep(a: Automation, prevRun: (int, real) -> real, interval: real, now: real, before: seq<Dispatch>)
    ensures var prev := (t: real) => prevRun(a.schedule, t);
            var after := Step(prev, interval, Log(a.lastRun, before), Tick(now, a.enabled));
      && Fire(a, prev(now), interval, now) == a.(lastRun := after.lastRun)
      && DueTasks([a], prevRun, interval, now) == (if after.dispatched == before then [] else [a.task])
  {
    var prev := (t: real) => prevRun(a.schedule, t);
    var after := Step(prev, interval, Log(a.lastRun, before), Tick(now, a.enabled));
    assert [a][1..] == [] && DueTasks([], prevRun, interval, now) == [];
    assert |after.dispatched| == |before| || after.dispatched == before + [Dispatch(prev(now), now)];
  }

  lemma {:induction false} NothingDue(autos: seq<Automation>, prevRun: (int, real) -> real, interval: real, now: real)
    requires DueTasks(autos, prevRun, interval, now) == []
    ensures FireAll(autos, prevRun, interval, now) == autos
  {
    if autos != [] { NothingDue(autos[1..], prevRun, interval, now); }
  }
}
