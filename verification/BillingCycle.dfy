/** Gregorian months and the billing cycle of an instant (backend/admin/billing.py, backend/credit_service.py). */
module BillingCycle {

  predicate Leap(y: int) { y % 4 == 0 && (y % 100 != 0 || y % 400 == 0) }

  function DaysInMonth(y: int, m: int): nat {
    if m == 2 then (if Leap(y) then 29 else 28)
    else if m == 4 || m == 6 || m == 9 || m == 11 then 30
    else 31
  }

  datatype Date = Date(y: int, m: int, d: int) {
    predicate Valid() { y >= 1 && 1 <= m <= 12 && 1 <= d <= DaysInMonth(y, m) }
  }

  /** Leap years up to and including year y. */
  function LeapsThrough(y: int): int {
    y / 4 - y / 100 + y / 400
  }

  function DaysBeforeYear(y: int): int
    requires y >= 1
  {
    365 * (y - 1) + LeapsThrough(y - 1)
  }

  function DaysBeforeMonth(y: int, m: int): nat
    requires 1 <= m <= 13
  {
    if m == 1 then 0 else DaysBeforeMonth(y, m - 1) + DaysInMonth(y, m - 1)
  }

  /** `date.toordinal()`: day 1 is 0001-01-01. */
  function Ordinal(date: Date): int
    requires date.Valid()
  {
    DaysBeforeYear(date.y) + DaysBeforeMonth(date.y, date.m) + date.d
  }

  function NextMonth(first: Date): Date {
    if first.m == 12 then Date(first.y + 1, 1, 1) else Date(first.y, first.m + 1, 1)
  }

  function NextDay(date: Date): Date {
    if date.d < DaysInMonth(date.y, date.m) then date.(d := date.d + 1) else NextMonth(date)
  }

  lemma YearDays(y: int)
    requires y >= 1
    ensures DaysBeforeMonth(y, 13) == if Leap(y) then 366 else 365
  {
    assert DaysBeforeMonth(y, 3) == DaysBeforeMonth(y, 2) + DaysInMonth(y, 2) && DaysBeforeMonth(y, 2) == 31;
    assert DaysBeforeMonth(y, 5) == DaysBeforeMonth(y, 4) + 30 && DaysBeforeMonth(y, 4) == DaysBeforeMonth(y, 3) + 31;
    assert DaysBeforeMonth(y, 7) == DaysBeforeMonth(y, 6) + 30 && DaysBeforeMonth(y, 6) == DaysBeforeMonth(y, 5) + 31;
    assert DaysBeforeMonth(y, 9) == DaysBeforeMonth(y, 8) + 31 && DaysBeforeMonth(y, 8) == DaysBeforeMonth(y, 7) + 31;
    assert DaysBeforeMonth(y, 11) == DaysBeforeMonth(y, 10) + 31
         && DaysBeforeMonth(y, 10) == DaysBeforeMonth(y, 9) + 30;
    assert DaysBeforeMonth(y, 13) == DaysBeforeMonth(y, 12) + 31
         && DaysBeforeMonth(y, 12) == DaysBeforeMonth(y, 11) + 30;
  }

  lemma Multiples(y: int)
    ensures (y % 400 == 0 ==> y % 100 == 0) && (y % 100 == 0 ==> y % 4 == 0)
  {
  }

  lemma LeapYears(y: int)
    requires y >= 1
    ensures LeapsThrough(y) == LeapsThrough(y - 1) + if Leap(y) then 1 else 0
  {
    QuotientSteps(y);
    Multiples(y);
  }

  lemma QuotientSteps(y: int)
    requires y >= 1
    ensures y / 4 - (y - 1) / 4 == if y % 4 == 0 then 1 else 0
    ensures y / 100 - (y - 1) / 100 == if y % 100 == 0 then 1 else 0
    ensures y / 400 - (y - 1) / 400 == if y % 400 == 0 then 1 else 0
  {
  }

  lemma YearLength(y: int)
    requires y >= 1
    ensures DaysBeforeYear(y + 1) == DaysBeforeYear(y) + DaysBeforeMonth(y, 13)
  {
    YearDays(y);
    LeapYears(y);
  }

  lemma NextDayOrdinal(date: Date)
    requires date.Valid()
    ensures NextDay(date).Valid() && Ordinal(NextDay(date)) == Ordinal(date) + 1
  {
    YearLength(date.y);
  }

  /** `date.fromordinal(n)`, by counting days from 0001-01-01. */
  function FromOrdinal(n: int): (date: Date)
    requires n >= 1
    ensures date.Valid() && Ordinal(date) == n
    decreases n
  {
    if n == 1 then Date(1, 1, 1)
    else
      NextDayOrdinal(FromOrdinal(n - 1));
      NextDay(FromOrdinal(n - 1))
  }

  lemma {:induction false} MonthGrows(y: int, m: int, m': int)
    requires 1 <= m < m' <= 13
    ensures DaysBeforeMonth(y, m) + DaysInMonth(y, m) <= DaysBeforeMonth(y, m')
    decreases m'
  {
    if m < m' - 1 { MonthGrows(y, m, m' - 1); }
  }

  lemma {:induction false} YearGrows(y: int, y': int)
    requires 1 <= y < y'
    ensures DaysBeforeYear(y) + DaysBeforeMonth(y, 13) <= DaysBeforeYear(y')
    decreases y'
  {
    YearLength(y' - 1);
    if y < y' - 1 { YearGrows(y, y' - 1); }
  }

  predicate Earlier(a: Date, b: Date) {
    a.y < b.y || (a.y == b.y && (a.m < b.m || (a.m == b.m && a.d < b.d)))
  }

  lemma OrdinalIncreases(a: Date, b: Date)
    requires a.Valid() && b.Valid() && Earlier(a, b)
    ensures Ordinal(a) < Ordinal(b)
  {
    if a.y < b.y {
      YearGrows(a.y, b.y);
      MonthGrows(a.y, a.m, 13);
    } else if a.m < b.m {
      MonthGrows(a.y, a.m, b.m);
    }
  }

  /** Ordinals name dates uniquely, so the date a computation must reach is the only one with its ordinal. */
  lemma OrdinalInjective(a: Date, b: Date)
    requires a.Valid() && b.Valid() && Ordinal(a) == Ordinal(b)
    ensures a == b
  {
    if a != b {
      if Earlier(a, b) { OrdinalIncreases(a, b); } else { OrdinalIncreases(b, a); }
    }
  }

  /** `(first + timedelta(days=32)).replace(day=1)`. */
  function FirstPlus32(first: Date): Date
    requires first.Valid()
  {
    FromOrdinal(Ordinal(first) + 32).(d := 1)
  }

  /** The day 32 days after the first of a month: in the next month, which has at least 28 days. */
  lemma ThirtyThirdDay(first: Date)
    requires first.Valid() && first.d == 1
    ensures var target := NextMonth(first).(d := 33 - DaysInMonth(first.y, first.m));
      && NextMonth(first).Valid() && Ordinal(NextMonth(first)) == Ordinal(first) + DaysInMonth(first.y, first.m)
      && target.Valid() && Ordinal(target) == Ordinal(first) + 32
  {
    var last := first.(d := DaysInMonth(first.y, first.m));
    NextDayOrdinal(last);
    assert NextDay(last) == NextMonth(first);
  }

  /** For every year and month, the first plus 32 days, moved back to day 1, is the first of the next month. */
  lemma PlusThirtyTwoDays(first: Date)
    requires first.Valid() && first.d == 1
    ensures FirstPlus32(first) == NextMonth(first)
    ensures NextMonth(first).Valid() && Ordinal(NextMonth(first)) == Ordinal(first) + DaysInMonth(first.y, first.m)
  {
    ThirtyThirdDay(first);
    ReachesTarget(first, NextMonth(first).(d := 33 - DaysInMonth(first.y, first.m)));
  }

  lemma ReachesTarget(first: Date, target: Date)
    requires first.Valid() && target.Valid() && Ordinal(target) == Ordinal(first) + 32
    ensures FirstPlus32(first) == target.(d := 1)
  {
    OrdinalInjective(target, FromOrdinal(Ordinal(first) + 32));
  }

  // ----- Instants and cycles -----

  /** Instants are UTC microseconds, counted so that the day with ordinal n starts at Midnight(n). */
  const SECOND := 1_000_000

  function Midnight(n: int): int { n * 86_400_000_000 }

  function DayOf(t: int): int { t / 86_400_000_000 }

  lemma DayBounds(t: int)
    ensures Midnight(DayOf(t)) <= t < Midnight(DayOf(t) + 1)
  {
  }

  lemma DayWithin(t: int, lo: int, hi: int)
    requires Midnight(lo) <= t < Midnight(hi)
    ensures lo <= DayOf(t) < hi
  {
  }

  /** Instants of year 1 and later, as Python's datetime has them. */
  predicate Representable(t: int) { DayOf(t) >= 1 }

  function DateOf(now: int): Date
    requires Representable(now)
  {
    FromOrdinal(DayOf(now))
  }

  /** `now.replace(day=1, hour=0, minute=0, second=0, microsecond=0)`. */
  function CycleStart(now: int): int
    requires Representable(now)
  {
    Midnight(Ordinal(DateOf(now).(d := 1)))
  }

  function NextStart(now: int): int
    requires Representable(now)
  {
    PlusThirtyTwoDays(DateOf(now).(d := 1));
    Midnight(Ordinal(FirstPlus32(DateOf(now).(d := 1))))
  }

  function CycleEnd(now: int): int
    requires Representable(now)
  {
    NextStart(now) - SECOND
  }

  /** An instant together with the cycle bounds the code computes from it. */
  datatype Instant = Instant(now: int, cycleStart: int, cycleEnd: int)

  /** `_get_cycle_bounds`, and the same lines of `get_or_create_balance`. */
  predicate HasCycleBounds(i: Instant) {
    Representable(i.now) && i.cycleStart == CycleStart(i.now) && i.cycleEnd == CycleEnd(i.now)
  }

  function InstantAt(now: int): (i: Instant)
    requires Representable(now)
    ensures HasCycleBounds(i) && i.now == now
  {
    Instant(now, CycleStart(now), CycleEnd(now))
  }

  lemma FirstOfMonth(now: int)
    requires Representable(now)
    ensures var date := DateOf(now); var first := date.(d := 1);
      first.Valid() && 1 <= Ordinal(first) == DayOf(now) - date.d + 1
      && CycleStart(now) == Midnight(Ordinal(first))
      && NextStart(now) == Midnight(Ordinal(first) + DaysInMonth(date.y, date.m))
  {
    var date := DateOf(now);
    PlusThirtyTwoDays(date.(d := 1));
    assert DaysBeforeYear(date.y) >= 0;
  }

  /** The month of an instant: start inclusive, next start exclusive. */
  lemma MonthContains(now: int)
    requires Representable(now)
    ensures CycleStart(now) <= now < NextStart(now)
  {
    FirstOfMonth(now);
    DayBounds(now);
  }

  /** Every instant of a month has the same cycle. */
  lemma SameMonth(now: int, other: int)
    requires Representable(now)
    ensures CycleStart(now) <= other < NextStart(now) ==>
              Representable(other) && CycleStart(other) == CycleStart(now) && NextStart(other) == NextStart(now)
  {
    if CycleStart(now) <= other < NextStart(now) {
      OtherInMonth(now, other);
    }
  }

  lemma OtherInMonth(now: int, other: int)
    requires Representable(now) && CycleStart(now) <= other < NextStart(now)
    ensures Representable(other) && CycleStart(other) == CycleStart(now) && NextStart(other) == NextStart(now)
  {
    FirstOfMonth(now);
    var first := DateOf(now).(d := 1);
    DayWithin(other, Ordinal(first), Ordinal(first) + DaysInMonth(first.y, first.m));
    var date := first.(d := DayOf(other) - Ordinal(first) + 1);
    assert date.Valid() && Ordinal(date) == DayOf(other);
    OrdinalInjective(date, DateOf(other));
    FirstOfMonth(other);
  }

  /** Cycles abut exactly: one second after a cycle's end the next month's cycle starts. */
  lemma CyclesAbut(now: int)
    requires Representable(now)
    ensures Representable(NextStart(now)) && CycleEnd(now) + SECOND == CycleStart(NextStart(now))
  {
    FirstOfMonth(now);
    var first := DateOf(now).(d := 1);
    PlusThirtyTwoDays(first);
    var next := NextMonth(first);
    DayWithin(NextStart(now), Ordinal(next), Ordinal(next) + 1);
    OrdinalInjective(next, DateOf(NextStart(now)));
  }

  /** The month's final open second: after the cycle end, before the next start. No cycle contains these instants. */
  ghost predicate FinalOpenSecond(now: int)
    requires Representable(now)
  {
    NextStart(now) - SECOND < now < NextStart(now)
  }

  /** Every month has such instants: the microsecond before the next month starts is one. */
  lemma FinalOpenSecondExists(now: int)
    requires Representable(now)
    ensures var last := NextStart(now) - 1;
      Representable(last) && FinalOpenSecond(last) && NextStart(last) == NextStart(now)
  {
    MonthContains(now);
    SameMonth(now, NextStart(now) - 1);
  }

  /** An instant lies in its own cycle exactly when it is outside its month's final open second. */
  lemma InCycleIff(now: int)
    requires Representable(now)
    ensures CycleStart(now) <= now <= CycleEnd(now) <==> !FinalOpenSecond(now)
  {
    MonthContains(now);
  }
}
