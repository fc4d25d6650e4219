/** Recurring dates: the analytics' occurrences, the scheduler's next due date and the routines'
    next run, all built from one step. */
module Recurrence {
  import opened Basics
  import opened CivilCalendar

  datatype Frequency = Daily | Weekly | Monthly

  /** A frequency with its positive interval. Payments use Weekly and Monthly, task routines Daily
      and Weekly. */
  datatype Schedule = Schedule(frequency: Frequency, interval: nat) {
    predicate Valid() {
      0 < interval
    }

    /** The period of the frequencies that have one. */
    function Period(): int {
      match frequency
      case Daily => interval * DAY
      case Weekly => 7 * interval * DAY
      case Monthly => 28 * interval * DAY
    }
  }

  function Next(t: int, p: Schedule): int {
    match p.frequency
    case Daily => SetUtcDate(t, UtcDate(t) + p.interval)
    case Weekly => SetUtcDate(t, UtcDate(t) + p.interval * 7)
    case Monthly => SetUtcMonth(t, UtcMonth(t) + p.interval)
  }

  /** One step moves by exactly the period, or by at least 28 days a month. */
  lemma StepAdvances(t: int, p: Schedule)
    requires p.Valid()
    ensures !p.frequency.Monthly? ==> Next(t, p) == t + p.Period()
    ensures Next(t, p) >= t + p.Period() >= t + DAY
  {
    match p.frequency
    case Daily => AddDays(t, p.interval);
    case Weekly => AddDays(t, p.interval * 7);
    case Monthly =>
      AddMonthsIsMonthArithmetic(t, p.interval);
      var k := MonthOf(DayOf(t));
      MonthsAdvance(k, p.interval);
      Recombine(t, MonthStart(k + p.interval) - MonthStart(k));
  }

  // ----- the orbit -----

  function Nth(t: int, p: Schedule, n: nat): int {
    if n == 0 then t else Next(Nth(t, p, n - 1), p)
  }

  lemma {:induction false} NthOfNext(t: int, p: Schedule, n: nat)
    ensures Nth(Next(t, p), p, n) == Nth(t, p, n + 1)
  {
    if n != 0 {
      NthOfNext(t, p, n - 1);
    }
  }

  lemma {:induction false} NthAdvances(t: int, p: Schedule, n: nat)
    requires p.Valid()
    ensures Nth(t, p, n) >= t + n * DAY
  {
    if n != 0 {
      NthAdvances(t, p, n - 1);
      StepAdvances(Nth(t, p, n - 1), p);
    }
  }

  /** The first point of the orbit of `t` at or after `start`. */
  function FirstFrom(t: int, p: Schedule, start: int): (r: int)
    requires p.Valid()
    ensures r >= start && r >= t
    decreases if t < start then start - t else 0
  {
    StepAdvances(t, p);
    if t < start then FirstFrom(Next(t, p), p, start) else t
  }

  /** The orbit of `t` before `end`. */
  function Before(t: int, p: Schedule, end: int): seq<int>
    requires p.Valid()
    decreases if t < end then end - t else 0
  {
    StepAdvances(t, p);
    if t < end then [t] + Before(Next(t, p), p, end) else []
  }

  function OccurrencesOf(due: int, p: Schedule, start: int, end: int): seq<int>
    requires p.Valid()
  {
    Before(FirstFrom(due, p, start), p, end)
  }

  method Occurrences(nextDueAt: int, p: Schedule, start: int, end: int) returns (dates: seq<int>)
    requires p.Valid()
    ensures dates == OccurrencesOf(nextDueAt, p, start, end)
  {
    dates := [];
    var dueAt := nextDueAt;
    while dueAt < start
      invariant FirstFrom(dueAt, p, start) == FirstFrom(nextDueAt, p, start)
      decreases start - dueAt
    {
      StepAdvances(dueAt, p);
      dueAt := Next(dueAt, p);
    }
    ghost var first := dueAt;
    while dueAt < end
      invariant dates + Before(dueAt, p, end) == Before(first, p, end)
      decreases end - dueAt
    {
      StepAdvances(dueAt, p);
      dates := dates + [dueAt];
      dueAt := Next(dueAt, p);
    }
  }

  ghost predicate Increasing(dates: seq<int>) {
    forall i, j :: 0 <= i < j < |dates| ==> dates[i] < dates[j]
  }

  ghost predicate OnOrbit(t: int, p: Schedule, x: int) {
    exists n: nat :: Nth(t, p, n) == x
  }

  lemma OnOrbitOfNext(t: int, p: Schedule, x: int)
    ensures OnOrbit(t, p, x) <==> x == t || OnOrbit(Next(t, p), p, x)
  {
    if OnOrbit(t, p, x) {
      var n: nat :| Nth(t, p, n) == x;
      if n != 0 {
        NthOfNext(t, p, n - 1);
      }
    }
    if OnOrbit(Next(t, p), p, x) {
      var n: nat :| Nth(Next(t, p), p, n) == x;
      NthOfNext(t, p, n);
    }
    assert Nth(t, p, 0) == t;
  }

  lemma OrbitIsAhead(t: int, p: Schedule, x: int)
    requires p.Valid() && OnOrbit(t, p, x)
    ensures x >= t
  {
    var n: nat :| Nth(t, p, n) == x;
    NthAdvances(t, p, n);
  }

  lemma {:induction false} BeforeIsExact(t: int, p: Schedule, end: int)
    requires p.Valid()
    ensures Increasing(Before(t, p, end))
    ensures forall x :: x in Before(t, p, end) <==> x < end && OnOrbit(t, p, x)
    decreases if t < end then end - t else 0
  {
    StepAdvances(t, p);
    if t < end {
      BeforeIsExact(Next(t, p), p, end);
      var rest := Before(Next(t, p), p, end);
      forall x
        ensures x in Before(t, p, end) <==> x < end && OnOrbit(t, p, x)
        ensures x in rest ==> x > t
      {
        OnOrbitOfNext(t, p, x);
        if OnOrbit(Next(t, p), p, x) {
          OrbitIsAhead(Next(t, p), p, x);
        }
      }
      assert forall i :: 0 <= i < |rest| ==> rest[i] in rest;
    } else {
      forall x | OnOrbit(t, p, x)
        ensures x >= end
      {
        OrbitIsAhead(t, p, x);
      }
    }
  }

  lemma {:induction false} FirstFromKeepsOrbit(t: int, p: Schedule, start: int, x: int)
    requires p.Valid() && x >= start
    ensures OnOrbit(t, p, x) <==> OnOrbit(FirstFrom(t, p, start), p, x)
    decreases if t < start then start - t else 0
  {
    StepAdvances(t, p);
    if t < start {
      FirstFromKeepsOrbit(Next(t, p), p, start, x);
      OnOrbitOfNext(t, p, x);
    }
  }

  /** The occurrences in `[start, end)` are exactly the points of the payment's orbit in it, in
      strictly increasing order. */
  lemma OccurrencesAreExact(due: int, p: Schedule, start: int, end: int)
    requires p.Valid()
    ensures Increasing(OccurrencesOf(due, p, start, end))
    ensures forall x :: x in OccurrencesOf(due, p, start, end) <==> start <= x < end && OnOrbit(due, p, x)
  {
    var first := FirstFrom(due, p, start);
    BeforeIsExact(first, p, end);
    forall x
      ensures x in Before(first, p, end) <==> start <= x < end && OnOrbit(due, p, x)
    {
      if x >= start {
        FirstFromKeepsOrbit(due, p, start, x);
      }
      if OnOrbit(first, p, x) {
        OrbitIsAhead(first, p, x);
      }
    }
  }

  lemma {:induction false} BeforeSplits(t: int, p: Schedule, mid: int, end: int)
    requires p.Valid() && mid <= end
    ensures Before(t, p, end) == Before(t, p, mid) + Before(FirstFrom(t, p, mid), p, end)
    decreases if t < mid then mid - t else 0
  {
    StepAdvances(t, p);
    if t < mid {
      BeforeSplits(Next(t, p), p, mid, end);
    }
  }

  lemma {:induction false} FirstFromTwice(t: int, p: Schedule, start: int, mid: int)
    requires p.Valid() && start <= mid
    ensures FirstFrom(FirstFrom(t, p, start), p, mid) == FirstFrom(t, p, mid)
    decreases if t < start then start - t else 0
  {
    StepAdvances(t, p);
    if t < start {
      FirstFromTwice(Next(t, p), p, start, mid);
    }
  }

  /** Occurrences of adjacent intervals concatenate. */
  lemma OccurrencesSplit(due: int, p: Schedule, start: int, mid: int, end: int)
    requires p.Valid() && start <= mid <= end
    ensures OccurrencesOf(due, p, start, end) == OccurrencesOf(due, p, start, mid) + OccurrencesOf(due, p, mid, end)
  {
    BeforeSplits(FirstFrom(due, p, start), p, mid, end);
    FirstFromTwice(due, p, start, mid);
  }

  // ----- advancing a schedule -----

  /** The scheduler's do-while loop: at least one step, then on until after `now`. */
  method NextDueAt(current: int, p: Schedule, now: int) returns (next: int)
    requires p.Valid()
    ensures next == FirstFrom(Next(current, p), p, now + 1)
  {
    StepAdvances(current, p);
    next := Next(current, p);
    while next <= now
      invariant FirstFrom(next, p, now + 1) == FirstFrom(Next(current, p), p, now + 1)
      decreases now + 1 - next
    {
      StepAdvances(next, p);
      next := Next(next, p);
    }
  }

  /** The advanced date is the least point of the orbit after both the old date and `now`. */
  lemma AdvancedIsLeast(current: int, p: Schedule, now: int)
    requires p.Valid()
    ensures
      var next := FirstFrom(Next(current, p), p, now + 1);
      && next > now && next > current && OnOrbit(current, p, next)
      && (forall x :: OnOrbit(current, p, x) && x > now && x > current ==> x >= next)
  {
    var next := FirstFrom(Next(current, p), p, now + 1);
    StepAdvances(current, p);
    FirstFromKeepsOrbit(Next(current, p), p, now + 1, next);
    assert Nth(next, p, 0) == next;
    OnOrbitOfNext(current, p, next);
    forall x | OnOrbit(current, p, x) && x > now && x > current
      ensures x >= next
    {
      AdvancedIsNotLater(current, p, now, x);
    }
  }

  lemma AdvancedIsNotLater(current: int, p: Schedule, now: int, x: int)
    requires p.Valid() && OnOrbit(current, p, x) && x > now && x > current
    ensures FirstFrom(Next(current, p), p, now + 1) <= x
  {
    OnOrbitOfNext(current, p, x);
    FirstFromKeepsOrbit(Next(current, p), p, now + 1, x);
    OrbitIsAhead(FirstFrom(Next(current, p), p, now + 1), p, x);
  }

  /** Advancing a payment leaves every forecast window after `now` unchanged exactly when the
      payment was due. */
  lemma AdvancingKeepsForecasts(current: int, p: Schedule, now: int)
    requires p.Valid()
    ensures
      var next := FirstFrom(Next(current, p), p, now + 1);
      current <= now <==>
        (forall start, end ::
           start > now ==> OccurrencesOf(current, p, start, end) == OccurrencesOf(next, p, start, end))
  {
    var next := FirstFrom(Next(current, p), p, now + 1);
    StepAdvances(current, p);
    if current <= now {
      forall start, end | start > now
        ensures OccurrencesOf(current, p, start, end) == OccurrencesOf(next, p, start, end)
      {
        FirstFromTwice(Next(current, p), p, now + 1, start);
      }
    } else {
      assert current in OccurrencesOf(current, p, current, current + 1);
      assert current !in OccurrencesOf(next, p, current, current + 1);
    }
  }

  lemma OneMoreTime(n: int, x: int)
    ensures n * x == (n - 1) * x + x
  {
  }

  /** Daily and weekly orbits are arithmetic progressions. */
  lemma {:induction false} NthIsProgression(t: int, p: Schedule, n: nat)
    requires p.Valid() && !p.frequency.Monthly?
    ensures Nth(t, p, n) == t + n * p.Period()
  {
    if n != 0 {
      NthIsProgression(t, p, n - 1);
      StepAdvances(Nth(t, p, n - 1), p);
      OneMoreTime(n, p.Period());
    }
  }

  lemma {:induction false} FirstFromIsNear(t: int, p: Schedule, start: int)
    requires p.Valid() && !p.frequency.Monthly? && t < start + p.Period()
    ensures FirstFrom(t, p, start) < start + p.Period()
    decreases if t < start then start - t else 0
  {
    StepAdvances(t, p);
    if t < start {
      FirstFromIsNear(Next(t, p), p, start);
    }
  }

  /** For a fixed period the advanced date is the only point of the progression in
      (now, now + period]. */
  lemma AdvancedIsUnique(current: int, p: Schedule, now: int, x: int)
    requires p.Valid() && !p.frequency.Monthly? && current <= now
    ensures now < x <= now + p.Period() && OnOrbit(current, p, x) <==> x == FirstFrom(Next(current, p), p, now + 1)
  {
    var next := FirstFrom(Next(current, p), p, now + 1);
    StepAdvances(current, p);
    StepAdvances(next, p);
    AdvancedIsLeast(current, p, now);
    FirstFromIsNear(Next(current, p), p, now + 1);
    if now < x && OnOrbit(current, p, x) {
      OnOrbitOfNext(current, p, x);
      FirstFromKeepsOrbit(Next(current, p), p, now + 1, x);
      OnOrbitOfNext(next, p, x);
      if x != next {
        OrbitIsAhead(Next(next, p), p, x);
      }
    }
  }

  // ----- monthly schedules -----

  /** One monthly step: the same day `interval` months later when that month has it, otherwise the missing
      days spill into the month after; the time of day is kept. */
  lemma MonthlyStepLandsOn(t: int, p: Schedule)
    requires p.frequency.Monthly?
    ensures
      var d, d' := DateOf(DayOf(t)), DateOf(DayOf(Next(t, p)));
      var k := 12 * d.year + d.month - 1 + p.interval;
      if d.day <= DaysIn(k) then d' == Date(k / 12, k % 12 + 1, d.day)
      else d' == Date((k + 1) / 12, (k + 1) % 12 + 1, d.day - DaysIn(k))
    ensures TimeOf(Next(t, p)) == TimeOf(t)
  {
    AddMonthsLandsOn(t, p.interval);
  }

  /** Months counted from January of year 0. */
  function MonthAt(t: int): int {
    MonthOf(DayOf(t))
  }

  predicate EarlyInMonth(t: int) {
    DateOf(DayOf(t)).day <= 28
  }

  lemma MonthlyStepMovesMonths(t: int, p: Schedule)
    requires p.frequency.Monthly? && EarlyInMonth(t)
    ensures MonthAt(Next(t, p)) == MonthAt(t) + p.interval && EarlyInMonth(Next(t, p))
    ensures DateOf(DayOf(Next(t, p))).day == DateOf(DayOf(t)).day && TimeOf(Next(t, p)) == TimeOf(t)
  {
    MonthlyStepLandsOn(t, p);
    MonthIndex(DayOf(t));
    MonthIndex(DayOf(Next(t, p)));
  }

  /** From a day of at most 28, point `n` of a monthly orbit is that day of the month and that time of day,
      `n * interval` months on. */
  lemma {:induction false} MonthlyOrbit(t: int, p: Schedule, n: nat)
    requires p.frequency.Monthly? && DateOf(DayOf(t)).day <= 28
    ensures
      var d := DateOf(DayOf(t));
      var k := 12 * d.year + d.month - 1 + n * p.interval;
      DateOf(DayOf(Nth(t, p, n))) == Date(k / 12, k % 12 + 1, d.day) && TimeOf(Nth(t, p, n)) == TimeOf(t)
  {
    MonthIndex(DayOf(t));
    if n != 0 {
      MonthlyOrbit(t, p, n - 1);
      OneMoreTime(n, p.interval);
      MonthIndex(DayOf(Nth(t, p, n - 1)));
      MonthlyStepMovesMonths(Nth(t, p, n - 1), p);
      MonthIndex(DayOf(Nth(t, p, n)));
    }
  }

  lemma BeforeMonth(t: int, k: int)
    ensures t < MonthStart(k) * DAY <==> MonthAt(t) < k
  {
    var m := MonthAt(t);
    assert t < MonthStart(k) * DAY <==> DayOf(t) < MonthStart(k);
    if m < k {
      MonthsAdvance(m + 1, k - m - 1);
    } else {
      MonthsAdvance(k, m - k);
    }
  }

  lemma {:induction false} FirstFromMonth(t: int, p: Schedule, k: int)
    requires p.Valid() && p.frequency.Monthly? && EarlyInMonth(t) && MonthAt(t) < k + p.interval
    ensures
      var first := FirstFrom(t, p, MonthStart(k) * DAY);
      EarlyInMonth(first) && k <= MonthAt(first) < k + p.interval
    decreases if t < MonthStart(k) * DAY then MonthStart(k) * DAY - t else 0
  {
    BeforeMonth(t, k);
    if t < MonthStart(k) * DAY {
      StepAdvances(t, p);
      MonthlyStepMovesMonths(t, p);
      FirstFromMonth(Next(t, p), p, k);
    }
  }

  lemma IntervalsLeft(k: int, interval: nat, n: nat)
    requires n != 0
    ensures k + n * interval == k + interval + (n - 1) * interval && k + interval <= k + n * interval
  {
  }

  lemma {:induction false} OncePerInterval(t: int, p: Schedule, k: int, n: nat, end: int)
    requires p.Valid() && p.frequency.Monthly? && EarlyInMonth(t) && k <= MonthAt(t) < k + p.interval
    requires end == k + n * p.interval
    ensures |Before(t, p, MonthStart(end) * DAY)| == n
    decreases n
  {
    BeforeMonth(t, end);
    if n != 0 {
      IntervalsLeft(k, p.interval, n);
      StepAdvances(t, p);
      MonthlyStepMovesMonths(t, p);
      OncePerInterval(Next(t, p), p, k + p.interval, n - 1, end);
    }
  }

  /** A payment due on one of the first 28 days of a month occurs exactly once in every `interval` whole
      months from its due date on. */
  lemma OneOccurrencePerInterval(due: int, p: Schedule, k: int, n: nat)
    requires p.Valid() && p.frequency.Monthly? && DateOf(DayOf(due)).day <= 28 && due <= MonthStart(k) * DAY
    ensures |OccurrencesOf(due, p, MonthStart(k) * DAY, MonthStart(k + n * p.interval) * DAY)| == n
  {
    BeforeMonth(due, k + 1);
    MonthsAdvance(k, 1);
    FirstFromMonth(due, p, k);
    OncePerInterval(FirstFrom(due, p, MonthStart(k) * DAY), p, k, n, k + n * p.interval);
  }
}
