/** Dates as ECMAScript computes them: day numbers, civil dates and the UTC setters, whose day
    arithmetic is MakeDay (section 21.4.1 of ECMA-262). Instants are milliseconds since the epoch. */
module CivilCalendar {
  const SECOND: int := 1_000
  const MINUTE: int := 60_000
  const HOUR: int := 3_600_000
  const DAY: int := 86_400_000

  predicate Leap(year: int) {
    year % 4 == 0 && (year % 100 != 0 || year % 400 == 0)
  }

  /** Months are counted from January of year 0, so that month arithmetic is plain addition. */
  function DaysIn(k: int): (n: int)
    ensures 28 <= n <= 31
  {
    var m := k % 12;
    if m == 1 then (if Leap(k / 12) then 29 else 28)
    else if m == 3 || m == 5 || m == 8 || m == 10 then 30
    else 31
  }

  const EPOCH_MONTH: int := 23_640

  /** The day number of the first day of a month. */
  function MonthStart(k: int): int
    decreases if k < EPOCH_MONTH then EPOCH_MONTH - k else k - EPOCH_MONTH
  {
    if k == EPOCH_MONTH then 0
    else if k > EPOCH_MONTH then MonthStart(k - 1) + DaysIn(k - 1)
    else MonthStart(k + 1) - DaysIn(k)
  }

  lemma NextMonth(k: int)
    ensures MonthStart(k + 1) == MonthStart(k) + DaysIn(k)
  {
  }

  lemma {:induction false} MonthsAdvance(k: int, n: nat)
    ensures MonthStart(k) + 28 * n <= MonthStart(k + n) <= MonthStart(k) + 31 * n
  {
    if n != 0 {
      MonthsAdvance(k, n - 1);
      NextMonth(k + n - 1);
    }
  }

  // ----- the closed form of the standard -----

  /** DayFromYear: the day number of 1 January. */
  function DayFromYear(year: int): int {
    365 * (year - 1970) + (year - 1969) / 4 - (year - 1901) / 100 + (year - 1601) / 400
  }

  /** Days of the year before month `m` (0 is January). */
  function DaysBefore(m: int, leap: bool): int
    requires 0 <= m < 12
  {
    [0, 31, 59, 90, 120, 151, 181, 212, 243, 273, 304, 334][m] + (if leap && m > 1 then 1 else 0)
  }

  function ClosedMonthStart(k: int): int {
    DayFromYear(k / 12) + DaysBefore(k % 12, Leap(k / 12))
  }

  lemma FourthYears(year: int)
    ensures (year - 1968) / 4 - (year - 1969) / 4 == if year % 4 == 0 then 1 else 0
  {
  }

  lemma Centuries(year: int)
    ensures (year - 1900) / 100 - (year - 1901) / 100 == if year % 100 == 0 then 1 else 0
  {
  }

  lemma FourthCenturies(year: int)
    ensures (year - 1600) / 400 - (year - 1601) / 400 == if year % 400 == 0 then 1 else 0
  {
  }

  lemma CenturyOfFours(year: int)
    ensures year % 100 == 0 ==> year % 4 == 0
  {
    assert year == 4 * (25 * (year / 100)) + year % 100;
  }

  lemma CycleOfCenturies(year: int)
    ensures year % 400 == 0 ==> year % 100 == 0
  {
    assert year == 100 * (4 * (year / 400)) + year % 400;
  }

  lemma YearLength(year: int)
    ensures DayFromYear(year + 1) - DayFromYear(year) == if Leap(year) then 366 else 365
  {
    FourthYears(year);
    Centuries(year);
    FourthCenturies(year);
    CenturyOfFours(year);
    CycleOfCenturies(year);
  }

  lemma ClosedFormAdvances(k: int)
    ensures ClosedMonthStart(k + 1) == ClosedMonthStart(k) + DaysIn(k)
  {
    if k % 12 == 11 {
      YearLength(k / 12);
      assert (k + 1) / 12 == k / 12 + 1 && (k + 1) % 12 == 0;
    } else {
      assert (k + 1) / 12 == k / 12 && (k + 1) % 12 == k % 12 + 1;
    }
  }

  lemma {:induction false} AccumulatorsAgree(f: int -> int, k: int)
    requires f(EPOCH_MONTH) == 0 && forall j :: f(j + 1) == f(j) + DaysIn(j)
    ensures MonthStart(k) == f(k)
    decreases if k < EPOCH_MONTH then EPOCH_MONTH - k else k - EPOCH_MONTH
  {
    if k > EPOCH_MONTH {
      AccumulatorsAgree(f, k - 1);
      assert f(k - 1 + 1) == f(k - 1) + DaysIn(k - 1);
    } else if k < EPOCH_MONTH {
      AccumulatorsAgree(f, k + 1);
    }
  }

  /** Adding month lengths up from the epoch gives the closed form of the standard. */
  lemma MonthStartIsClosedForm(k: int)
    ensures MonthStart(k) == ClosedMonthStart(k)
  {
    var f := (j: int) => ClosedMonthStart(j);
    forall j
      ensures f(j + 1) == f(j) + DaysIn(j)
    {
      ClosedFormAdvances(j);
    }
    AccumulatorsAgree(f, k);
  }

  // ----- from days to months -----

  function SearchMonth(day: int, k: int): (r: int)
    ensures MonthStart(r) <= day < MonthStart(r + 1)
    decreases if day < MonthStart(k) then 1 else 0, if day < MonthStart(k) then MonthStart(k) - day
              else day - MonthStart(k)
  {
    NextMonth(k);
    NextMonth(k - 1);
    if day < MonthStart(k) then SearchMonth(day, k - 1)
    else if MonthStart(k + 1) <= day then SearchMonth(day, k + 1)
    else k
  }

  /** The month a day lies in. */
  function MonthOf(day: int): (k: int)
    ensures MonthStart(k) <= day < MonthStart(k + 1)
  {
    SearchMonth(day, EPOCH_MONTH)
  }

  lemma MonthIsUnique(day: int, k: int)
    requires MonthStart(k) <= day < MonthStart(k + 1)
    ensures MonthOf(day) == k
  {
    var r := MonthOf(day);
    if r < k {
      MonthsAdvance(r + 1, k - r - 1);
    } else {
      if k < r {
        MonthsAdvance(k + 1, r - k - 1);
      }
    }
  }

  // ----- civil dates -----

  /** `month` counts from 1. */
  datatype Date = Date(year: int, month: int, day: int) {
    predicate Valid() {
      1 <= month <= 12 && 1 <= day <= DaysIn(12 * year + month - 1)
    }
  }

  function DateOf(day: int): (d: Date)
    ensures d.Valid()
  {
    var k := MonthOf(day);
    Date(k / 12, k % 12 + 1, day - MonthStart(k) + 1)
  }

  /** MakeDay, for any month and day number however far out of range. */
  function MakeDay(year: int, month0: int, day: int): int {
    MonthStart(12 * year + month0) + day - 1
  }

  lemma DateInMonth(day: int, k: int)
    requires MonthStart(k) <= day < MonthStart(k + 1)
    ensures DateOf(day) == Date(k / 12, k % 12 + 1, day - MonthStart(k) + 1)
  {
    MonthIsUnique(day, k);
  }

  lemma MonthIndex(day: int)
    ensures 12 * DateOf(day).year + DateOf(day).month - 1 == MonthOf(day)
    ensures DateOf(day).day == day - MonthStart(MonthOf(day)) + 1
  {
  }

  lemma MonthParts(year: int, month0: int)
    requires 0 <= month0 < 12
    ensures (12 * year + month0) / 12 == year && (12 * year + month0) % 12 == month0
  {
  }

  lemma DateOfMadeDay(d: Date)
    requires d.Valid()
    ensures DateOf(MakeDay(d.year, d.month - 1, d.day)) == d
  {
    var k := 12 * d.year + d.month - 1;
    NextMonth(k);
    DateInMonth(MonthStart(k) + d.day - 1, k);
    MonthParts(d.year, d.month - 1);
  }

  /** Day numbers and valid civil dates correspond one to one. */
  lemma DateRoundTrip(day: int, d: Date)
    ensures MakeDay(DateOf(day).year, DateOf(day).month - 1, DateOf(day).day) == day
    ensures d.Valid() ==> DateOf(MakeDay(d.year, d.month - 1, d.day)) == d
  {
    MonthIndex(day);
    if d.Valid() {
      DateOfMadeDay(d);
    }
  }

  /** Later days have lexicographically later dates. */
  lemma DatesAreOrdered(a: int, b: int)
    requires a < b
    ensures
      var x, y := DateOf(a), DateOf(b);
      x.year < y.year || (x.year == y.year && (x.month < y.month || (x.month == y.month && x.day < y.day)))
  {
    var k, l := MonthOf(a), MonthOf(b);
    if l < k {
      MonthsAdvance(l + 1, k - l - 1);
    }
  }

  // ----- the UTC setters -----

  function DayOf(t: int): int {
    t / DAY
  }

  function TimeOf(t: int): int {
    t % DAY
  }

  function UtcDate(t: int): int {
    DateOf(DayOf(t)).day
  }

  function UtcMonth(t: int): int {
    DateOf(DayOf(t)).month - 1
  }

  function SetUtcDate(t: int, day: int): int {
    var d := DateOf(DayOf(t));
    MakeDay(d.year, d.month - 1, day) * DAY + TimeOf(t)
  }

  function SetUtcMonth(t: int, month0: int): int {
    var d := DateOf(DayOf(t));
    MakeDay(d.year, month0, d.day) * DAY + TimeOf(t)
  }

  lemma Recombine(t: int, n: int)
    ensures (DayOf(t) + n) * DAY + TimeOf(t) == t + n * DAY
  {
  }

  lemma DayNumberOf(day: int, n: int)
    ensures MakeDay(DateOf(day).year, DateOf(day).month - 1, DateOf(day).day + n) == day + n
  {
    DateRoundTrip(day, DateOf(day));
  }

  lemma AddDays(t: int, n: int)
    ensures SetUtcDate(t, UtcDate(t) + n) == t + n * DAY
  {
    DayNumberOf(DayOf(t), n);
    Recombine(t, n);
  }

  lemma AddMonthsIsMonthArithmetic(t: int, n: int)
    ensures SetUtcMonth(t, UtcMonth(t) + n) ==
            (MonthStart(MonthOf(DayOf(t)) + n) + DayOf(t) - MonthStart(MonthOf(DayOf(t)))) * DAY + TimeOf(t)
  {
    var k := MonthOf(DayOf(t));
    assert 12 * (k / 12) + (k % 12 + n) == k + n;
  }

  lemma SplitInstant(day: int, time: int)
    requires 0 <= time < DAY
    ensures DayOf(day * DAY + time) == day && TimeOf(day * DAY + time) == time
  {
  }

  /** The date `rest` days into a month of `n` days, or just past its end. */
  lemma DayInMonth(k: int, rest: int, n: int)
    requires 0 <= rest < 31 && n >= 28 && MonthStart(k + 1) == MonthStart(k) + n
    ensures rest < n ==> DateOf(MonthStart(k) + rest) == Date(k / 12, k % 12 + 1, rest + 1)
    ensures rest >= n ==> DateOf(MonthStart(k) + rest) == Date((k + 1) / 12, (k + 1) % 12 + 1, rest + 1 - n)
  {
    var day := MonthStart(k) + rest;
    if rest < n {
      DateInMonth(day, k);
    } else {
      MonthsAdvance(k + 1, 1);
      DateInMonth(day, k + 1);
    }
  }

  lemma AddMonthsDay(t: int, n: int)
    ensures DayOf(SetUtcMonth(t, UtcMonth(t) + n)) ==
            MonthStart(MonthOf(DayOf(t)) + n) + DayOf(t) - MonthStart(MonthOf(DayOf(t)))
    ensures TimeOf(SetUtcMonth(t, UtcMonth(t) + n)) == TimeOf(t)
  {
    AddMonthsIsMonthArithmetic(t, n);
    SplitInstant(MonthStart(MonthOf(DayOf(t)) + n) + DayOf(t) - MonthStart(MonthOf(DayOf(t))), TimeOf(t));
  }

  /** Adding months keeps the day of the month when the target month has it; otherwise the missing
      days spill into the month after. */
  lemma AddMonthsLandsOn(t: int, n: int)
    ensures
      var d, d' := DateOf(DayOf(t)), DateOf(DayOf(SetUtcMonth(t, UtcMonth(t) + n)));
      var k := 12 * d.year + d.month - 1 + n;
      if d.day <= DaysIn(k) then d' == Date(k / 12, k % 12 + 1, d.day)
      else d' == Date((k + 1) / 12, (k + 1) % 12 + 1, d.day - DaysIn(k))
    ensures TimeOf(SetUtcMonth(t, UtcMonth(t) + n)) == TimeOf(t)
  {
    var k0 := MonthOf(DayOf(t));
    NextMonth(k0);
    MonthIndex(DayOf(t));
    AddMonthsDay(t, n);
    NextMonth(k0 + n);
    DayInMonth(k0 + n, DayOf(t) - MonthStart(k0), DaysIn(k0 + n));
  }
}
