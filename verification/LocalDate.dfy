/** Local calendar days: where a date starts as an instant, and the status of a family event. */
module LocalDate {
  import opened CivilCalendar
  import opened Sorting
  import opened Zones

  // ----- the start of a local date -----

  /** Date.UTC of the parts a formatter shows, down to seconds. */
  function ZonedPartsTimestamp(z: Zone, x: int): int {
    var l := Local(z, x);
    var d := DateOf(DayOf(l));
    MakeDay(d.year, d.month - 1, d.day) * DAY + TimeOf(l) / HOUR * HOUR + TimeOf(l) / MINUTE % 60 * MINUTE +
    TimeOf(l) / SECOND % 60 * SECOND
  }

  /** localDateStartUtc: the zone's offset is guessed at UTC midnight and corrected once. */
  function StartUtc(z: Zone, day: int): int {
    var utcMidnight := day * DAY;
    var candidate := utcMidnight - (ZonedPartsTimestamp(z, utcMidnight) - utcMidnight);
    candidate - (ZonedPartsTimestamp(z, candidate) - utcMidnight)
  }

  lemma TimeShown(time: int)
    requires 0 <= time < DAY
    ensures time / HOUR * HOUR + time / MINUTE % 60 * MINUTE + time / SECOND % 60 * SECOND == time - time % SECOND
  {
    assert time / MINUTE / 60 == time / HOUR && time / SECOND / 60 == time / MINUTE;
  }

  lemma ShownIsFloor(z: Zone, x: int)
    ensures ZonedPartsTimestamp(z, x) == Floor(Local(z, x), SECOND)
  {
    var l := Local(z, x);
    TimeShown(TimeOf(l));
    DateRoundTrip(DayOf(l), DateOf(DayOf(l)));
    FloorOfDay(l, SECOND);
  }

  lemma WholeSecondShown(z: Zone, x: int)
    requires z.Whole(SECOND) && x % SECOND == 0
    ensures ZonedPartsTimestamp(z, x) == Local(z, x)
  {
    ShownIsFloor(z, x);
    var a, b := x / SECOND, Offset(z, x) / SECOND;
    assert Local(z, x) == (a + b) * SECOND + 0;
    WholeSeconds(a + b, 0);
  }

  /** With offsets of whole seconds the two corrections apply the offset in force at the first guess. */
  lemma StartAppliesOffset(z: Zone, day: int)
    requires z.Whole(SECOND)
    ensures
      var midnight := day * DAY;
      StartUtc(z, day) == midnight - Offset(z, midnight - Offset(z, midnight))
  {
    var midnight := day * DAY;
    assert midnight == (day * 86_400) * SECOND + 0;
    WholeSeconds(day * 86_400, 0);
    WholeSecondShown(z, midnight);
    var candidate := midnight - Offset(z, midnight);
    var a, b := midnight / SECOND, Offset(z, midnight) / SECOND;
    assert candidate == (a - b) * SECOND + 0;
    WholeSeconds(a - b, 0);
    WholeSecondShown(z, candidate);
  }

  /** From `start` on, and only then, the local date is `day` or later. */
  ghost predicate SplitsAt(z: Zone, day: int, start: int) {
    forall x :: DayOf(Local(z, x)) >= day <==> x >= start
  }

  /** Midnight comes on the same side of the change by either offset, or the change falls exactly on
      midnight and the first guess lies on the side it should. */
  predicate MidnightClear(z: Zone, day: int) {
    var midnight := day * DAY;
    || (midnight - z.before < z.at && midnight - z.after < z.at)
    || (midnight - z.before >= z.at && midnight - z.after >= z.at)
    || (midnight - z.before == z.at && z.before <= z.after && midnight >= z.at)
    || (midnight - z.after == z.at && z.after <= z.before && midnight < z.at)
  }

  lemma DayAtLeast(t: int, day: int)
    ensures DayOf(t) >= day <==> t >= day * DAY
  {
  }

  lemma SplitsByLocalTime(z: Zone, day: int, start: int)
    ensures SplitsAt(z, day, start) <==> forall x :: Local(z, x) >= day * DAY <==> x >= start
  {
    if SplitsAt(z, day, start) {
      forall x
        ensures Local(z, x) >= day * DAY <==> x >= start
      {
        DayAtLeast(Local(z, x), day);
        assert DayOf(Local(z, x)) >= day <==> x >= start;
      }
    }
    if forall x :: Local(z, x) >= day * DAY <==> x >= start {
      forall x
        ensures DayOf(Local(z, x)) >= day <==> x >= start
      {
        DayAtLeast(Local(z, x), day);
      }
    }
  }

  /** The computed start is right exactly when midnight is clear of the change, forward or back. */
  lemma StartIsRightWhenClear(z: Zone, day: int)
    requires z.Whole(SECOND)
    ensures SplitsAt(z, day, StartUtc(z, day)) <==> MidnightClear(z, day)
  {
    var midnight, start := day * DAY, StartUtc(z, day);
    StartAppliesOffset(z, day);
    SplitsByLocalTime(z, day, start);
    if !MidnightClear(z, day) {
      WrongSomewhere(z, midnight, start);
    }
  }

  lemma WrongSomewhere(z: Zone, midnight: int, start: int)
    requires start == midnight - Offset(z, midnight - Offset(z, midnight))
    requires !(midnight - z.before < z.at && midnight - z.after < z.at)
    requires !(midnight - z.before >= z.at && midnight - z.after >= z.at)
    requires !(midnight - z.before == z.at && z.before <= z.after && midnight >= z.at)
    requires !(midnight - z.after == z.at && z.after <= z.before && midnight < z.at)
    ensures exists x :: !(Local(z, x) >= midnight <==> x >= start)
  {
    var early, late := z.at - 1, z.at;
    if midnight - z.before >= z.at {
      assert Local(z, early) < midnight <= Local(z, late);
    } else {
      assert Local(z, midnight - z.before) >= midnight && Local(z, midnight - z.before - 1) < midnight;
      assert Local(z, late) >= midnight <==> midnight - z.after == z.at;
    }
  }

  /** A change farther from local midnight than its own size leaves midnight clear. */
  lemma DistantChangeIsClear(z: Zone, day: int)
    requires
      var distance, size := z.at + z.before - day * DAY, z.after - z.before;
      (if distance < 0 then -distance else distance) > (if size < 0 then -size else size)
    ensures MidnightClear(z, day)
  {
  }

  /** A zone whose clocks jump from midnight to one o'clock: the computed start of the day is an hour
      before the jump, on the date before. */
  lemma JumpAtMidnightStartsEarly(z: Zone)
    requires z == Zone(4 * HOUR, -4 * HOUR, -3 * HOUR)
    ensures StartUtc(z, 0) == 3 * HOUR && DayOf(Local(z, StartUtc(z, 0))) == -1
    ensures !MidnightClear(z, 0) && !SplitsAt(z, 0, StartUtc(z, 0))
  {
    StartAppliesOffset(z, 0);
    StartIsRightWhenClear(z, 0);
    DayAtLeast(Local(z, 3 * HOUR), 0);
    DayAtLeast(Local(z, 3 * HOUR), -1);
  }

  /** The query range of two local dates holds exactly the instants shown on dates in between. */
  lemma RangeHoldsItsDates(z: Zone, from: int, to: int, x: int)
    requires z.Whole(SECOND) && MidnightClear(z, from) && MidnightClear(z, to)
    ensures StartUtc(z, from) <= x < StartUtc(z, to) <==> from <= DayOf(Local(z, x)) < to
  {
    StartIsRightWhenClear(z, from);
    StartIsRightWhenClear(z, to);
  }

  // ----- date keys -----

  const DIGITS: string := "0123456789"

  function Digit(n: nat): char
    requires n < 10
  {
    DIGITS[n]
  }

  /** A number printed with no padding. */
  function Decimal(n: nat): string {
    if n < 10 then [Digit(n)] else Decimal(n / 10) + [Digit(n % 10)]
  }

  function Padded(n: nat, width: nat): (s: string)
    ensures |s| == width
  {
    if width == 0 then [] else Padded(n / 10, width - 1) + [Digit(n % 10)]
  }

  function Power10(n: nat): nat {
    if n == 0 then 1 else 10 * Power10(n - 1)
  }

  lemma DigitsOrdered(m: nat, n: nat)
    requires m < 10 && n < 10
    ensures Less([Digit(m)], [Digit(n)]) <==> m < n
    ensures Digit(m) == Digit(n) <==> m == n
  {
    assert forall i, j :: 0 <= i < j < 10 ==> DIGITS[i] < DIGITS[j];
    assert !Less([], []) && [Digit(m)][1..] == [] && [Digit(n)][1..] == [];
    assert CharOrder()(Digit(m), Digit(n)) <==> m < n;
  }

  /** Numbers padded to one width compare as strings the way they compare as numbers. */
  lemma {:induction false} PaddedOrdered(m: nat, n: nat, width: nat)
    requires m < Power10(width) && n < Power10(width)
    ensures Less(Padded(m, width), Padded(n, width)) <==> m < n
    ensures Padded(m, width) == Padded(n, width) <==> m == n
    decreases width
  {
    if width > 0 {
      PaddedOrdered(m / 10, n / 10, width - 1);
      DigitsOrdered(m % 10, n % 10);
      LexSplits(CharOrder(), Padded(m / 10, width - 1), Padded(n / 10, width - 1), [Digit(m % 10)], [Digit(n % 10)]);
    }
  }

  /** How many digits a number prints as. */
  function Digits(n: nat): (r: nat)
    ensures r >= 1
  {
    if n < 10 then 1 else 1 + Digits(n / 10)
  }

  /** A number without its last `k` digits. */
  function Dropped(n: nat, k: nat): nat
    decreases k
  {
    if k == 0 then n else Dropped(n / 10, k - 1)
  }

  lemma {:induction false} DecimalIsPadded(n: nat)
    ensures Decimal(n) == Padded(n, Digits(n))
  {
    if n < 10 {
      assert Padded(n, 1) == Padded(n / 10, 0) + [Digit(n % 10)];
    } else {
      DecimalIsPadded(n / 10);
    }
  }

  lemma {:induction false} DigitsBound(n: nat)
    ensures n < Power10(Digits(n)) && (n >= 10 ==> Power10(Digits(n) - 1) <= n)
  {
    if n < 10 {
      assert Power10(1) == 10 * Power10(0);
    } else {
      DigitsBound(n / 10);
      assert n / 10 < 10 ==> Power10(Digits(n / 10) - 1) == 1;
    }
  }

  lemma {:induction false} Power10Grows(m: nat, n: nat)
    requires m <= n
    ensures 1 <= Power10(m) <= Power10(n)
    decreases n
  {
    if n > 0 {
      if m < n {
        Power10Grows(m, n - 1);
      } else {
        Power10Grows(m - 1, n - 1);
      }
    }
  }

  lemma FewerDigitsIsLess(m: nat, n: nat)
    requires Digits(m) < Digits(n)
    ensures m < n
  {
    DigitsBound(m);
    DigitsBound(n);
    Power10Grows(Digits(m), Digits(n) - 1);
  }

  /** A printed number begins with the printed number without its last digits. */
  lemma {:induction false} PaddedBegins(n: nat, width: nat, k: nat) returns (tail: string)
    requires n < Power10(width + k)
    ensures Padded(n, width + k) == Padded(Dropped(n, k), width) + tail && Dropped(n, k) < Power10(width)
    ensures |tail| == k && forall i :: 0 <= i < k ==> tail[i] in DIGITS
    decreases k
  {
    if k == 0 {
      tail := [];
      assert Padded(n, width) + [] == Padded(n, width);
    } else {
      var rest := PaddedBegins(n / 10, width, k - 1);
      tail := rest + [Digit(n % 10)];
      assert Padded(n, width + k) == Padded(n / 10, width + (k - 1)) + [Digit(n % 10)];
      assert Padded(Dropped(n / 10, k - 1), width) + rest + [Digit(n % 10)] ==
             Padded(Dropped(n / 10, k - 1), width) + tail;
    }
  }

  /** Years as a formatter shows them without an era. */
  predicate Shown(d: Date) {
    d.Valid() && 1 <= d.year
  }

  /** The key of a date: year as it is, month and day in two digits. */
  function DateKey(d: Date): string
    requires Shown(d)
  {
    Decimal(d.year) + "-" + Padded(d.month, 2) + "-" + Padded(d.day, 2)
  }

  /** localDateKey */
  function LocalDateKey(z: Zone, x: int): string
    requires Shown(DateOf(DayOf(Local(z, x))))
  {
    DateKey(DateOf(DayOf(Local(z, x))))
  }

  predicate Before(a: Date, b: Date) {
    a.year < b.year || (a.year == b.year && (a.month < b.month || (a.month == b.month && a.day < b.day)))
  }

  /** The shorter of two years, read against the leading digits of the longer, is the greater. */
  predicate Misordered(m: nat, n: nat) {
    Digits(m) < Digits(n) && m > Dropped(n, Digits(n) - Digits(m))
  }

  lemma DashBeforeDigits(tail: string, x: string, y: string)
    requires tail != [] && tail[0] in DIGITS
    ensures Less("-" + x, tail + y) && !Less(tail + y, "-" + x) && "-" + x != tail + y
  {
    assert forall i :: 0 <= i < 10 ==> '-' < DIGITS[i];
    assert ("-" + x)[0] == '-' && (tail + y)[0] == tail[0];
  }

  /** What follows the year in a key. */
  function AfterYear(d: Date): string
    requires Shown(d)
  {
    "-" + Padded(d.month, 2) + "-" + Padded(d.day, 2)
  }

  lemma KeySplits(d: Date)
    requires Shown(d)
    ensures DateKey(d) == Padded(d.year, Digits(d.year)) + AfterYear(d)
    ensures AfterYear(d) == "-" + (Padded(d.month, 2) + "-" + Padded(d.day, 2))
  {
    DecimalIsPadded(d.year);
  }

  lemma SameLengthKeys(a: Date, b: Date)
    requires Shown(a) && Shown(b) && Digits(a.year) == Digits(b.year)
    ensures Less(DateKey(a), DateKey(b)) <==> Before(a, b)
    ensures DateKey(a) == DateKey(b) <==> a == b
  {
    var w := Digits(a.year);
    KeySplits(a);
    KeySplits(b);
    DigitsBound(a.year);
    DigitsBound(b.year);
    assert Power10(2) == 100;
    PaddedOrdered(a.year, b.year, w);
    PaddedOrdered(a.month, b.month, 2);
    PaddedOrdered(a.day, b.day, 2);
    var ma, mb, da, db := Padded(a.month, 2), Padded(b.month, 2), Padded(a.day, 2), Padded(b.day, 2);
    LexSplits(CharOrder(), Padded(a.year, w), Padded(b.year, w), AfterYear(a), AfterYear(b));
    LexSplits(CharOrder(), "-" + ma + "-", "-" + mb + "-", da, db);
    LexSplits(CharOrder(), "-" + ma, "-" + mb, "-", "-");
    LexSplits(CharOrder(), "-", "-", ma, mb);
    assert !Less("-", "-");
  }

  lemma KeyBegins(d: Date, width: nat) returns (tail: string)
    requires Shown(d) && width < Digits(d.year)
    ensures
      var lead := Dropped(d.year, Digits(d.year) - width);
      DateKey(d) == Padded(lead, width) + (tail + AfterYear(d)) && lead < Power10(width) && tail != [] &&
        tail[0] in DIGITS
  {
    KeySplits(d);
    DigitsBound(d.year);
    tail := PaddedBegins(d.year, width, Digits(d.year) - width);
  }

  lemma ShortAgainstLong(m: nat, lead: nat, w: nat, x: string, tail: string, y: string)
    requires m < Power10(w) && lead < Power10(w) && tail != [] && tail[0] in DIGITS
    ensures
      var short, long := Padded(m, w) + ("-" + x), Padded(lead, w) + (tail + y);
      (Less(short, long) <==> m <= lead) && (Less(long, short) <==> lead < m) && short != long
  {
    PaddedOrdered(m, lead, w);
    PaddedOrdered(lead, m, w);
    DashBeforeDigits(tail, x, y);
    LexSplits(CharOrder(), Padded(m, w), Padded(lead, w), "-" + x, tail + y);
    LexSplits(CharOrder(), Padded(lead, w), Padded(m, w), tail + y, "-" + x);
  }

  /** A shorter year before a longer one in time is before it as a key exactly when it is not misordered. */
  lemma ShorterYearKeys(a: Date, b: Date)
    requires Shown(a) && Shown(b) && Digits(a.year) < Digits(b.year)
    ensures Before(a, b) && !Before(b, a) && DateKey(a) != DateKey(b)
    ensures Less(DateKey(a), DateKey(b)) <==> !Misordered(a.year, b.year)
    ensures Less(DateKey(b), DateKey(a)) <==> Misordered(a.year, b.year)
  {
    var w := Digits(a.year);
    FewerDigitsIsLess(a.year, b.year);
    KeySplits(a);
    DigitsBound(a.year);
    var tail := KeyBegins(b, w);
    var lead := Dropped(b.year, Digits(b.year) - w);
    ShortAgainstLong(a.year, lead, w, Padded(a.month, 2) + "-" + Padded(a.day, 2), tail, AfterYear(b));
  }

  /** Keys are equal exactly for equal dates, and compare as strings the way the dates do exactly when
      neither year is misordered against the other. */
  lemma KeysCompareExactly(a: Date, b: Date)
    requires Shown(a) && Shown(b)
    ensures (Less(DateKey(a), DateKey(b)) <==> Before(a, b)) <==>
            !Misordered(a.year, b.year) && !Misordered(b.year, a.year)
    ensures DateKey(a) == DateKey(b) <==> a == b
  {
    if Digits(a.year) == Digits(b.year) {
      SameLengthKeys(a, b);
    } else if Digits(a.year) < Digits(b.year) {
      ShorterYearKeys(a, b);
    } else {
      ShorterYearKeys(b, a);
    }
  }

  /** The same for the days the keys stand for. */
  lemma KeysFollowDays(a: int, b: int)
    requires Shown(DateOf(a)) && Shown(DateOf(b))
    ensures (Less(DateKey(DateOf(a)), DateKey(DateOf(b))) <==> a < b) <==>
            !Misordered(DateOf(a).year, DateOf(b).year) && !Misordered(DateOf(b).year, DateOf(a).year)
    ensures DateKey(DateOf(a)) == DateKey(DateOf(b)) <==> a == b
  {
    KeysCompareExactly(DateOf(a), DateOf(b));
    if a < b {
      DatesAreOrdered(a, b);
    } else {
      if b < a {
        DatesAreOrdered(b, a);
      }
    }
  }

  lemma FourDigits(n: nat)
    requires 1000 <= n <= 9999
    ensures Digits(n) == 4
  {
    var a := n / 10;
    var b := a / 10;
    var c := b / 10;
    assert 1 <= c < 10 <= b < 100 <= a < 1000;
    assert Digits(c) == 1 && Digits(b) == 1 + Digits(c) && Digits(a) == 1 + Digits(b) && Digits(n) == 1 + Digits(a);
  }

  /** Years of one length, such as 1000 to 9999, are never misordered. */
  lemma FourDigitYearsAgree(m: nat, n: nat)
    requires 1000 <= m <= 9999 && 1000 <= n <= 9999
    ensures !Misordered(m, n)
  {
    FourDigits(m);
    FourDigits(n);
  }

  // ----- the status of a family event -----

  datatype Decision = Proposed | Confirmed | Rejected
  datatype EventStatus = PROPOSED | CONFIRMED | REJECTED | EVENT_DAY | COMPLETED

  function ResolveStatus(decision: Decision, scheduledAt: int, now: int, z: Zone): EventStatus
    requires Shown(DateOf(DayOf(Local(z, scheduledAt)))) && Shown(DateOf(DayOf(Local(z, now))))
  {
    if decision.Proposed? then PROPOSED
    else if decision.Rejected? then REJECTED
    else
      var eventDay, currentDay := LocalDateKey(z, scheduledAt), LocalDateKey(z, now);
      if eventDay == currentDay then EVENT_DAY
      else if Less(eventDay, currentDay) then COMPLETED
      else CONFIRMED
  }

  /** A local date's key is shown exactly between its start and the start of the next date. */
  lemma DayBoundariesAgree(z: Zone, day: int, x: int)
    requires z.Whole(SECOND) && MidnightClear(z, day) && MidnightClear(z, day + 1)
    requires Shown(DateOf(day)) && Shown(DateOf(DayOf(Local(z, x))))
    ensures LocalDateKey(z, x) == DateKey(DateOf(day)) <==> StartUtc(z, day) <= x < StartUtc(z, day + 1)
  {
    RangeHoldsItsDates(z, day, day + 1, x);
    KeysFollowDays(DayOf(Local(z, x)), day);
  }

  /** An event not yet decided, or rejected, says so whatever its date; a confirmed one never does. */
  lemma UndecidedSaysSo(decision: Decision, scheduledAt: int, now: int, z: Zone)
    requires Shown(DateOf(DayOf(Local(z, scheduledAt)))) && Shown(DateOf(DayOf(Local(z, now))))
    ensures ResolveStatus(decision, scheduledAt, now, z) == PROPOSED <==> decision == Proposed
    ensures ResolveStatus(decision, scheduledAt, now, z) == REJECTED <==> decision == Rejected
  {
  }

  /** The status of a confirmed event compares the two local days exactly when neither year is misordered
      against the other. */
  lemma StatusFollowsDays(z: Zone, scheduledAt: int, now: int)
    requires Shown(DateOf(DayOf(Local(z, scheduledAt)))) && Shown(DateOf(DayOf(Local(z, now))))
    ensures
      var day, today := DayOf(Local(z, scheduledAt)), DayOf(Local(z, now));
      (ResolveStatus(Confirmed, scheduledAt, now, z) ==
         if day < today then COMPLETED else if day == today then EVENT_DAY else CONFIRMED) <==>
      !Misordered(DateOf(day).year, DateOf(today).year) && !Misordered(DateOf(today).year, DateOf(day).year)
  {
    KeysFollowDays(DayOf(Local(z, scheduledAt)), DayOf(Local(z, now)));
  }

  /** The status of a confirmed event is its position against today's interval, inside, before or after
      it, exactly when neither year is misordered against the other. */
  lemma ConfirmedIsTrichotomy(z: Zone, scheduledAt: int, now: int)
    requires z.Whole(SECOND)
    requires Shown(DateOf(DayOf(Local(z, scheduledAt)))) && Shown(DateOf(DayOf(Local(z, now))))
    requires
      var today := DayOf(Local(z, now));
      MidnightClear(z, today) && MidnightClear(z, today + 1)
    ensures
      var start, end := StartUtc(z, DayOf(Local(z, now))), StartUtc(z, DayOf(Local(z, now)) + 1);
      var eventYear, year := DateOf(DayOf(Local(z, scheduledAt))).year, DateOf(DayOf(Local(z, now))).year;
      start <= now < end &&
      (ResolveStatus(Confirmed, scheduledAt, now, z) ==
         (if scheduledAt < start then COMPLETED else if scheduledAt < end then EVENT_DAY else CONFIRMED) <==>
       !Misordered(eventYear, year) && !Misordered(year, eventYear))
  {
    var today := DayOf(Local(z, now));
    StartIsRightWhenClear(z, today);
    StartIsRightWhenClear(z, today + 1);
    StatusFollowsDays(z, scheduledAt, now);
    assert DayOf(Local(z, scheduledAt)) >= today <==> scheduledAt >= StartUtc(z, today);
    assert DayOf(Local(z, scheduledAt)) >= today + 1 <==> scheduledAt >= StartUtc(z, today + 1);
  }

  lemma InstantOf(z: Zone, d: Date) returns (t: int)
    requires d.Valid() && z.before == z.after == 0
    ensures DateOf(DayOf(Local(z, t))) == d
  {
    DateOfMadeDay(d);
    t := MakeDay(d.year, d.month - 1, d.day) * DAY;
    SplitInstant(MakeDay(d.year, d.month - 1, d.day), 0);
  }

  lemma LaterDateLaterInstant(z: Zone, s: int, t: int)
    requires z.before == z.after == 0 && Before(DateOf(DayOf(Local(z, s))), DateOf(DayOf(Local(z, t))))
    ensures s < t
  {
    var a, b := DayOf(Local(z, s)), DayOf(Local(z, t));
    if b < a {
      DatesAreOrdered(b, a);
    }
  }

  lemma TenThousandIsLonger()
    ensures Misordered(2026, 10_000)
  {
    assert Digits(2) == 1 && Digits(20) == 2 && Digits(202) == 3 && Digits(2026) == 4;
    assert Digits(1) == 1 && Digits(10) == 2 && Digits(100) == 3 && Digits(1_000) == 4 && Digits(10_000) == 5;
    assert Dropped(10_000, 1) == 1_000;
  }

  /** In 2026 an event planned for the year 10000 is already shown as completed. */
  lemma FarYearIsMisread() returns (scheduledAt: int, now: int)
    ensures
      var z := Zone(0, 0, 0);
      now < scheduledAt && DateOf(DayOf(Local(z, scheduledAt))) == Date(10_000, 1, 1) &&
      DateOf(DayOf(Local(z, now))) == Date(2026, 8, 12) && ResolveStatus(Confirmed, scheduledAt, now, z) == COMPLETED
  {
    var z := Zone(0, 0, 0);
    scheduledAt := InstantOf(z, Date(10_000, 1, 1));
    now := InstantOf(z, Date(2026, 8, 12));
    LaterDateLaterInstant(z, now, scheduledAt);
    TenThousandIsLonger();
    KeysCompareExactly(DateOf(DayOf(Local(z, scheduledAt))), DateOf(DayOf(Local(z, now))));
  }
}
