/** When a notification may be delivered: the quiet window in local time, and the search for the
    instant at which a local time occurs. */
module QuietHours {
  import opened Basics
  import opened CivilCalendar
  import opened Zones

  datatype Preference = Preference(enabled: bool, start: Option<nat>, end: Option<nat>) {
    /** Times of day are minutes since local midnight. */
    predicate Valid() {
      (start.Some? ==> start.value < 1440) && (end.Some? ==> end.value < 1440)
    }
  }

  datatype Parts = Parts(year: int, month: int, day: int, hour: int, minute: int)

  /** What the formatter shows of a local time: whole minutes. */
  function PartsOf(local: int): Parts {
    var d := DateOf(DayOf(local));
    Parts(d.year, d.month, d.day, TimeOf(local) / HOUR, TimeOf(local) / MINUTE % 60)
  }

  /** Date.UTC of the parts. */
  function UtcOf(p: Parts): int {
    MakeDay(p.year, p.month - 1, p.day) * DAY + p.hour * HOUR + p.minute * MINUTE
  }

  function LocalParts(z: Zone, x: int): Parts {
    PartsOf(Local(z, x))
  }

  function MinuteOfDay(local: int): int {
    TimeOf(local) / MINUTE
  }

  function NextDate(p: Parts): Parts {
    var d := DateOf(MakeDay(p.year, p.month - 1, p.day + 1));
    Parts(d.year, d.month, d.day, 0, 0)
  }

  lemma TimeParts(time: int)
    requires 0 <= time < DAY
    ensures time / HOUR * HOUR + time / MINUTE % 60 * MINUTE == time - time % MINUTE
    ensures time / HOUR * 60 + time / MINUTE % 60 == time / MINUTE
  {
    assert time / MINUTE / 60 == time / HOUR;
  }

  /** Formatting and Date.UTC cancel, up to whole minutes. */
  lemma PartsRoundTrip(local: int)
    ensures UtcOf(PartsOf(local)) == Floor(local, MINUTE)
    ensures PartsOf(local).hour * 60 + PartsOf(local).minute == MinuteOfDay(local)
  {
    TimeParts(TimeOf(local));
    DateRoundTrip(DayOf(local), DateOf(DayOf(local)));
    FloorOfDay(local, MINUTE);
  }

  /** Equal dates shown mean equal local days. */
  lemma SameDateSameDay(a: int, b: int)
    ensures DateOf(a) == DateOf(b) <==> a == b
  {
    DateRoundTrip(a, DateOf(a));
    DateRoundTrip(b, DateOf(b));
  }

  // ----- from a local time to an instant -----

  /** The four corrections; `None` when none of them landed. */
  function Corrected(z: Zone, target: int, candidate: int, n: nat): (Option<int>, int)
    decreases n
  {
    if n == 0 then (None, candidate)
    else
      var correction := target - Floor(Local(z, candidate), MINUTE);
      if correction == 0 then (Some(candidate), candidate) else Corrected(z, target, candidate + correction, n - 1)
  }

  predicate Reached(z: Zone, target: int, x: int) {
    DayOf(Local(z, x)) == DayOf(target) && MinuteOfDay(Local(z, x)) >= MinuteOfDay(target)
  }

  /** The first minute step from `x` to `last` that reaches the target. */
  function Scanned(z: Zone, target: int, x: int, last: int): Option<int>
    decreases last - x
  {
    if x > last then None
    else if Reached(z, target, x) then Some(x)
    else Scanned(z, target, x + MINUTE, last)
  }

  /** The scan covers three hours on either side of the last candidate. */
  function ScannedAround(z: Zone, target: int, candidate: int): Option<int> {
    Scanned(z, target, candidate - 180 * MINUTE, candidate + 180 * MINUTE)
  }

  function Resolved(z: Zone, target: int): Option<int> {
    var c := Corrected(z, target, target, 4);
    if c.0.Some? then c.0 else ScannedAround(z, target, c.1)
  }

  predicate ValidParts(p: Parts) {
    Date(p.year, p.month, p.day).Valid() && 0 <= p.hour < 24 && 0 <= p.minute < 60
  }

  lemma MinuteOnDay(day: int, m: int)
    requires 0 <= m < 1440
    ensures DayOf(day * DAY + m * MINUTE) == day
    ensures MinuteOfDay(day * DAY + m * MINUTE) == m
    ensures (day * DAY + m * MINUTE) % MINUTE == 0
  {
    SplitInstant(day, m * MINUTE);
    assert day * DAY + m * MINUTE == (day * 1440 + m) * MINUTE + 0;
    WholeMinutes(day * 1440 + m, 0);
  }

  lemma UtcOfSplits(p: Parts, day: int)
    requires day == MakeDay(p.year, p.month - 1, p.day)
    ensures UtcOf(p) == day * DAY + (p.hour * 60 + p.minute) * MINUTE
  {
  }

  lemma TargetParts(p: Parts, day: int)
    requires ValidParts(p) && day == MakeDay(p.year, p.month - 1, p.day)
    ensures DayOf(UtcOf(p)) == day && DateOf(day) == Date(p.year, p.month, p.day)
    ensures MinuteOfDay(UtcOf(p)) == p.hour * 60 + p.minute
  {
    var utc, m := UtcOf(p), p.hour * 60 + p.minute;
    assert DateOf(day) == Date(p.year, p.month, p.day) by {
      DateRoundTrip(day, Date(p.year, p.month, p.day));
    }
    assert DayOf(utc) == day && MinuteOfDay(utc) == m by {
      UtcOfSplits(p, day);
      MinuteOnDay(day, m);
    }
  }

  /** The scan's comparison of shown parts. */
  predicate ShownReached(actual: Parts, target: Parts) {
    actual.year == target.year && actual.month == target.month && actual.day == target.day &&
    actual.hour * 60 + actual.minute >= target.hour * 60 + target.minute
  }

  lemma ShownReachedIsReached(z: Zone, x: int, target: Parts)
    requires ValidParts(target)
    ensures ShownReached(LocalParts(z, x), target) <==> Reached(z, UtcOf(target), x)
  {
    TargetParts(target, MakeDay(target.year, target.month - 1, target.day));
    PartsRoundTrip(Local(z, x));
    SameDateSameDay(DayOf(Local(z, x)), DayOf(UtcOf(target)));
  }

  method LocalTimeToInstant(z: Zone, target: Parts) returns (instant: Option<int>)
    requires ValidParts(target)
    ensures instant == Resolved(z, UtcOf(target))
  {
    var targetAsUtc := UtcOf(target);
    var candidate := targetAsUtc;
    var attempt := 0;
    while attempt < 4
      invariant 0 <= attempt <= 4
      invariant Corrected(z, targetAsUtc, targetAsUtc, 4) == Corrected(z, targetAsUtc, candidate, 4 - attempt)
    {
      var actualAsUtc := UtcOf(LocalParts(z, candidate));
      PartsRoundTrip(Local(z, candidate));
      var correction := targetAsUtc - actualAsUtc;
      if correction == 0 {
        return Some(candidate);
      }
      candidate := candidate + correction;
      attempt := attempt + 1;
    }
    instant := ScanMinutes(z, target, candidate);
  }

  method ShowsReached(z: Zone, x: int, target: Parts) returns (reached: bool)
    requires ValidParts(target)
    ensures reached <==> Reached(z, UtcOf(target), x)
  {
    var actual := LocalParts(z, x);
    reached := ShownReached(actual, target);
    ShownReachedIsReached(z, x, target);
  }

  method ScanMinutes(z: Zone, target: Parts, candidate: int) returns (instant: Option<int>)
    requires ValidParts(target)
    ensures instant == ScannedAround(z, UtcOf(target), candidate)
  {
    ghost var utc, last := UtcOf(target), candidate + 180 * MINUTE;
    var offsetMinutes := -180;
    while offsetMinutes <= 180
      invariant -180 <= offsetMinutes <= 181
      invariant ScannedAround(z, utc, candidate) == Scanned(z, utc, candidate + offsetMinutes * MINUTE, last)
    {
      var x := candidate + offsetMinutes * MINUTE;
      var reached := ShowsReached(z, x, target);
      if reached {
        return Some(x);
      }
      offsetMinutes := offsetMinutes + 1;
    }
    instant := None;
  }

  // ----- what the search finds -----

  /** The local time occurs at this instant. */
  predicate Occurs(z: Zone, target: int, x: int) {
    Local(z, x) == target
  }

  /** The jump swallows the local time. */
  predicate Skipped(z: Zone, target: int) {
    z.at + z.before <= target < z.at + z.after
  }

  lemma WholeLocal(z: Zone, x: int)
    requires z.Whole(MINUTE) && x % MINUTE == 0
    ensures Local(z, x) % MINUTE == 0 && Floor(Local(z, x), MINUTE) == Local(z, x)
  {
    var a, b := x / MINUTE, Offset(z, x) / MINUTE;
    assert Local(z, x) == (a + b) * MINUTE + 0;
    WholeMinutes(a + b, 0);
  }

  lemma OneCorrection(z: Zone, target: int, x: int, n: nat)
    requires z.Whole(MINUTE) && target % MINUTE == 0 && x % MINUTE == 0 && n > 0
    ensures Corrected(z, target, x, n) ==
            if Occurs(z, target, x) then (Some(x), x) else Corrected(z, target, target - Offset(z, x), n - 1)
    ensures (target - Offset(z, x)) % MINUTE == 0
  {
    WholeLocal(z, x);
    var a, b := target / MINUTE, Offset(z, x) / MINUTE;
    assert target - Offset(z, x) == (a - b) * MINUTE + 0;
    WholeMinutes(a - b, 0);
  }

  /** The corrections settle on the occurrence before the change, judged from the local time read as UTC. */
  predicate PicksEarlier(z: Zone, target: int) {
    if target < z.at then target - z.before < z.at else target - z.after < z.at
  }

  /** A local time that occurs, once or twice, is found by at most three corrections; of two occurrences
      the choice is fixed. */
  lemma OccurringIsFound(z: Zone, target: int)
    requires z.Whole(MINUTE) && target % MINUTE == 0 && !Skipped(z, target)
    ensures Resolved(z, target) == Some(if PicksEarlier(z, target) then target - z.before else target - z.after)
    ensures Occurs(z, target, Resolved(z, target).value) && Resolved(z, target).value % MINUTE == 0
  {
    var c1 := target - Offset(z, target);
    OneCorrection(z, target, target, 4);
    if !Occurs(z, target, target) {
      OneCorrection(z, target, c1, 3);
      if !Occurs(z, target, c1) {
        OneCorrection(z, target, target - Offset(z, c1), 2);
      }
    }
  }

  /** From either offset's guess at a skipped local time, each correction leads to the other's. */
  lemma {:induction false} SwingGivesUp(z: Zone, target: int, x: int, n: nat)
    requires z.Whole(MINUTE) && target % MINUTE == 0 && x % MINUTE == 0 && Skipped(z, target)
    requires x == target - z.before || x == target - z.after
    ensures Corrected(z, target, x, n).0.None?
    ensures Corrected(z, target, x, n).1 == target - z.before || Corrected(z, target, x, n).1 == target - z.after
    ensures Corrected(z, target, x, n).1 % MINUTE == 0
    decreases n
  {
    if n > 0 {
      OneCorrection(z, target, x, n);
      SwingGivesUp(z, target, target - Offset(z, x), n - 1);
    }
  }

  /** In the gap the corrections swing between the two offsets and give up on one of the two. */
  lemma SkippedSwings(z: Zone, target: int)
    requires z.Whole(MINUTE) && target % MINUTE == 0 && Skipped(z, target)
    ensures Corrected(z, target, target, 4).0.None?
    ensures Corrected(z, target, target, 4).1 == target - z.before ||
            Corrected(z, target, target, 4).1 == target - z.after
    ensures Corrected(z, target, target, 4).1 % MINUTE == 0
  {
    OneCorrection(z, target, target, 4);
    SwingGivesUp(z, target, target - Offset(z, target), 3);
  }

  /** The scan returns the first of its steps that reaches the target. */
  lemma {:induction false} ScanFindsFirst(z: Zone, target: int, x: int, last: int, n: nat)
    requires x + n * MINUTE <= last && Reached(z, target, x + n * MINUTE)
    requires forall y :: x <= y < x + n * MINUTE ==> !Reached(z, target, y)
    ensures Scanned(z, target, x, last) == Some(x + n * MINUTE)
    decreases n
  {
    if n > 0 {
      ScanFindsFirst(z, target, x + MINUTE, last, n - 1);
    }
  }

  lemma {:induction false} ScanFindsNone(z: Zone, target: int, x: int, last: int)
    requires forall y :: x <= y <= last ==> !Reached(z, target, y)
    ensures Scanned(z, target, x, last) == None
    decreases last - x
  {
    if x <= last {
      ScanFindsNone(z, target, x + MINUTE, last);
    }
  }

  lemma ReachedMeansLater(z: Zone, target: int, x: int)
    requires target % MINUTE == 0
    ensures Reached(z, target, x) ==> Local(z, x) >= target
  {
    var a, b := TimeOf(Local(z, x)), TimeOf(target);
    FloorOfDay(target, MINUTE);
    assert b % MINUTE == 0;
    assert b == b / MINUTE * MINUTE && a >= a / MINUTE * MINUTE;
  }

  /** The first instant of the local day after the jump reaches any skipped target of its day. */
  lemma JumpReaches(z: Zone, target: int)
    requires Skipped(z, target)
    ensures Reached(z, target, z.at) <==> DayOf(z.at + z.after) == DayOf(target)
  {
    var l := Local(z, z.at);
    assert l > target;
    if DayOf(l) == DayOf(target) {
      assert TimeOf(l) >= TimeOf(target);
    }
  }

  lemma DaysGrow(a: int, b: int)
    requires a <= b
    ensures DayOf(a) <= DayOf(b)
  {
  }

  /** No instant before the jump reaches a skipped target, and none at all when the jump lands on
      another day. */
  lemma NotReached(z: Zone, target: int, x: int)
    requires target % MINUTE == 0 && Skipped(z, target)
    requires x < z.at || DayOf(z.at + z.after) != DayOf(target)
    ensures !Reached(z, target, x)
  {
    ReachedMeansLater(z, target, x);
    DaysGrow(target, z.at + z.after);
    if x >= z.at {
      DaysGrow(z.at + z.after, Local(z, x));
    }
  }

  /** Whole minutes from the start of the scan to the jump. */
  lemma StepsToJump(z: Zone, target: int, c: int) returns (n: nat)
    requires z.at % MINUTE == 0 && c % MINUTE == 0 && Skipped(z, target) && z.after - z.before <= 180 * MINUTE
    requires c == target - z.before || c == target - z.after
    ensures c - 180 * MINUTE + n * MINUTE == z.at <= c + 180 * MINUTE
  {
    n := z.at / MINUTE - c / MINUTE + 180;
  }

  lemma JumpIsScanned(z: Zone, target: int, c: int)
    requires z.at % MINUTE == 0 && target % MINUTE == 0 && c % MINUTE == 0
    requires Skipped(z, target) && z.after - z.before <= 180 * MINUTE
    requires c == target - z.before || c == target - z.after
    ensures ScannedAround(z, target, c) == if DayOf(z.at + z.after) == DayOf(target) then Some(z.at) else None
  {
    var n := StepsToJump(z, target, c);
    JumpReaches(z, target);
    forall y | y < z.at || DayOf(z.at + z.after) != DayOf(target)
      ensures !Reached(z, target, y)
    {
      NotReached(z, target, y);
    }
    if DayOf(z.at + z.after) == DayOf(target) {
      ScanFindsFirst(z, target, c - 180 * MINUTE, c + 180 * MINUTE, n);
    } else {
      ScanFindsNone(z, target, c - 180 * MINUTE, c + 180 * MINUTE);
    }
  }

  /** A forward jump of at most three hours that swallows the local time: the search returns exactly
      the jump when it lands on the same local date, and fails otherwise. */
  lemma SkippedResolvesToJump(z: Zone, target: int)
    requires z.Whole(MINUTE) && target % MINUTE == 0 && Skipped(z, target) && z.after - z.before <= 180 * MINUTE
    ensures Resolved(z, target) == if DayOf(z.at + z.after) == DayOf(target) then Some(z.at) else None
  {
    SkippedSwings(z, target);
    JumpIsScanned(z, target, Corrected(z, target, target, 4).1);
  }

  // ----- the quiet window -----

  predicate InWindow(m: int, start: int, end: int) {
    if start > end then m >= start || m < end else start <= m < end
  }

  predicate Active(p: Preference) {
    p.enabled && p.start.Some? && p.end.Some? && p.start != p.end
  }

  /** The local time is inside the quiet window. */
  predicate Quiet(p: Preference, local: int) {
    Active(p) && InWindow(MinuteOfDay(local), p.start.value, p.end.value)
  }

  /** The local time at which the quiet window containing `local` ends. */
  function WindowEnd(p: Preference, local: int): int
    requires Active(p)
  {
    var day := if p.start.value > p.end.value && MinuteOfDay(local) >= p.start.value then DayOf(local) + 1
        else DayOf(local);
    day * DAY + p.end.value * MINUTE
  }

  /** The service's answer; `None` is the error it throws. */
  function AllowedAt(z: Zone, p: Preference, now: int): Option<int> {
    if Quiet(p, Local(z, now)) then Resolved(z, WindowEnd(p, Local(z, now))) else Some(now)
  }

  lemma NextDateIsNextDay(local: int)
    ensures
      var n := NextDate(PartsOf(local));
      Date(n.year, n.month, n.day) == DateOf(DayOf(local) + 1)
  {
    DayNumberOf(DayOf(local), 1);
  }

  lemma EndOn(date: Parts, end: nat, day: int)
    requires Date(date.year, date.month, date.day) == DateOf(day) && end < 1440
    ensures
      var target := date.(hour := end / 60, minute := end % 60);
      ValidParts(target) && UtcOf(target) == day * DAY + end * MINUTE
  {
    DateRoundTrip(day, DateOf(day));
    assert end / 60 * HOUR + end % 60 * MINUTE == end * MINUTE;
  }

  /** The parts the service assembles are those of the end of the window. */
  lemma TargetIsWindowEnd(p: Preference, local: int, date: Parts)
    requires p.Valid() && Active(p)
    requires date == if p.start.value > p.end.value && MinuteOfDay(local) >= p.start.value
                     then NextDate(PartsOf(local)) else PartsOf(local)
    ensures
      var target := date.(hour := p.end.value / 60, minute := p.end.value % 60);
      ValidParts(target) && UtcOf(target) == WindowEnd(p, local)
  {
    if p.start.value > p.end.value && MinuteOfDay(local) >= p.start.value {
      NextDateIsNextDay(local);
      EndOn(date, p.end.value, DayOf(local) + 1);
    } else {
      EndOn(date, p.end.value, DayOf(local));
    }
  }

  /** The first `n` minutes of the day counted from `start` on, around midnight. */
  function Minutes(start: nat, n: nat): set<int> {
    if n == 0 then {} else Minutes(start, n - 1) + {(start + n - 1) % 1440}
  }

  lemma Behind(start: nat, k: nat, m: nat)
    requires start < 1440 && k < 1440 && m < 1440
    ensures m == (start + k) % 1440 <==> (m - start) % 1440 == k
  {
    assert (start + k) % 1440 == if start + k < 1440 then start + k else start + k - 1440;
    assert (m - start) % 1440 == if m >= start then m - start else m - start + 1440;
  }

  lemma {:induction false} MinutesAreBehind(start: nat, n: nat, m: nat)
    requires start < 1440 && n <= 1440 && m < 1440
    ensures m in Minutes(start, n) <==> (m - start) % 1440 < n
  {
    if n != 0 {
      MinutesAreBehind(start, n - 1, m);
      Behind(start, n - 1, m);
    }
  }

  lemma {:induction false} CountMinutes(start: nat, n: nat)
    requires start < 1440 && n <= 1440
    ensures |Minutes(start, n)| == n
  {
    if n != 0 {
      CountMinutes(start, n - 1);
      var last := (start + n - 1) % 1440;
      Behind(start, n - 1, last);
      MinutesAreBehind(start, n - 1, last);
    }
  }

  /** Exactly the quiet minutes: none when the preference is off, lacks a bound or has equal ones, otherwise
      those counted from the start up to the end around midnight, (end - start) mod 1440 of them. */
  lemma QuietMinutesExactly(p: Preference, local: int)
    requires p.Valid()
    ensures !p.enabled || p.start.None? || p.end.None? || p.start == p.end ==> !Quiet(p, local)
    ensures
      p.enabled && p.start.Some? && p.end.Some? && p.start != p.end ==>
        var n := (p.end.value - p.start.value) % 1440;
        (Quiet(p, local) <==> (local / 60_000) % 1440 in Minutes(p.start.value, n)) &&
        |Minutes(p.start.value, n)| == n
  {
    if p.start.Some? && p.end.Some? && p.start != p.end {
      var start: int, end: int, m := p.start.value, p.end.value, MinuteOfDay(local);
      var n: nat := (end - start) % 1440;
      MinuteShown(local);
      CountMinutes(start, n);
      MinutesAreBehind(start, n, m);
      InsideIsBehind(start, end, m);
    }
  }

  lemma MinuteShown(local: int)
    ensures (local / 60_000) % 1440 == MinuteOfDay(local)
    ensures 0 <= MinuteOfDay(local) < 1440
  {
  }

  lemma InsideIsBehind(start: nat, end: nat, m: nat)
    requires start < 1440 && end < 1440 && m < 1440 && start != end
    ensures InWindow(m, start, end) <==> (m - start) % 1440 < (end - start) % 1440
  {
    assert (end - start) % 1440 == if start < end then end - start else end - start + 1440;
    assert (m - start) % 1440 == if m >= start then m - start else m - start + 1440;
  }

  method NextAllowedAt(now: int, z: Zone, preference: Preference) returns (r: Option<int>)
    requires preference.Valid()
    ensures r == AllowedAt(z, preference, now)
    ensures !preference.enabled ==> r == Some(now)
    ensures preference.start.None? || preference.end.None? || preference.start == preference.end ==> r == Some(now)
    ensures
      preference.start.Some? && preference.end.Some? &&
      (Local(z, now) / 60_000) % 1440 !in
        Minutes(preference.start.value, (preference.end.value - preference.start.value) % 1440) ==>
        r == Some(now)
  {
    QuietMinutesExactly(preference, Local(z, now));
    if !preference.enabled || preference.start.None? || preference.end.None? || preference.start == preference.end {
      return Some(now);
    }
    var local := LocalParts(z, now);
    PartsRoundTrip(Local(z, now));
    var currentMinute := local.hour * 60 + local.minute;
    var startMinute, endMinute := preference.start.value, preference.end.value;
    var crossesMidnight := startMinute > endMinute;
    var inside := if crossesMidnight then currentMinute >= startMinute || currentMinute < endMinute
                  else currentMinute >= startMinute && currentMinute < endMinute;
    if !inside {
      return Some(now);
    }
    var targetDate := if crossesMidnight && currentMinute >= startMinute then NextDate(local) else local;
    TargetIsWindowEnd(preference, Local(z, now), targetDate);
    var target := targetDate.(hour := endMinute / 60, minute := endMinute % 60);
    r := LocalTimeToInstant(z, target);
  }

  lemma MinuteOn(day: int, local: int)
    requires day * DAY <= local < (day + 1) * DAY
    ensures DayOf(local) == day && MinuteOfDay(local) == (local - day * DAY) / MINUTE
  {
  }

  /** From a quiet local time until the end of its window every local time is quiet, and the end
      itself is not. */
  lemma WindowIsQuiet(p: Preference, local: int, l: int)
    requires p.Valid() && Quiet(p, local)
    ensures WindowEnd(p, local) > local && WindowEnd(p, local) % MINUTE == 0 && !Quiet(p, WindowEnd(p, local))
    ensures local <= l < WindowEnd(p, local) ==> Quiet(p, l)
  {
    var day, m := DayOf(local), MinuteOfDay(local);
    var start, end := p.start.value, p.end.value;
    var last := if start > end && m >= start then day + 1 else day;
    assert local == day * DAY + TimeOf(local);
    assert TimeOf(local) / MINUTE == m;
    MinuteOn(last, last * DAY + end * MINUTE);
    assert last * DAY + end * MINUTE == (last * 1440 + end) * MINUTE + 0;
    WholeMinutes(last * 1440 + end, 0);
    if local <= l < WindowEnd(p, local) {
      if l < (day + 1) * DAY {
        MinuteOn(day, l);
        assert MinuteOfDay(l) >= m;
      } else {
        MinuteOn(day + 1, l);
      }
    }
  }

  lemma SameSideIncreases(z: Zone, x: int, y: int)
    requires x < z.at <==> y < z.at
    ensures Local(z, x) < Local(z, y) <==> x < y
  {
  }

  /** The answer is the least instant from now on outside the quiet window. */
  ghost predicate IsLeast(z: Zone, p: Preference, now: int, r: int) {
    r >= now && !Quiet(p, Local(z, r)) && forall x :: now <= x < r ==> Quiet(p, Local(z, x))
  }

  /** The change of offset does not come between now and the end of the window, or it passes inside the
      window: the end has not come before it, and local time resumes at the end or in the same window. */
  predicate ChangeIsHarmless(z: Zone, p: Preference, now: int)
    requires Active(p)
  {
    var end := WindowEnd(p, Local(z, now));
    if now >= z.at then !PicksEarlier(z, end)
    else
      || PicksEarlier(z, end)
      || (z.at + z.before <= end &&
          (z.at + z.after == end || (Quiet(p, z.at + z.after) && WindowEnd(p, z.at + z.after) == end)))
  }

  lemma SameSideIsLeast(z: Zone, p: Preference, now: int, r: int)
    requires p.Valid() && Quiet(p, Local(z, now)) && Local(z, r) == WindowEnd(p, Local(z, now))
    requires now < z.at <==> r < z.at
    ensures IsLeast(z, p, now, r)
  {
    WindowIsQuiet(p, Local(z, now), Local(z, r));
    SameSideIncreases(z, now, r);
    forall x | now <= x < r
      ensures Quiet(p, Local(z, x))
    {
      SameSideIncreases(z, x, r);
      SameSideIncreases(z, now, x);
      WindowIsQuiet(p, Local(z, now), Local(z, x));
    }
  }

  lemma AcrossIsLeast(z: Zone, p: Preference, now: int, r: int)
    requires p.Valid() && Quiet(p, Local(z, now)) && Local(z, r) == WindowEnd(p, Local(z, now)) && now < z.at <= r
    requires z.at + z.before <= Local(z, r)
    requires z.at + z.after == Local(z, r) || (Quiet(p, z.at + z.after) && WindowEnd(p, z.at + z.after) == Local(z, r))
    ensures IsLeast(z, p, now, r)
  {
    WindowIsQuiet(p, Local(z, now), Local(z, r));
    forall x | now <= x < r
      ensures Quiet(p, Local(z, x))
    {
      if x < z.at {
        WindowIsQuiet(p, Local(z, now), Local(z, x));
      } else {
        WindowIsQuiet(p, z.at + z.after, Local(z, x));
      }
    }
  }

  /** An instant between now and the answer at which delivery would already have been allowed. */
  lemma AcrossIsNotLeast(z: Zone, p: Preference, now: int, r: int)
    requires p.Valid() && Quiet(p, Local(z, now)) && Local(z, r) == WindowEnd(p, Local(z, now)) && now < z.at <= r
    requires
      || z.at + z.before > Local(z, r)
      || (z.at + z.after != Local(z, r) && !(Quiet(p, z.at + z.after) && WindowEnd(p, z.at + z.after) == Local(z, r)))
    ensures exists x :: now <= x < r && !Quiet(p, Local(z, x))
  {
    var end := Local(z, r);
    WindowIsQuiet(p, Local(z, now), end);
    if z.at + z.before > end {
      assert Local(z, end - z.before) == end;
    } else if !Quiet(p, z.at + z.after) {
      assert Local(z, z.at) == z.at + z.after;
    } else {
      var other := WindowEnd(p, z.at + z.after);
      WindowIsQuiet(p, z.at + z.after, end);
      assert other < end;
      assert Local(z, other - z.after) == other;
    }
  }

  /** Exactly when the answer is right, in every zone with one change of offset, forward or back, for a
      window end that occurs. */
  lemma AllowedIsLeastExactly(z: Zone, p: Preference, now: int)
    requires p.Valid() && z.Whole(MINUTE) && Quiet(p, Local(z, now)) && !Skipped(z, WindowEnd(p, Local(z, now)))
    ensures AllowedAt(z, p, now).Some?
    ensures IsLeast(z, p, now, AllowedAt(z, p, now).value) <==> ChangeIsHarmless(z, p, now)
    ensures AllowedAt(z, p, AllowedAt(z, p, now).value) == AllowedAt(z, p, now)
  {
    var end := WindowEnd(p, Local(z, now));
    WindowIsQuiet(p, Local(z, now), end);
    OccurringIsFound(z, end);
    var r := AllowedAt(z, p, now).value;
    if now < z.at <==> r < z.at {
      SameSideIsLeast(z, p, now, r);
    } else if now < z.at {
      if ChangeIsHarmless(z, p, now) {
        AcrossIsLeast(z, p, now, r);
      } else {
        AcrossIsNotLeast(z, p, now, r);
      }
    }
  }

  /** When clocks go back the repeated hour can be resolved to its first pass: between the two passes of a
      window end the answer lies in the past, so delivery is not held back at all. */
  lemma RepeatedHourAnswersInThePast()
    ensures
      var z, p, now := Zone(6 * HOUR, -4 * HOUR, -5 * HOUR), Preference(true, Some(1380), Some(90)),
          6 * HOUR + 10 * MINUTE;
      p.Valid() && Quiet(p, Local(z, now)) && AllowedAt(z, p, now) == Some(5 * HOUR + 30 * MINUTE) &&
      AllowedAt(z, p, now).value < now
  {
    var z, p, now := Zone(6 * HOUR, -4 * HOUR, -5 * HOUR), Preference(true, Some(1380), Some(90)),
        6 * HOUR + 10 * MINUTE;
    assert Local(z, now) == HOUR + 10 * MINUTE;
    MinuteOn(0, Local(z, now));
    assert WindowEnd(p, Local(z, now)) == 90 * MINUTE;
    OccurringIsFound(z, 90 * MINUTE);
  }

  /** With clocks that never go back and a window end that occurs: the answer is the least instant
      from now on outside the quiet window, and asking again there changes nothing. */
  lemma AllowedIsLeast(z: Zone, p: Preference, now: int, x: int)
    requires p.Valid() && z.Whole(MINUTE) && z.Forward()
    requires Quiet(p, Local(z, now)) ==> !Skipped(z, WindowEnd(p, Local(z, now)))
    ensures AllowedAt(z, p, now).Some?
    ensures
      var r := AllowedAt(z, p, now).value;
      r >= now && !Quiet(p, Local(z, r)) && (now <= x < r ==> Quiet(p, Local(z, x))) && AllowedAt(z, p, r) == Some(r)
  {
    var local := Local(z, now);
    if Quiet(p, local) {
      WindowIsQuiet(p, local, Local(z, x));
      OccurringIsFound(z, WindowEnd(p, local));
      var r := AllowedAt(z, p, now).value;
      if r < now {
        LocalIncreases(z, r, now);
      }
      if now < x < r {
        LocalIncreases(z, now, x);
      }
      if x < r {
        LocalIncreases(z, x, r);
      }
    }
  }

  /** A constant whole-minute offset never skips anything. */
  lemma ConstantOffset(offset: int, at: int, p: Preference, now: int, x: int)
    requires p.Valid() && offset % MINUTE == 0 && at % MINUTE == 0
    ensures
      var z := Zone(at, offset, offset);
      AllowedAt(z, p, now).Some? &&
      (var r := AllowedAt(z, p, now).value;
       r >= now && !Quiet(p, Local(z, r)) && (now <= x < r ==> Quiet(p, Local(z, x))) && AllowedAt(z, p, r) == Some(r))
  {
    AllowedIsLeast(Zone(at, offset, offset), p, now, x);
  }

  /** A forward jump of at most three hours swallows the end of the window: the search answers exactly the
      jump, everything before which is quiet, and it fails exactly when the jump also crosses local
      midnight. The jump itself is outside the window, and asking again there changes nothing, exactly when
      the local time it lands on is not in the next window. */
  lemma JumpOverWindowEnd(z: Zone, p: Preference, now: int, x: int)
    requires p.Valid() && z.Whole(MINUTE) && z.Forward() && z.after - z.before <= 180 * MINUTE
    requires Quiet(p, Local(z, now)) && Skipped(z, WindowEnd(p, Local(z, now)))
    ensures AllowedAt(z, p, now) == if DayOf(z.at + z.after) == DayOf(WindowEnd(p, Local(z, now))) then Some(z.at)
            else None
    ensures z.at > now
    ensures now <= x < z.at ==> Quiet(p, Local(z, x))
    ensures
      var landsInWindow := InWindow(MinuteOfDay(z.at + z.after), p.start.value, p.end.value);
      (!Quiet(p, Local(z, z.at)) <==> !landsInWindow) && (AllowedAt(z, p, z.at) == Some(z.at) <==> !landsInWindow)
  {
    var local := Local(z, now);
    WindowIsQuiet(p, local, Local(z, x));
    SkippedResolvesToJump(z, WindowEnd(p, local));
    if now < x {
      LocalIncreases(z, now, x);
    }
    var landed := Local(z, z.at);
    if Quiet(p, landed) {
      WindowIsQuiet(p, landed, landed);
      OccurringIsFound(z, WindowEnd(p, landed));
    }
  }

  /** Quiet from 02:45 to 02:30, and a jump from 02:00 to 03:00: the answer at 01:00 is the jump, which is
      already in the next window. */
  lemma JumpIntoNextWindow()
    ensures
      var z, p := Zone(2 * HOUR, 0, HOUR), Preference(true, Some(165), Some(150));
      p.Valid() && Quiet(p, Local(z, HOUR)) && AllowedAt(z, p, HOUR) == Some(z.at) && Quiet(p, Local(z, z.at))
  {
    var z, p := Zone(2 * HOUR, 0, HOUR), Preference(true, Some(165), Some(150));
    MinuteOn(0, HOUR);
    MinuteOn(0, 3 * HOUR);
    MinuteOn(0, 150 * MINUTE);
    assert WindowEnd(p, Local(z, HOUR)) == 150 * MINUTE;
    SkippedResolvesToJump(z, 150 * MINUTE);
  }

  /** Quiet from 22:00 to 23:30, and a jump from 23:00 to midnight: at 22:30 the search finds nothing and the
      service throws. */
  lemma JumpToMidnightThrows()
    ensures
      var z, p, now := Zone(HOUR, -2 * HOUR, -HOUR), Preference(true, Some(1320), Some(1410)), 30 * MINUTE;
      p.Valid() && Quiet(p, Local(z, now)) && AllowedAt(z, p, now) == None
  {
    var z, p, now := Zone(HOUR, -2 * HOUR, -HOUR), Preference(true, Some(1320), Some(1410)), 30 * MINUTE;
    MinuteOnDay(-1, 1350);
    MinuteOnDay(-1, 1410);
    MinuteOnDay(0, 0);
    assert Local(z, now) == -1 * DAY + 1350 * MINUTE;
    assert WindowEnd(p, Local(z, now)) == -1 * DAY + 1410 * MINUTE;
    SkippedResolvesToJump(z, -1 * DAY + 1410 * MINUTE);
  }
}
