/** A time zone as an offset function of the instant, with at most one change of offset. */
module Zones {
  import opened CivilCalendar

  /** Before `at` local time is UTC plus `before`, from `at` on it is UTC plus `after`. A zone of
      constant offset has both equal. */
  datatype Zone = Zone(at: int, before: int, after: int) {
    predicate Whole(unit: int)
      requires 0 < unit
    {
      at % unit == 0 && before % unit == 0 && after % unit == 0
    }

    /** The clocks never go back. */
    predicate Forward() {
      before <= after
    }
  }

  function Offset(z: Zone, x: int): int {
    if x < z.at then z.before else z.after
  }

  function Local(z: Zone, x: int): int {
    x + Offset(z, x)
  }

  function Floor(t: int, unit: int): int
    requires 0 < unit
  {
    t - t % unit
  }

  lemma LocalIncreases(z: Zone, x: int, y: int)
    requires z.Forward() && x < y
    ensures Local(z, x) < Local(z, y)
  {
  }

  lemma WholeSeconds(k: int, t: int)
    ensures (k * SECOND + t) % SECOND == t % SECOND
  {
  }

  lemma WholeMinutes(k: int, t: int)
    ensures (k * MINUTE + t) % MINUTE == t % MINUTE
  {
  }

  /** Flooring an instant floors its time of day. */
  lemma FloorOfDay(local: int, unit: int)
    requires unit == SECOND || unit == MINUTE
    ensures DayOf(local) * DAY + (TimeOf(local) - TimeOf(local) % unit) == Floor(local, unit)
  {
    var q, t := DayOf(local), TimeOf(local);
    assert local == q * DAY + t;
    if unit == SECOND {
      assert local == (q * 86_400) * SECOND + t;
      WholeSeconds(q * 86_400, t);
    } else {
      assert local == (q * 1440) * MINUTE + t;
      WholeMinutes(q * 1440, t);
    }
  }
}
