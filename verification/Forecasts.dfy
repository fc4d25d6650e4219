/** Recurring payments and their forecast rows: creation, versioned updates, the scheduler's
    compare-and-set advance, archiving and reminder delivery, by any number of workers. */
module Forecasts {
  import opened Basics
  import opened CivilCalendar
  import opened Recurrence

  type Id = string

  datatype Payment = Payment(
    schedule: Schedule, nextDueAt: int, reminderOffset: Option<nat>, active: bool, archived: bool, version: nat)
  datatype Forecast = Forecast(reminderAt: int, sent: bool)

  /** A forecast row is identified by its payment and due date, which the table keeps unique. */
  datatype Tables = Tables(payments: map<Id, Payment>, forecasts: map<(Id, int), Forecast>)

  /** The fields a request sets; it may set the reminder offset to none. */
  datatype Changes = Changes(
    nextDueAt: Option<int>, schedule: Option<Schedule>, reminderOffset: Option<Option<nat>>, active: Option<bool>)

  function ReminderAt(dueAt: int, offset: Option<nat>): int {
    dueAt - (if offset.Some? then offset.value else 0) * MINUTE
  }

  /** Inserts a forecast row, or reports the violated unique index. */
  function Insert(t: Tables, id: Id, dueAt: int, offset: Option<nat>): Result<Tables, ()> {
    if (id, dueAt) in t.forecasts then Err(())
    else Ok(t.(forecasts := t.forecasts[(id, dueAt) := Forecast(ReminderAt(dueAt, offset), false)]))
  }

  function OrElse<T>(r: Result<T, ()>, old_: T): T {
    if r.Ok? then r.value else old_
  }

  function CreatePayment(t: Tables, id: Id, p: Schedule, dueAt: int, offset: Option<nat>, now: int): Tables {
    if id in t.payments || dueAt <= now || !p.Valid() then t
    else
      var t' := t.(payments := t.payments[id := Payment(p, dueAt, offset, true, false, 1)]);
      OrElse(Insert(t', id, dueAt, offset), t)
  }

  function DropUnsent(t: Tables, id: Id): Tables {
    t.(forecasts := map k | k in t.forecasts && (k.0 == id ==> t.forecasts[k].sent) :: t.forecasts[k])
  }

  function Changed(p: Payment, c: Changes, offset: Option<nat>): Payment {
    Payment(if c.schedule.Some? then c.schedule.value else p.schedule,
            if c.nextDueAt.Some? then c.nextDueAt.value else p.nextDueAt,
            offset,
            if c.active.Some? then c.active.value else p.active,
            p.archived, p.version + 1)
  }

  predicate Guarded(t: Tables, id: Id, version: nat) {
    id in t.payments && t.payments[id].version == version && !t.payments[id].archived
  }

  /** The update transaction. `seen` is the row read before it; the guard compares the row's
      version with `expected` when given and with `seen.version` otherwise. A forecast that clashes
      with one already sent rolls the whole transaction back. */
  function FinishUpdate(t: Tables, id: Id, seen: Payment, c: Changes, expected: Option<nat>): Tables {
    var dueAt := if c.nextDueAt.Some? then c.nextDueAt.value else seen.nextDueAt;
    var offset := if c.reminderOffset.Some? then c.reminderOffset.value else seen.reminderOffset;
    if !Guarded(t, id, if expected.Some? then expected.value else seen.version) then t
    else
      var t' := t.(payments := t.payments[id := Changed(t.payments[id], c, offset)]);
      if c.nextDueAt.None? && c.reminderOffset.None? then t'
      else OrElse(Insert(DropUnsent(t', id), id, dueAt, offset), t)
  }

  /** The scheduler's transaction: advance the row it read, if it is still that row. */
  function FinishAdvance(t: Tables, id: Id, seen: Payment, next: int): Result<Tables, ()> {
    if id in t.payments && t.payments[id].active && !t.payments[id].archived &&
       t.payments[id].nextDueAt == seen.nextDueAt && t.payments[id].version == seen.version
    then
      Insert(t.(payments := t.payments[id := t.payments[id].(nextDueAt := next, version := seen.version + 1)]),
             id, next, seen.reminderOffset)
    else Ok(t)
  }

  function SetArchived(t: Tables, id: Id, archived: bool, expected: Option<nat>): Tables {
    if id in t.payments && t.payments[id].archived != archived &&
       (expected.Some? ==> expected.value == t.payments[id].version)
    then
      t.(payments := t.payments[id := t.payments[id].(
        archived := archived, active := !archived, version := t.payments[id].version + 1)])
    else t
  }

  /** The claim of a due reminder. */
  function MarkSent(t: Tables, id: Id, dueAt: int, now: int): Tables {
    if (id, dueAt) in t.forecasts && !t.forecasts[(id, dueAt)].sent && t.forecasts[(id, dueAt)].reminderAt <= now &&
       id in t.payments && t.payments[id].active && !t.payments[id].archived
    then
      t.(forecasts := t.forecasts[(id, dueAt) := t.forecasts[(id, dueAt)].(sent := true)])
    else t
  }

  predicate Due(p: Payment, now: int) {
    p.active && !p.archived && p.nextDueAt <= now && p.schedule.Valid()
  }

  /** The date the scheduler advances a payment to. */
  function NextDate(p: Payment, now: int): int
    requires p.schedule.Valid()
  {
    FirstFrom(Next(p.nextDueAt, p.schedule), p.schedule, now + 1)
  }

  /** A due payment whose forecast of that date is already there: inserting it violates the unique
      index. */
  predicate Blocked(t: Tables, id: Id, now: int) {
    id in t.payments && Due(t.payments[id], now) && (id, NextDate(t.payments[id], now)) in t.forecasts
  }

  // ----- runs -----

  datatype Work =
    | Updating(id: Id, seen: Payment, changes: Changes, expected: Option<nat>)
    | Advancing(id: Id, seen: Payment, next: int, at: int)

  /** `advanced` records which version of which payment each successful advance consumed. */
  datatype System = System(tables: Tables, work: map<nat, Work>, advanced: seq<(Id, nat)>)

  datatype Event =
    | Create(id: Id, schedule: Schedule, dueAt: int, offset: Option<nat>, now: int)
    | ReadForUpdate(worker: nat, id: Id, changes: Changes, expected: Option<nat>, now: int)
    | ReadDue(worker: nat, id: Id, now: int)
    | Finish(worker: nat)
    | Archive(id: Id, archived: bool, expected: Option<nat>)
    | Remind(id: Id, dueAt: int, now: int)

  predicate Acceptable(c: Changes, now: int) {
    (c.nextDueAt.Some? ==> c.nextDueAt.value > now) && (c.schedule.Some? ==> c.schedule.value.Valid())
  }

  function Step(y: System, e: Event): System {
    match e
    case Create(id, p, dueAt, offset, now) => y.(tables := CreatePayment(y.tables, id, p, dueAt, offset, now))
    case ReadForUpdate(w, id, c, expected, now) =>
      if w in y.work || id !in y.tables.payments || y.tables.payments[id].archived || !Acceptable(c, now) then y
      else y.(work := y.work[w := Updating(id, y.tables.payments[id], c, expected)])
    case ReadDue(w, id, now) =>
      if w in y.work || id !in y.tables.payments || !Due(y.tables.payments[id], now) then y
      else
        var p := y.tables.payments[id];
        y.(work := y.work[w := Advancing(id, p, NextDate(p, now), now)])
    case Finish(w) =>
      if w !in y.work then y
      else
        var rest := y.work - {w};
        (match y.work[w]
         case Updating(id, seen, c, expected) =>
           System(FinishUpdate(y.tables, id, seen, c, expected), rest, y.advanced)
         case Advancing(id, seen, next, _) =>
           var r := FinishAdvance(y.tables, id, seen, next);
           if r.Ok? && r.value != y.tables then System(r.value, rest, y.advanced + [(id, seen.version)])
           else y.(work := rest))
    case Archive(id, archived, expected) => y.(tables := SetArchived(y.tables, id, archived, expected))
    case Remind(id, dueAt, now) => y.(tables := MarkSent(y.tables, id, dueAt, now))
  }

  function Run(events: seq<Event>): System {
    if events == [] then System(Tables(map[], map[]), map[], [])
    else Step(Run(events[..|events| - 1]), events[|events| - 1])
  }

  predicate Guesses(t: Tables, e: Event) {
    e.ReadForUpdate? && e.expected.Some? && e.id in t.payments && e.expected.value > t.payments[e.id].version
  }

  /** No update expects a version beyond the one it read: clients learn versions from the server. */
  ghost predicate Honest(events: seq<Event>) {
    forall i :: 0 <= i < |events| ==> !Guesses(Run(events[..i]).tables, events[i])
  }

  predicate HasForecast(t: Tables, id: Id) {
    id in t.payments && (id, t.payments[id].nextDueAt) in t.forecasts
  }

  // ----- versions -----

  /** A version number pins the row's contents, so a snapshot is current or strictly behind. */
  ghost predicate Snapshot(t: Tables, id: Id, seen: Payment) {
    id in t.payments && seen.version <= t.payments[id].version && seen.schedule.Valid() &&
    (seen.version == t.payments[id].version ==> seen == t.payments[id])
  }

  ghost predicate VersionsOk(y: System) {
    && (forall id :: id in y.tables.payments ==> y.tables.payments[id].schedule.Valid())
    && (forall w :: w in y.work ==> Snapshot(y.tables, y.work[w].id, y.work[w].seen))
    && (forall w :: w in y.work && y.work[w].Updating? && y.work[w].changes.schedule.Some? ==>
          y.work[w].changes.schedule.value.Valid())
    && (forall w :: w in y.work && y.work[w].Advancing? ==> y.work[w].seen.nextDueAt <= y.work[w].at < y.work[w].next)
    && (forall i :: 0 <= i < |y.advanced| ==>
          y.advanced[i].0 in y.tables.payments && y.advanced[i].1 < y.tables.payments[y.advanced[i].0].version)
    && (forall i, k :: 0 <= i < k < |y.advanced| ==> y.advanced[i] != y.advanced[k])
  }

  /** Rows only move to higher versions. */
  ghost predicate Grows(t: Tables, t': Tables) {
    forall id :: id in t.payments ==>
      id in t'.payments && t.payments[id].version <= t'.payments[id].version &&
      (t.payments[id].version == t'.payments[id].version ==> t.payments[id] == t'.payments[id])
  }

  ghost predicate SchedulesOk(t: Tables) {
    forall id :: id in t.payments ==> t.payments[id].schedule.Valid()
  }

  lemma GrowthKeepsWork(y: System, t': Tables)
    requires VersionsOk(y) && Grows(y.tables, t') && SchedulesOk(t')
    ensures VersionsOk(y.(tables := t'))
  {
    forall w | w in y.work
      ensures Snapshot(t', y.work[w].id, y.work[w].seen)
    {
      assert Snapshot(y.tables, y.work[w].id, y.work[w].seen);
    }
  }

  lemma UpdateGrows(t: Tables, id: Id, seen: Payment, c: Changes, expected: Option<nat>)
    requires SchedulesOk(t) && (c.schedule.Some? ==> c.schedule.value.Valid())
    ensures Grows(t, FinishUpdate(t, id, seen, c, expected)) && SchedulesOk(FinishUpdate(t, id, seen, c, expected))
  {
  }

  lemma FinishUpdateKeepsVersions(y: System, w: nat)
    requires VersionsOk(y) && w in y.work && y.work[w].Updating?
    ensures VersionsOk(Step(y, Finish(w)))
  {
    var y1, k := y.(work := y.work - {w}), y.work[w];
    assert VersionsOk(y1);
    UpdateGrows(y.tables, k.id, k.seen, k.changes, k.expected);
    GrowthKeepsWork(y1, FinishUpdate(y.tables, k.id, k.seen, k.changes, k.expected));
  }

  lemma AdvanceGrows(t: Tables, id: Id, seen: Payment, next: int)
    requires SchedulesOk(t) && Snapshot(t, id, seen)
    ensures
      var r := FinishAdvance(t, id, seen, next);
      r.Ok? && r.value != t ==>
        Grows(t, r.value) && SchedulesOk(r.value) &&
          seen.version == t.payments[id].version < r.value.payments[id].version
  {
  }

  /** Recording an advance of a version now left behind. */
  lemma RecordingKeepsVersions(y: System, id: Id, version: nat)
    requires VersionsOk(y) && id in y.tables.payments && version < y.tables.payments[id].version
    requires (id, version) !in y.advanced
    ensures VersionsOk(y.(advanced := y.advanced + [(id, version)]))
  {
  }

  lemma FinishAdvanceKeepsVersions(y: System, w: nat)
    requires VersionsOk(y) && w in y.work && y.work[w].Advancing?
    ensures VersionsOk(Step(y, Finish(w)))
  {
    var y1, k := y.(work := y.work - {w}), y.work[w];
    assert VersionsOk(y1);
    assert Snapshot(y.tables, k.id, k.seen);
    AdvanceGrows(y.tables, k.id, k.seen, k.next);
    var r := FinishAdvance(y.tables, k.id, k.seen, k.next);
    if r.Ok? && r.value != y.tables {
      GrowthKeepsWork(y1, r.value);
      RecordingKeepsVersions(y1.(tables := r.value), k.id, k.seen.version);
    }
  }

  lemma ReadKeepsVersions(y: System, e: Event)
    requires VersionsOk(y) && (e.ReadForUpdate? || e.ReadDue?)
    ensures VersionsOk(Step(y, e))
  {
  }

  lemma StepKeepsVersions(y: System, e: Event)
    requires VersionsOk(y)
    ensures VersionsOk(Step(y, e))
  {
    match e
    case ReadForUpdate(w, id, c, expected, now) => ReadKeepsVersions(y, e);
    case ReadDue(w, id, now) => ReadKeepsVersions(y, e);
    case Finish(w) =>
      if w in y.work {
        if y.work[w].Updating? {
          FinishUpdateKeepsVersions(y, w);
        } else {
          FinishAdvanceKeepsVersions(y, w);
        }
      }
    case _ => GrowthKeepsWork(y, Step(y, e).tables);
  }

  lemma {:induction false} RunKeepsVersions(events: seq<Event>)
    ensures VersionsOk(Run(events))
  {
    if events != [] {
      RunKeepsVersions(events[..|events| - 1]);
      StepKeepsVersions(Run(events[..|events| - 1]), events[|events| - 1]);
    }
  }

  /** In every run each version of each payment is advanced at most once, whichever workers race for
      it, and every successful advance adds exactly one forecast, dated after the scan that found it. */
  lemma AdvancesAreUnique(events: seq<Event>, worker: nat)
    ensures forall i, k :: 0 <= i < k < |Run(events).advanced| ==> Run(events).advanced[i] != Run(events).advanced[k]
    ensures
      var y, z := Run(events), Step(Run(events), Finish(worker));
      worker in y.work && y.work[worker].Advancing? && z.tables != y.tables ==>
        var k := y.work[worker];
        && z.advanced == y.advanced + [(k.id, k.seen.version)]
        && (k.id, k.next) !in y.tables.forecasts && k.next > k.at
        && z.tables.forecasts ==
          y.tables.forecasts[(k.id, k.next) := Forecast(ReminderAt(k.next, k.seen.reminderOffset), false)]
  {
    RunKeepsVersions(events);
  }

  // ----- the forecast follows the schedule -----

  ghost predicate Tracked(t: Tables) {
    forall id :: id in t.payments ==> HasForecast(t, id)
  }

  /** Exactly when an update leaves its payment without a forecast: it only moves the reminder, was
      let through on a version it had not read, and the row's own forecast was still unsent. */
  predicate LosesForecast(t: Tables, id: Id, seen: Payment, c: Changes, expected: Option<nat>) {
    && c.nextDueAt.None? && c.reminderOffset.Some?
    && Guarded(t, id, if expected.Some? then expected.value else seen.version)
    && seen.nextDueAt != t.payments[id].nextDueAt
    && (id, t.payments[id].nextDueAt) in t.forecasts && !t.forecasts[(id, t.payments[id].nextDueAt)].sent
    && ((id, seen.nextDueAt) in t.forecasts ==> !t.forecasts[(id, seen.nextDueAt)].sent)
  }

  lemma UpdateLosesForecast(t: Tables, id: Id, seen: Payment, c: Changes, expected: Option<nat>)
    requires Tracked(t)
    ensures Tracked(FinishUpdate(t, id, seen, c, expected)) <==> !LosesForecast(t, id, seen, c, expected)
  {
    var t' := FinishUpdate(t, id, seen, c, expected);
    forall k | k in t'.payments && k != id
      ensures HasForecast(t', k)
    {
      assert HasForecast(t, k);
    }
    if id in t.payments {
      assert HasForecast(t, id);
      assert HasForecast(t', id) <==> !LosesForecast(t, id, seen, c, expected);
    }
  }

  /** An update whose expected version is absent or not beyond what it read never loses one. */
  lemma HonestUpdateKeepsForecast(t: Tables, id: Id, seen: Payment, c: Changes, expected: Option<nat>)
    requires Snapshot(t, id, seen) && (expected.Some? ==> expected.value <= seen.version)
    ensures !LosesForecast(t, id, seen, c, expected)
  {
  }

  ghost predicate HonestWork(y: System) {
    forall w :: w in y.work && y.work[w].Updating? && y.work[w].expected.Some? ==>
      y.work[w].expected.value <= y.work[w].seen.version
  }

  lemma StepKeepsTracked(y: System, e: Event)
    requires VersionsOk(y) && HonestWork(y) && Tracked(y.tables)
    ensures Tracked(Step(y, e).tables)
  {
    var t, t' := y.tables, Step(y, e).tables;
    if e.Finish? && e.worker in y.work && y.work[e.worker].Updating? {
      var k := y.work[e.worker];
      HonestUpdateKeepsForecast(t, k.id, k.seen, k.changes, k.expected);
      UpdateLosesForecast(t, k.id, k.seen, k.changes, k.expected);
    } else {
      forall id | id in t'.payments
        ensures HasForecast(t', id)
      {
        assert id in t.payments ==> HasForecast(t, id);
      }
    }
  }

  lemma HonestBefore(events: seq<Event>)
    requires Honest(events) && events != []
    ensures Honest(events[..|events| - 1])
  {
    var before := events[..|events| - 1];
    forall i | 0 <= i < |before|
      ensures !Guesses(Run(before[..i]).tables, before[i])
    {
      assert before[..i] == events[..i];
    }
  }

  lemma {:induction false} RunKeepsTracked(events: seq<Event>)
    requires Honest(events)
    ensures HonestWork(Run(events)) && Tracked(Run(events).tables)
  {
    if events != [] {
      var m := |events| - 1;
      HonestBefore(events);
      RunKeepsTracked(events[..m]);
      RunKeepsVersions(events[..m]);
      StepKeepsTracked(Run(events[..m]), events[m]);
    }
  }

  /** After any honest run every payment, active or archived, has a forecast for its next due date. */
  lemma ForecastsTrackSchedules(events: seq<Event>, id: Id)
    requires Honest(events) && id in Run(events).tables.payments
    ensures (id, Run(events).tables.payments[id].nextDueAt) in Run(events).tables.forecasts
  {
    RunKeepsTracked(events);
    assert HasForecast(Run(events).tables, id);
  }

  lemma RunSnoc(events: seq<Event>, e: Event)
    ensures Run(events + [e]) == Step(Run(events), e)
  {
    assert (events + [e])[..|events|] == events;
  }

  // ----- what an update writes -----

  /** Whether the update goes through: the row is there, not archived and at the version asked for or else read,
      and no forecast already sent stands on the date whose forecast is made anew. */
  predicate UpdateApplies(t: Tables, id: Id, seen: Payment, c: Changes, expected: Option<nat>) {
    var dueAt := if c.nextDueAt != None then c.nextDueAt.value else seen.nextDueAt;
    id in t.payments && t.payments[id].archived == false &&
    t.payments[id].version == (if expected != None then expected.value else seen.version) &&
    (c.nextDueAt != None || c.reminderOffset != None ==>
       ((id, dueAt) in t.forecasts ==> t.forecasts[(id, dueAt)].sent == false))
  }

  /** Exactly what an update writes: the fields it names and the next version, nothing when it does not go
      through; and when it moves the date or the reminder, one new forecast in place of all unsent ones. */
  lemma UpdatesExactly(t: Tables, id: Id, seen: Payment, c: Changes, expected: Option<nat>)
    ensures !UpdateApplies(t, id, seen, c, expected) ==> FinishUpdate(t, id, seen, c, expected) == t
    ensures
      UpdateApplies(t, id, seen, c, expected) ==>
        var p, p' := t.payments[id], FinishUpdate(t, id, seen, c, expected).payments[id];
        && FinishUpdate(t, id, seen, c, expected).payments == t.payments[id := p']
        && p'.schedule == (match c.schedule case None => p.schedule case Some(x) => x)
        && p'.nextDueAt == (match c.nextDueAt case None => p.nextDueAt case Some(x) => x)
        && p'.reminderOffset == (match c.reminderOffset case None => seen.reminderOffset case Some(x) => x)
        && p'.active == (match c.active case None => p.active case Some(x) => x)
        && p'.archived == false && p'.version == p.version + 1
    ensures
      UpdateApplies(t, id, seen, c, expected) ==>
        var before, after := t.forecasts, FinishUpdate(t, id, seen, c, expected).forecasts;
        var dueAt := if c.nextDueAt != None then c.nextDueAt.value else seen.nextDueAt;
        if c.nextDueAt == None && c.reminderOffset == None then after == before
        else
          && (id, dueAt) in after && after[(id, dueAt)].sent == false
          && forall k :: k != (id, dueAt) ==>
               (k in after <==> k in before && (k.0 == id ==> before[k].sent)) && (k in after ==> after[k] == before[k])
  {
  }

  /** A request to update gets as far as its transaction exactly when the payment is there and not archived, the
      new date, if any, lies ahead, and the new interval is positive. */
  lemma UpdatesAreReadExactly(y: System, w: nat, id: Id, c: Changes, expected: Option<nat>, now: int)
    requires w !in y.work
    ensures
      var z := Step(y, ReadForUpdate(w, id, c, expected, now));
      if id in y.tables.payments && y.tables.payments[id].archived == false &&
         (c.nextDueAt != None ==> now < c.nextDueAt.value) && (c.schedule != None ==> 0 < c.schedule.value.interval)
      then z == System(y.tables, y.work[w := Updating(id, y.tables.payments[id], c, expected)], y.advanced) else z == y
  {
  }

  /** Exactly when archiving or restoring goes through, and what it writes. */
  lemma ArchivesExactly(t: Tables, id: Id, archived: bool, expected: Option<nat>)
    ensures
      var applies := id in t.payments && t.payments[id].archived != archived &&
                     (expected == None || expected == Some(t.payments[id].version));
      && (!applies ==> SetArchived(t, id, archived, expected) == t)
      && (applies ==>
            var p := t.payments[id];
            SetArchived(t, id, archived, expected) ==
              Tables(t.payments[id := Payment(p.schedule, p.nextDueAt, p.reminderOffset, !archived, archived,
                                              p.version + 1)], t.forecasts))
  {
  }

  /** A payment is created under a fresh id with a due date to come, active, with its first forecast. */
  lemma CreatesExactly(t: Tables, id: Id, p: Schedule, dueAt: int, offset: Option<nat>, now: int)
    requires id !in t.payments ==> forall k :: k in t.forecasts ==> k.0 != id
    ensures
      var applies := id !in t.payments && now < dueAt && 0 < p.interval;
      var t' := CreatePayment(t, id, p, dueAt, offset, now);
      && (!applies ==> t' == t)
      && (applies ==>
            && t'.payments == t.payments[id := Payment(p, dueAt, offset, true, false, 1)]
            && t'.forecasts.Keys == t.forecasts.Keys + {(id, dueAt)} && t'.forecasts[(id, dueAt)].sent == false
            && forall k :: k in t.forecasts ==> t'.forecasts[k] == t.forecasts[k])
  {
  }

  /** A reminder is claimed exactly when its time has come, nobody claimed it, and its payment is active. */
  lemma RemindsExactly(t: Tables, id: Id, dueAt: int, now: int)
    ensures
      MarkSent(t, id, dueAt, now) ==
        if (id, dueAt) in t.forecasts && t.forecasts[(id, dueAt)].sent == false &&
           t.forecasts[(id, dueAt)].reminderAt <= now && id in t.payments && t.payments[id].active == true &&
           t.payments[id].archived == false
        then t.(forecasts := t.forecasts[(id, dueAt) := Forecast(t.forecasts[(id, dueAt)].reminderAt, true)]) else t
  {
  }

  // ----- reminders follow the schedule -----

  /** Every payment's forecast reminds its offset in minutes before the due date, or on it. */
  ghost predicate Timely(t: Tables) {
    forall id :: id in t.payments ==>
      HasForecast(t, id) && RemindsAt(t.payments[id], t.forecasts[(id, t.payments[id].nextDueAt)])
  }

  predicate RemindsAt(p: Payment, f: Forecast) {
    f.reminderAt + (match p.reminderOffset case None => 0 case Some(minutes) => 60_000 * minutes) == p.nextDueAt
  }

  lemma UpdateKeepsTimely(t: Tables, id: Id, seen: Payment, c: Changes, expected: Option<nat>)
    requires Timely(t) && Snapshot(t, id, seen) && (expected.Some? ==> expected.value <= seen.version)
    ensures Timely(FinishUpdate(t, id, seen, c, expected))
  {
    var t' := FinishUpdate(t, id, seen, c, expected);
    forall k | k in t'.payments
      ensures HasForecast(t', k) && RemindsAt(t'.payments[k], t'.forecasts[(k, t'.payments[k].nextDueAt)])
    {
      assert HasForecast(t, k);
      assert RemindsAt(t.payments[k], t.forecasts[(k, t.payments[k].nextDueAt)]);
    }
  }

  lemma StepKeepsTimely(y: System, e: Event)
    requires VersionsOk(y) && HonestWork(y) && Timely(y.tables)
    ensures Timely(Step(y, e).tables)
  {
    var t, t' := y.tables, Step(y, e).tables;
    if e.Finish? && e.worker in y.work && y.work[e.worker].Updating? {
      var k := y.work[e.worker];
      UpdateKeepsTimely(t, k.id, k.seen, k.changes, k.expected);
    } else {
      forall id | id in t'.payments
        ensures HasForecast(t', id) && RemindsAt(t'.payments[id], t'.forecasts[(id, t'.payments[id].nextDueAt)])
      {
        if id in t.payments {
          assert HasForecast(t, id);
          assert RemindsAt(t.payments[id], t.forecasts[(id, t.payments[id].nextDueAt)]);
        }
      }
    }
  }

  /** After any honest run every payment's forecast for its next due date reminds exactly its offset before
      it. */
  lemma {:induction false} RemindersAreTimely(events: seq<Event>)
    requires Honest(events)
    ensures Timely(Run(events).tables)
  {
    if events != [] {
      HonestBefore(events);
      var before := events[..|events| - 1];
      RemindersAreTimely(before);
      RunKeepsTracked(before);
      RunKeepsVersions(before);
      StepKeepsTimely(Run(before), events[|events| - 1]);
    }
  }

  // ----- payments that stop the scheduler -----

  /** A blocked payment stays blocked until the clock reaches the date it is blocked on. */
  lemma BlockedUntilItsDate(t: Tables, id: Id, now: int, later: int)
    requires id in t.payments && Due(t.payments[id], now) && now <= later < NextDate(t.payments[id], now)
    ensures Blocked(t, id, later) <==> Blocked(t, id, now)
  {
    var p := t.payments[id];
    AdvancedIsLeast(p.nextDueAt, p.schedule, now);
    AdvancedIsLeast(p.nextDueAt, p.schedule, later);
    assert NextDate(p, later) == NextDate(p, now);
  }

  /** A row stands at a later date of the payment's schedule. */
  ghost predicate StandsAhead(t: Tables, id: Id)
    requires id in t.payments
  {
    exists d :: (id, d) in t.forecasts && d > t.payments[id].nextDueAt &&
      OnOrbit(t.payments[id].nextDueAt, t.payments[id].schedule, d)
  }

  /** Exactly when some scan finds an active payment due and blocked. */
  lemma BlockedSometimeExactly(t: Tables, id: Id)
    requires id in t.payments
    requires t.payments[id].active && !t.payments[id].archived && t.payments[id].schedule.Valid()
    ensures (exists now :: Blocked(t, id, now)) <==> StandsAhead(t, id)
  {
    if now :| Blocked(t, id, now) {
      BlockedStandsAhead(t, id, now);
    }
    if StandsAhead(t, id) {
      var d :| (id, d) in t.forecasts && d > t.payments[id].nextDueAt &&
               OnOrbit(t.payments[id].nextDueAt, t.payments[id].schedule, d);
      StandingAheadBlocks(t, id, d);
    }
  }

  lemma BlockedStandsAhead(t: Tables, id: Id, now: int)
    requires Blocked(t, id, now)
    ensures StandsAhead(t, id)
  {
    AdvancedIsLeast(t.payments[id].nextDueAt, t.payments[id].schedule, now);
  }

  lemma StandingAheadBlocks(t: Tables, id: Id, d: int)
    requires id in t.payments && (id, d) in t.forecasts && d > t.payments[id].nextDueAt
    requires OnOrbit(t.payments[id].nextDueAt, t.payments[id].schedule, d)
    requires t.payments[id].active && !t.payments[id].archived && t.payments[id].schedule.Valid()
    ensures Blocked(t, id, d - 1)
  {
    OrbitPointIsNext(t.payments[id], d);
  }

  /** Just before a later point of the schedule that point is the next date. */
  lemma OrbitPointIsNext(p: Payment, d: int)
    requires p.schedule.Valid() && d > p.nextDueAt && OnOrbit(p.nextDueAt, p.schedule, d)
    ensures NextDate(p, d - 1) == d
  {
    AdvancedIsLeast(p.nextDueAt, p.schedule, d - 1);
  }

  /** No forecast is dated after its payment's next due date. */
  ghost predicate NothingAhead(t: Tables) {
    forall k :: k in t.forecasts ==> k.0 in t.payments && k.1 <= t.payments[k.0].nextDueAt
  }

  /** The update goes through and moves the payment behind a forecast whose reminder was sent, or, let
      through on a version it had not read, puts a forecast on a later date that it had read. */
  ghost predicate LeavesRowAhead(t: Tables, id: Id, seen: Payment, c: Changes, expected: Option<nat>) {
    && Guarded(t, id, if expected.Some? then expected.value else seen.version)
    && (match c.nextDueAt
        case Some(dueAt) =>
          ((id, dueAt) in t.forecasts ==> !t.forecasts[(id, dueAt)].sent) &&
          exists d :: d > dueAt && (id, d) in t.forecasts && t.forecasts[(id, d)].sent
        case None =>
          c.reminderOffset.Some? && seen.nextDueAt > t.payments[id].nextDueAt)
  }

  lemma UpdateLeavesRowAhead(t: Tables, id: Id, seen: Payment, c: Changes, expected: Option<nat>)
    requires NothingAhead(t)
    ensures NothingAhead(FinishUpdate(t, id, seen, c, expected)) <==> !LeavesRowAhead(t, id, seen, c, expected)
  {
    var t' := FinishUpdate(t, id, seen, c, expected);
    if LeavesRowAhead(t, id, seen, c, expected) {
      if c.nextDueAt.Some? {
        var d :| d > c.nextDueAt.value && (id, d) in t.forecasts && t.forecasts[(id, d)].sent;
        assert (id, d) in t'.forecasts;
      } else {
        assert (id, seen.nextDueAt) in t'.forecasts;
      }
    }
  }

  /** No update of the run that is let through moves a payment behind a forecast already reminded of, and
      none guesses a version. */
  ghost predicate NeverBehind(events: seq<Event>) {
    forall i :: 0 <= i < |events| ==> !FinishesBehind(Run(events[..i]), events[i])
  }

  ghost predicate FinishesBehind(y: System, e: Event) {
    e.Finish? && e.worker in y.work && y.work[e.worker].Updating? &&
    var k := y.work[e.worker];
    LeavesRowAhead(y.tables, k.id, k.seen, k.changes, k.expected)
  }

  lemma StepKeepsNothingAhead(y: System, e: Event)
    requires VersionsOk(y) && NothingAhead(y.tables)
    ensures NothingAhead(Step(y, e).tables) <==> !FinishesBehind(y, e)
  {
    if e.Finish? && e.worker in y.work {
      var k := y.work[e.worker];
      if k.Updating? {
        UpdateLeavesRowAhead(y.tables, k.id, k.seen, k.changes, k.expected);
      } else {
        assert k.seen.nextDueAt < k.next;
      }
    }
  }

  lemma {:induction false} RunKeepsNothingAhead(events: seq<Event>)
    requires NeverBehind(events)
    ensures NothingAhead(Run(events).tables)
  {
    if events != [] {
      var m := |events| - 1;
      forall i | 0 <= i < m
        ensures events[..m][..i] == events[..i]
      {
      }
      RunKeepsNothingAhead(events[..m]);
      RunKeepsVersions(events[..m]);
      StepKeepsNothingAhead(Run(events[..m]), events[m]);
    }
  }

  /** In such runs no due payment is ever blocked, so no pass stops. */
  lemma PassesNeverStop(events: seq<Event>, id: Id, now: int)
    requires NeverBehind(events)
    ensures !Blocked(Run(events).tables, id, now)
  {
    RunKeepsNothingAhead(events);
    if Blocked(Run(events).tables, id, now) {
      BlockedStandsAhead(Run(events).tables, id, now);
    }
  }

  const WEEKLY: Schedule := Schedule(Weekly, 1)
  const EIGHT_DAYS: nat := 11_520
  const EARLIER: Changes := Changes(Some(DAY), None, None, None)
  const MOVED_BACK: seq<Event> := [Create("rent", WEEKLY, 8 * DAY, Some(EIGHT_DAYS), 0)] +
                                  [Remind("rent", 8 * DAY, 0)] +
                                  [ReadForUpdate(1, "rent", EARLIER, None, 0)] +
                                  [Finish(1)]

  lemma MovingBack()
    ensures
      var t := Run(MOVED_BACK).tables;
      t.payments == map["rent" := Payment(WEEKLY, DAY, Some(EIGHT_DAYS), true, false, 2)] &&
      ("rent", 8 * DAY) in t.forecasts
  {
    var e1 := [Create("rent", WEEKLY, 8 * DAY, Some(EIGHT_DAYS), 0)];
    assert e1 == [] + e1;
    RunSnoc([], e1[0]);
    RunSnoc(e1, Remind("rent", 8 * DAY, 0));
    RunSnoc(e1 + [Remind("rent", 8 * DAY, 0)], ReadForUpdate(1, "rent", EARLIER, None, 0));
    RunSnoc(e1 + [Remind("rent", 8 * DAY, 0)] + [ReadForUpdate(1, "rent", EARLIER, None, 0)], Finish(1));
  }

  /** A payment whose reminder was sent is moved a week back: from its new date until the old one every
      pass that selects it meets the old forecast and stops. */
  lemma MovedBackPaymentStopsThePass(now: int)
    requires DAY <= now < 8 * DAY
    ensures Honest(MOVED_BACK)
    ensures
      var t := Run(MOVED_BACK).tables;
      Blocked(t, "rent", now)
  {
    MovingBack();
    var t := Run(MOVED_BACK).tables;
    var p := t.payments["rent"];
    StepAdvances(p.nextDueAt, WEEKLY);
    assert WEEKLY.Period() == 7 * DAY;
    assert NextDate(p, now) == 8 * DAY;
  }

  // ----- an update that guesses a version -----

  const RENT: Payment := Payment(WEEKLY, 10, None, true, false, 1)
  const REMIND_EARLIER: Changes := Changes(None, None, Some(Some(5)), None)
  const BOTH_READ: seq<Event> := [Create("rent", WEEKLY, 10, None, 0)] +
                                 [ReadForUpdate(1, "rent", REMIND_EARLIER, Some(2), 5)] +
                                 [ReadDue(2, "rent", 10)]

  lemma BothWorkersRead() returns (next: int)
    ensures
      var y := Run(BOTH_READ);
      next != 10 && y.tables == Tables(map["rent" := RENT], map[("rent", 10) := Forecast(10, false)]) &&
      y.work == map[1 := Updating("rent", RENT, REMIND_EARLIER, Some(2)), 2 := Advancing("rent", RENT, next, 10)]
  {
    var e1 := [Create("rent", WEEKLY, 10, None, 0)];
    assert e1 == [] + e1;
    RunSnoc([], e1[0]);
    RunSnoc(e1, ReadForUpdate(1, "rent", REMIND_EARLIER, Some(2), 5));
    RunSnoc(e1 + [ReadForUpdate(1, "rent", REMIND_EARLIER, Some(2), 5)], ReadDue(2, "rent", 10));
    next := FirstFrom(Next(10, WEEKLY), WEEKLY, 11);
    StepAdvances(10, WEEKLY);
  }

  lemma RentAdvances(y: System, w: nat, next: int)
    requires w in y.work && y.work[w] == Advancing("rent", RENT, next, 10) && next != 10
    requires y.tables == Tables(map["rent" := RENT], map[("rent", 10) := Forecast(10, false)])
    ensures Step(y, Finish(w)).work == y.work - {w}
    ensures Step(y, Finish(w)).tables ==
            Tables(map["rent" := RENT.(nextDueAt := next, version := 2)],
                   map[("rent", 10) := Forecast(10, false), ("rent", next) := Forecast(next, false)])
  {
    var p, t := RENT.(nextDueAt := next, version := 2), y.tables;
    var z := Tables(t.payments["rent" := p], t.forecasts[("rent", next) := Forecast(next, false)]);
    assert FinishAdvance(t, "rent", RENT, next) == Ok(z);
    assert z.payments["rent"] != t.payments["rent"];
  }

  lemma SchedulerAdvancesFirst() returns (next: int)
    ensures
      var y := Run(BOTH_READ + [Finish(2)]);
      next != 10 && 1 in y.work && y.work[1] == Updating("rent", RENT, REMIND_EARLIER, Some(2)) &&
      y.tables == Tables(map["rent" := RENT.(nextDueAt := next, version := 2)],
                         map[("rent", 10) := Forecast(10, false), ("rent", next) := Forecast(next, false)])
  {
    next := BothWorkersRead();
    RunSnoc(BOTH_READ, Finish(2));
    RentAdvances(Run(BOTH_READ), 2, next);
  }

  /** Without that discipline the link can break: an update that read version 1 but guesses
      version 2 while the scheduler advances the payment. */
  lemma GuessedVersionLosesForecast()
    ensures
      var t := Run(BOTH_READ + [Finish(2)] + [Finish(1)]).tables;
      "rent" in t.payments && !HasForecast(t, "rent")
  {
    var next := SchedulerAdvancesFirst();
    RunSnoc(BOTH_READ + [Finish(2)], Finish(1));
    var t := Run(BOTH_READ + [Finish(2)]).tables;
    assert Guarded(t, "rent", 2);
    assert LosesForecast(t, "rent", RENT, REMIND_EARLIER, Some(2));
  }

  // ----- the scheduler's loop -----

  /** The payment was moved to its next date and that date's forecast is new. */
  predicate Served(t: Tables, t': Tables, id: Id, now: int) {
    id in t.payments && t.payments[id].schedule.Valid() && id in t'.payments &&
    var p, next := t.payments[id], NextDate(t.payments[id], now);
    next > now && t'.payments[id] == p.(nextDueAt := next, version := p.version + 1) &&
    (id, next) !in t.forecasts && (id, next) in t'.forecasts &&
    t'.forecasts[(id, next)] == Forecast(ReminderAt(next, p.reminderOffset), false)
  }

  predicate IsNextDate(t: Tables, id: Id, dueAt: int, now: int) {
    id in t.payments && t.payments[id].schedule.Valid() && dueAt == NextDate(t.payments[id], now)
  }

  ghost predicate OthersKept(t: Tables, t': Tables, done: seq<Id>) {
    t'.payments.Keys == t.payments.Keys &&
    forall id :: id in t.payments && id !in done ==> t'.payments[id] == t.payments[id]
  }

  /** Forecasts are only added, for the next dates of payments in `done`. */
  ghost predicate OnlyNextDates(t: Tables, t': Tables, done: seq<Id>, now: int) {
    && (forall k :: k in t.forecasts ==> k in t'.forecasts && t'.forecasts[k] == t.forecasts[k])
    && (forall k :: k in t'.forecasts && k !in t.forecasts ==> k.0 in done && IsNextDate(t, k.0, k.1, now))
  }

  /** The payments of `done` were served, and nothing else was done. */
  ghost predicate OnlyServed(t: Tables, t': Tables, done: seq<Id>, now: int) {
    && (forall i :: 0 <= i < |done| ==> Served(t, t', done[i], now))
    && OthersKept(t, t', done) && OnlyNextDates(t, t', done, now)
  }

  /** Serving other payments neither blocks nor unblocks one. */
  lemma StillBlocked(t: Tables, t': Tables, done: seq<Id>, id: Id, now: int)
    requires OthersKept(t, t', done) && OnlyNextDates(t, t', done, now) && id in t.payments && id !in done
    ensures t'.payments[id] == t.payments[id] && (Blocked(t', id, now) <==> Blocked(t, id, now))
  {
  }

  lemma AdvanceServes(t: Tables, id: Id, now: int)
    requires id in t.payments && Due(t.payments[id], now)
    ensures
      var p, next := t.payments[id], NextDate(t.payments[id], now);
      var r := FinishAdvance(t, id, p, next);
      next > now && (r.Err? <==> Blocked(t, id, now)) && (r.Ok? ==>
        r.value.payments == t.payments[id := p.(nextDueAt := next, version := p.version + 1)] &&
        r.value.forecasts == t.forecasts[(id, next) := Forecast(ReminderAt(next, p.reminderOffset), false)])
  {
  }

  lemma StillServed(
    t: Tables, before: Tables, after: Tables, id: Id, other: Id, x: Payment, k: (Id, int), f: Forecast, now: int)
    requires Served(t, before, other, now) && other != id && k.0 == id
    requires after == Tables(before.payments[id := x], before.forecasts[k := f])
    ensures Served(t, after, other, now)
  {
  }

  lemma OnlyOneMore(
    t: Tables, before: Tables, after: Tables, done: seq<Id>, id: Id, x: Payment, next: int, f: Forecast, now: int)
    requires OthersKept(t, before, done) && OnlyNextDates(t, before, done, now) && IsNextDate(t, id, next, now)
    requires after == Tables(before.payments[id := x], before.forecasts[(id, next) := f])
    requires (id, next) !in t.forecasts
    ensures OthersKept(t, after, done + [id]) && OnlyNextDates(t, after, done + [id], now)
  {
  }

  lemma OneMoreServed(t: Tables, before: Tables, after: Tables, done: seq<Id>, id: Id, now: int)
    requires id in t.payments && Due(t.payments[id], now) && id !in done && OnlyServed(t, before, done, now)
    requires FinishAdvance(before, id, t.payments[id], NextDate(t.payments[id], now)) == Ok(after)
    ensures OnlyServed(t, after, done + [id], now)
  {
    var p, next := t.payments[id], NextDate(t.payments[id], now);
    var x, f := p.(nextDueAt := next, version := p.version + 1), Forecast(ReminderAt(next, p.reminderOffset), false);
    assert before.payments[id] == p;
    AdvanceServes(before, id, now);
    assert after == Tables(before.payments[id := x], before.forecasts[(id, next) := f]);
    forall i | 0 <= i < |done|
      ensures Served(t, after, done[i], now)
    {
      StillServed(t, before, after, id, done[i], x, (id, next), f, now);
    }
    assert Served(t, after, id, now);
    OnlyOneMore(t, before, after, done, id, x, next, f, now);
  }

  /** The next payment is still the row that was selected; it is served unless it is blocked. */
  lemma NextIsServed(t: Tables, t': Tables, ids: seq<Id>, n: nat, now: int)
    requires forall i, k :: 0 <= i < k < |ids| ==> ids[i] != ids[k]
    requires n < |ids| && ids[n] in t.payments && Due(t.payments[ids[n]], now)
    requires OnlyServed(t, t', ids[..n], now)
    ensures
      var r := FinishAdvance(t', ids[n], t.payments[ids[n]], NextDate(t.payments[ids[n]], now));
      (r.Err? <==> Blocked(t, ids[n], now)) && (r.Ok? ==> OnlyServed(t, r.value, ids[..n + 1], now))
  {
    var id := ids[n];
    assert id !in ids[..n] && ids[..n] + [id] == ids[..n + 1];
    StillBlocked(t, t', ids[..n], id, now);
    AdvanceServes(t', id, now);
    var r := FinishAdvance(t', id, t.payments[id], NextDate(t.payments[id], now));
    if r.Ok? {
      OneMoreServed(t, t', r.value, ids[..n], id, now);
    }
  }

  class PaymentDatabase {
    var payments: map<Id, Payment>
    var forecasts: map<(Id, int), Forecast>

    function State(): Tables
      reads this
    {
      Tables(payments, forecasts)
    }

    constructor ()
      ensures State() == Tables(map[], map[])
    {
      payments, forecasts := map[], map[];
    }

    method Update(id: Id, c: Changes, expected: Option<nat>) returns (found: bool)
      modifies this
      ensures found == old(id in payments && !payments[id].archived)
      ensures State() == if found then old(FinishUpdate(State(), id, payments[id], c, expected)) else old(State())
    {
      found := id in payments && !payments[id].archived;
      if !found {
        return;
      }
      var seen := payments[id];
      var before := State();
      var dueAt := if c.nextDueAt.Some? then c.nextDueAt.value else seen.nextDueAt;
      var offset := if c.reminderOffset.Some? then c.reminderOffset.value else seen.reminderOffset;
      if !Guarded(State(), id, if expected.Some? then expected.value else seen.version) {
        return;
      }
      payments := payments[id := Changed(payments[id], c, offset)];
      if c.nextDueAt.None? && c.reminderOffset.None? {
        return;
      }
      forecasts := DropUnsent(State(), id).forecasts;
      if (id, dueAt) in forecasts {
        payments, forecasts := before.payments, before.forecasts;
        return;
      }
      forecasts := forecasts[(id, dueAt) := Forecast(ReminderAt(dueAt, offset), false)];
    }

    /** The advance of one selected payment; `failed` is an uncaught unique violation. */
    method Advance(id: Id, seen: Payment, now: int) returns (advanced: bool, failed: bool)
      requires seen.schedule.Valid()
      modifies this
      ensures
        var r := old(FinishAdvance(State(), id, seen, NextDate(seen, now)));
        failed == r.Err? && State() == OrElse(r, old(State())) && advanced == (State() != old(State()))
    {
      var nextDueAt := NextDueAt(seen.nextDueAt, seen.schedule, now);
      if id !in payments || !payments[id].active || payments[id].archived ||
         payments[id].nextDueAt != seen.nextDueAt || payments[id].version != seen.version {
        return false, false;
      }
      ghost var before := State();
      if (id, nextDueAt) in forecasts {
        return false, true;
      }
      payments := payments[id := payments[id].(nextDueAt := nextDueAt, version := seen.version + 1)];
      forecasts := forecasts[(id, nextDueAt) := Forecast(ReminderAt(nextDueAt, seen.reminderOffset), false)];
      assert State().payments[id].version != before.payments[id].version;
      return true, false;
    }

    /** One pass over the due payments `ids` (at most one hundred, as selected). The first blocked one
        stops it, and there is none if it ends. What came before is served: moved to its next date, with
        the forecast of that date. Everything else is left as it was. */
    method GenerateDueForecasts(ids: seq<Id>, now: int) returns (generated: nat, failed: bool)
      requires forall i, k :: 0 <= i < k < |ids| ==> ids[i] != ids[k]
      requires forall i :: 0 <= i < |ids| ==> ids[i] in payments && Due(payments[ids[i]], now)
      modifies this
      ensures generated <= |ids| && (failed <==> generated < |ids|)
      ensures failed <==> exists i :: 0 <= i < |ids| && Blocked(old(State()), ids[i], now)
      ensures failed ==> Blocked(old(State()), ids[generated], now)
      ensures forall i :: 0 <= i < generated ==> !Blocked(old(State()), ids[i], now)
      ensures OnlyServed(old(State()), State(), ids[..generated], now)
    {
      var seen := payments;
      ghost var start := State();
      generated, failed := 0, false;
      while generated < |ids|
        invariant 0 <= generated <= |ids| && !failed
        invariant OnlyServed(start, State(), ids[..generated], now)
        invariant forall i :: 0 <= i < generated ==> !Blocked(start, ids[i], now)
        decreases |ids| - generated
      {
        NextIsServed(start, State(), ids, generated, now);
        var ok, err := Advance(ids[generated], seen[ids[generated]], now);
        if err {
          failed := true;
          return;
        }
        generated := generated + 1;
      }
    }
  }
}
