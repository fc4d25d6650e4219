/** The outbox lease queue: workers choose, claim, deliver, defer and fail events, interleaved one
    database statement at a time, and may crash at any point. */
module Outbox {
  import opened Basics

  type Id = string

  datatype Status = Pending | Processing | Delivered | Failed
  datatype Row = Row(status: Status, attempts: nat, availableAt: int, lockedAt: Option<int>, createdAt: int)

  /** Lease length and attempt limit; the configuration keeps both positive. */
  datatype Config = Config(lockTimeout: nat, maxAttempts: nat) {
    predicate Valid() {
      0 < lockTimeout && 0 < maxAttempts
    }
  }

  // ----- retry delays -----

  function Power2(n: nat): nat {
    if n == 0 then 1 else 2 * Power2(n - 1)
  }

  function Min(a: nat, b: nat): nat {
    if a < b then a else b
  }

  function DelayMs(attempts: nat): nat {
    Min(60_000, 1_000 * Power2(Min(attempts, 6)))
  }

  lemma {:induction false} Power2Grows(m: nat, n: nat)
    requires m <= n
    ensures Power2(m) <= Power2(n)
    decreases n
  {
    if m < n {
      Power2Grows(m, n - 1);
    }
  }

  /** Delays never shrink from one attempt to the next and stay between two and sixty seconds. */
  lemma DelaysAreBounded(attempts: nat, more: nat)
    requires 1 <= attempts <= more
    ensures 2_000 <= DelayMs(attempts) <= DelayMs(more) <= 60_000
  {
    Power2Grows(1, Min(attempts, 6));
    Power2Grows(Min(attempts, 6), Min(more, 6));
    assert Power2(1) == 2;
  }

  /** The delays of the first failure, of later ones, and of all from the sixth on: two seconds, doubling,
      sixty seconds. */
  lemma DelaysDouble(attempts: nat)
    requires 1 <= attempts
    ensures DelayMs(1) == 2_000
    ensures attempts <= 4 ==> DelayMs(attempts + 1) == 2 * DelayMs(attempts)
    ensures 6 <= attempts ==> DelayMs(attempts) == 60_000
  {
    assert Power2(1) == 2 && Power2(6) == 64;
    if attempts <= 4 {
      Power2Grows(attempts + 1, 5);
      assert Power2(5) == 32;
    }
  }

  // ----- single statements -----

  predicate Stale(r: Row, now: int, config: Config) {
    r.status.Processing? && r.lockedAt.Some? && r.lockedAt.value <= now - config.lockTimeout
  }

  predicate Eligible(r: Row, now: int, config: Config) {
    (r.status.Pending? && r.availableAt <= now) || Stale(r, now, config)
  }

  /** The guard of the claiming update: it repeats the status seen, but not the due date. */
  predicate StillClaimable(r: Row, seen: Status, now: int, config: Config) {
    if seen.Pending? then r.status.Pending? else Stale(r, now, config)
  }

  function Claimed(r: Row, now: int): Row {
    r.(status := Processing, lockedAt := Some(now))
  }

  function AfterDelivery(r: Row): Row {
    if r.status.Processing? then r.(status := Delivered, lockedAt := None) else r
  }

  function AfterDeferral(r: Row, until: int): Row {
    if r.status.Processing? then r.(status := Pending, availableAt := until, lockedAt := None) else r
  }

  /** The unguarded write that ends a failed delivery; `seen` is the attempt count read before it. */
  function AfterFailure(r: Row, seen: nat, now: int, config: Config): Row {
    var attempts := seen + 1;
    Row(if attempts >= config.maxAttempts then Failed else Pending, attempts, now + DelayMs(attempts), None,
      r.createdAt)
  }

  // ----- runs -----

  datatype Worker =
    | Chosen(id: Id, seen: Status, now: int)
    | Holding(id: Id, stamp: int)
    | Failing(id: Id, stamp: int, attempts: nat)

  datatype Entry = Claim(id: Id, stamp: int) | Release(id: Id)

  datatype System = System(clock: int, rows: map<Id, Row>, workers: map<nat, Worker>, log: seq<Entry>)

  datatype Event =
    | Tick(ms: nat)
    | Enqueue(id: Id, availableAt: int)
    | Choose(worker: nat, id: Id)        // findFirst inside the claiming transaction
    | TryClaim(worker: nat)              // the guarded update
    | Deliver(worker: nat)
    | Defer(worker: nat, until: int)
    | ReadFailure(worker: nat)           // fail(): the read
    | WriteFailure(worker: nat)          // fail(): the unguarded write
    | Crash(worker: nat)

  ghost predicate Oldest(y: System, id: Id, config: Config) {
    && id in y.rows && Eligible(y.rows[id], y.clock, config)
    && forall k :: k in y.rows && Eligible(y.rows[k], y.clock, config) ==> y.rows[id].createdAt <= y.rows[k].createdAt
  }

  function Write(y: System, w: nat, id: Id, r: Row, log: seq<Entry>): System {
    System(y.clock, y.rows[id := r], y.workers - {w}, y.log + log)
  }

  /** One event; an event that is not enabled changes nothing. */
  ghost function Step(config: Config, y: System, e: Event): System {
    match e
    case Tick(ms) => y.(clock := y.clock + ms)
    case Enqueue(id, availableAt) =>
      if id in y.rows then y else y.(rows := y.rows[id := Row(Pending, 0, availableAt, None, y.clock)])
    case Choose(w, id) =>
      if w in y.workers || !Oldest(y, id, config) then y
      else y.(workers := y.workers[w := Chosen(id, y.rows[id].status, y.clock)])
    case TryClaim(w) =>
      if w !in y.workers || !y.workers[w].Chosen? || y.workers[w].id !in y.rows then y
      else
        var k := y.workers[w];
        if !StillClaimable(y.rows[k.id], k.seen, k.now, config) then y.(workers := y.workers - {w})
        else Write(y, w, k.id, Claimed(y.rows[k.id], k.now), [Claim(k.id, k.now)]).(
          workers := y.workers[w := Holding(k.id, k.now)])
    case Deliver(w) =>
      if w !in y.workers || !y.workers[w].Holding? || y.workers[w].id !in y.rows then y
      else
        var id := y.workers[w].id;
        Write(y, w, id, AfterDelivery(y.rows[id]), if y.rows[id].status.Processing? then [Release(id)] else [])
    case Defer(w, until) =>
      if w !in y.workers || !y.workers[w].Holding? || y.workers[w].id !in y.rows then y
      else
        var id := y.workers[w].id;
        Write(y, w, id, AfterDeferral(y.rows[id], until), if y.rows[id].status.Processing? then [Release(id)] else [])
    case ReadFailure(w) =>
      if w !in y.workers || !y.workers[w].Holding? || y.workers[w].id !in y.rows then y
      else
        var k := y.workers[w];
        if !y.rows[k.id].status.Processing? then y.(workers := y.workers - {w})
        else y.(workers := y.workers[w := Failing(k.id, k.stamp, y.rows[k.id].attempts)])
    case WriteFailure(w) =>
      if w !in y.workers || !y.workers[w].Failing? || y.workers[w].id !in y.rows then y
      else
        var k := y.workers[w];
        Write(y, w, k.id, AfterFailure(y.rows[k.id], k.attempts, y.clock, config), [Release(k.id)])
    case Crash(w) => y.(workers := y.workers - {w})
  }

  ghost function Run(config: Config, events: seq<Event>): System {
    if events == [] then System(0, map[], map[], [])
    else Step(config, Run(config, events[..|events| - 1]), events[|events| - 1])
  }

  // ----- what needs no lease -----

  predicate Finishing(e: Event) {
    e.Deliver? || e.Defer? || e.ReadFailure? || e.WriteFailure?
  }

  ghost predicate RowsOk(config: Config, y: System) {
    && (forall id :: id in y.rows ==>
          && (y.rows[id].status.Processing? <==> y.rows[id].lockedAt.Some?)
          && (y.rows[id].attempts < config.maxAttempts <==> !y.rows[id].status.Failed?)
          && y.rows[id].attempts <= config.maxAttempts)
    && (forall w :: w in y.workers && y.workers[w].Failing? ==> y.workers[w].attempts < config.maxAttempts)
    && (forall w :: w in y.workers && y.workers[w].Chosen? ==> y.workers[w].now <= y.clock)
  }

  lemma StepKeepsRows(config: Config, y: System, e: Event)
    requires config.Valid() && RowsOk(config, y)
    ensures RowsOk(config, Step(config, y, e))
  {
  }

  /** In every run an event is PROCESSING exactly when its lock is set, and FAILED exactly when its
      attempts are used up. */
  lemma {:induction false} LocksAndAttempts(config: Config, events: seq<Event>)
    requires config.Valid()
    ensures RowsOk(config, Run(config, events))
  {
    if events != [] {
      LocksAndAttempts(config, events[..|events| - 1]);
      StepKeepsRows(config, Run(config, events[..|events| - 1]), events[|events| - 1]);
    }
  }

  /** The last thing that happened to an event: nothing, a claim, or a release. */
  function Latest(log: seq<Entry>, id: Id): Option<Entry> {
    if log == [] then None
    else if log[|log| - 1].id == id then Some(log[|log| - 1])
    else Latest(log[..|log| - 1], id)
  }

  ghost predicate ClaimsSpaced(config: Config, log: seq<Entry>) {
    forall k :: 0 <= k < |log| && log[k].Claim? ==>
      var before := Latest(log[..k], log[k].id);
      before.Some? && before.value.Claim? ==> log[k].stamp >= before.value.stamp + config.lockTimeout
  }

  ghost predicate LogOk(config: Config, y: System) {
    && ClaimsSpaced(config, y.log)
    && (forall id :: id in y.rows ==>
          var last := Latest(y.log, id);
          (y.rows[id].status.Processing? <==> last.Some? && last.value.Claim?) &&
          (y.rows[id].status.Processing? ==> y.rows[id].lockedAt == Some(last.value.stamp)))
    && (forall i :: 0 <= i < |y.log| ==> y.log[i].id in y.rows)
  }

  lemma {:induction false} NeverLogged(log: seq<Entry>, id: Id)
    requires forall i :: 0 <= i < |log| ==> log[i].id != id
    ensures Latest(log, id) == None
  {
    if log != [] {
      NeverLogged(log[..|log| - 1], id);
    }
  }

  lemma LogGrows(config: Config, log: seq<Entry>, x: Entry)
    requires ClaimsSpaced(config, log)
    requires x.Claim? && Latest(log, x.id).Some? && Latest(log, x.id).value.Claim? ==>
               x.stamp >= Latest(log, x.id).value.stamp + config.lockTimeout
    ensures ClaimsSpaced(config, log + [x])
    ensures forall id :: Latest(log + [x], id) == if id == x.id then Some(x) else Latest(log, id)
  {
    var all := log + [x];
    assert all[..|log|] == log;
    forall k | 0 <= k < |all| && all[k].Claim?
      ensures
        var before := Latest(all[..k], all[k].id);
        before.Some? && before.value.Claim? ==> all[k].stamp >= before.value.stamp + config.lockTimeout
    {
      if k < |log| {
        assert all[..k] == log[..k] && all[k] == log[k];
      }
    }
  }

  /** Writing one row and logging what was done to it keeps the log right. */
  lemma EntryKeepsLog(config: Config, y: System, z: System, x: Entry)
    requires LogOk(config, y) && x.id in y.rows && x.id in z.rows
    requires z.log == y.log + [x] && z.rows == y.rows[x.id := z.rows[x.id]]
    requires z.rows[x.id].status.Processing? <==> x.Claim?
    requires x.Claim? ==> z.rows[x.id].lockedAt == Some(x.stamp)
    requires x.Claim? && y.rows[x.id].status.Processing? ==> Stale(y.rows[x.id], x.stamp, config)
    ensures LogOk(config, z)
  {
    LogGrows(config, y.log, x);
  }

  lemma EnqueueKeepsLog(config: Config, y: System, id: Id, availableAt: int)
    requires LogOk(config, y)
    ensures LogOk(config, Step(config, y, Enqueue(id, availableAt)))
  {
    if id !in y.rows {
      NeverLogged(y.log, id);
    }
  }

  lemma ClaimKeepsLog(config: Config, y: System, w: nat)
    requires LogOk(config, y)
    ensures LogOk(config, Step(config, y, TryClaim(w)))
  {
    var z := Step(config, y, TryClaim(w));
    if w in y.workers && y.workers[w].Chosen? && y.workers[w].id in y.rows && z.log != y.log {
      EntryKeepsLog(config, y, z, Claim(y.workers[w].id, y.workers[w].now));
    }
  }

  lemma FinishKeepsLog(config: Config, y: System, e: Event)
    requires LogOk(config, y) && Finishing(e)
    ensures LogOk(config, Step(config, y, e))
  {
    var z := Step(config, y, e);
    if e.worker in y.workers && y.workers[e.worker].id in y.rows && z.log != y.log {
      EntryKeepsLog(config, y, z, Release(y.workers[e.worker].id));
    } else {
      assert z.log == y.log && z.rows == y.rows;
    }
  }

  lemma StepKeepsLog(config: Config, y: System, e: Event)
    requires LogOk(config, y)
    ensures LogOk(config, Step(config, y, e))
  {
    match e
    case Enqueue(id, availableAt) => EnqueueKeepsLog(config, y, id, availableAt);
    case TryClaim(w) => ClaimKeepsLog(config, y, w);
    case Tick(_) =>
    case Choose(_, _) =>
    case Crash(_) =>
    case _ => FinishKeepsLog(config, y, e);
  }

  /** In every run, lease or no lease: two claims of one event with no release between them carry
      stamps at least the lock timeout apart. */
  lemma {:induction false} ClaimsAreSpaced(config: Config, events: seq<Event>)
    requires config.Valid()
    ensures LogOk(config, Run(config, events))
  {
    if events != [] {
      var before := events[..|events| - 1];
      ClaimsAreSpaced(config, before);
      StepKeepsLog(config, Run(config, before), events[|events| - 1]);
    }
  }

  // ----- under the lease -----

  predicate Live(config: Config, y: System, w: nat) {
    w in y.workers && !y.workers[w].Chosen? && y.clock < y.workers[w].stamp + config.lockTimeout
  }

  /** A worker that still holds an event writes about it only while its lease lasts. */
  ghost predicate WithinLease(config: Config, y: System, e: Event) {
    Finishing(e) && e.worker in y.workers && !y.workers[e.worker].Chosen? ==> Live(config, y, e.worker)
  }

  ghost predicate Leased(config: Config, events: seq<Event>) {
    forall i :: 0 <= i < |events| ==> WithinLease(config, Run(config, events[..i]), events[i])
  }

  /** A live holder owns its row: the lock is its own stamp, and what it read is still there. */
  ghost predicate Owns(config: Config, y: System, w: nat) {
    Live(config, y, w) ==>
      var k := y.workers[w];
      k.id in y.rows && y.rows[k.id].status.Processing? && y.rows[k.id].lockedAt == Some(k.stamp) &&
      (k.Failing? ==> y.rows[k.id].attempts == k.attempts)
  }

  ghost predicate LeaseOk(config: Config, y: System) {
    && RowsOk(config, y)
    && (forall w :: w in y.workers ==> Owns(config, y, w))
    && (forall v, w :: Live(config, y, v) && Live(config, y, w) && y.workers[v].id == y.workers[w].id ==> v == w)
  }

  /** Terminal rows are final and attempts only grow. */
  ghost predicate Settled(y: System, z: System) {
    forall id :: id in y.rows ==>
      id in z.rows && y.rows[id].attempts <= z.rows[id].attempts &&
      (y.rows[id].status.Delivered? || y.rows[id].status.Failed? ==> z.rows[id] == y.rows[id])
  }

  lemma ClaimKeepsLease(config: Config, y: System, w: nat)
    requires config.Valid() && LeaseOk(config, y)
    ensures LeaseOk(config, Step(config, y, TryClaim(w))) && Settled(y, Step(config, y, TryClaim(w)))
  {
    var z := Step(config, y, TryClaim(w));
    StepKeepsRows(config, y, TryClaim(w));
    if z.log != y.log {
      var k := y.workers[w];
      forall v | Live(config, y, v)
        ensures y.workers[v].id != k.id
      {
        assert Owns(config, y, v);
      }
      forall v | v in z.workers && v != w
        ensures Owns(config, z, v)
      {
        assert Owns(config, y, v);
      }
    } else {
      forall v | v in z.workers
        ensures Owns(config, z, v)
      {
        assert Owns(config, y, v);
      }
    }
  }

  lemma FinishKeepsLease(config: Config, y: System, e: Event)
    requires config.Valid() && LeaseOk(config, y) && Finishing(e) && WithinLease(config, y, e)
    ensures LeaseOk(config, Step(config, y, e)) && Settled(y, Step(config, y, e))
  {
    var z := Step(config, y, e);
    StepKeepsRows(config, y, e);
    if z != y {
      assert Owns(config, y, e.worker);
      forall v | v in z.workers
        ensures Owns(config, z, v)
        ensures Live(config, z, v) ==> Live(config, y, v)
      {
        assert Owns(config, y, v);
      }
    }
  }

  lemma StepKeepsLease(config: Config, y: System, e: Event)
    requires config.Valid() && LeaseOk(config, y) && WithinLease(config, y, e)
    ensures LeaseOk(config, Step(config, y, e)) && Settled(y, Step(config, y, e))
  {
    var z := Step(config, y, e);
    if e.TryClaim? {
      ClaimKeepsLease(config, y, e.worker);
    } else if Finishing(e) {
      FinishKeepsLease(config, y, e);
    } else {
      StepKeepsRows(config, y, e);
      forall v | v in z.workers
        ensures Owns(config, z, v)
        ensures Live(config, z, v) ==> Live(config, y, v)
      {
        if v in y.workers {
          assert Owns(config, y, v);
        }
      }
    }
  }

  lemma {:induction false} RunKeepsLease(config: Config, events: seq<Event>)
    requires config.Valid() && Leased(config, events)
    ensures LeaseOk(config, Run(config, events))
  {
    if events != [] {
      var m := |events| - 1;
      PrefixIsLeased(config, events, m);
      RunKeepsLease(config, events[..m]);
      StepKeepsLease(config, Run(config, events[..m]), events[m]);
    }
  }

  lemma PrefixIsLeased(config: Config, events: seq<Event>, m: nat)
    requires Leased(config, events) && m <= |events|
    ensures Leased(config, events[..m])
  {
    forall i | 0 <= i < m
      ensures WithinLease(config, Run(config, events[..m][..i]), events[..m][i])
    {
      assert events[..m][..i] == events[..i];
    }
  }

  /** When every delivery finishes within its lease, at most one worker at a time holds an event,
      DELIVERED and FAILED are never left, and attempts never decrease. */
  lemma {:induction false} LeasedRunsSettle(config: Config, events: seq<Event>, n: nat)
    requires config.Valid() && Leased(config, events) && n <= |events|
    ensures Settled(Run(config, events[..n]), Run(config, events))
    ensures LeaseOk(config, Run(config, events))
    decreases |events|
  {
    RunKeepsLease(config, events);
    if n < |events| {
      var m := |events| - 1;
      PrefixIsLeased(config, events, m);
      LeasedRunsSettle(config, events[..m], n);
      assert events[..m][..n] == events[..n];
      StepKeepsLease(config, Run(config, events[..m]), events[m]);
    } else {
      assert events[..n] == events;
    }
  }

  lemma FailureTakesEffect(config: Config, y: System, w: nat)
    requires config.Valid() && LeaseOk(config, y) && Live(config, y, w) && y.workers[w].Failing?
    ensures
      var id, z := y.workers[w].id, Step(config, y, WriteFailure(w));
      id in y.rows && id in z.rows &&
      z.rows[id].attempts == y.rows[id].attempts + 1 <= config.maxAttempts &&
      (z.rows[id].status == Failed <==> z.rows[id].attempts == config.maxAttempts) &&
      z.rows[id].availableAt == y.clock + DelayMs(z.rows[id].attempts)
  {
    assert Owns(config, y, w);
  }

  lemma DeliveryTakesEffect(config: Config, y: System, w: nat, until: int)
    requires LeaseOk(config, y) && Live(config, y, w) && y.workers[w].Holding?
    ensures
      var id := y.workers[w].id;
      id in y.rows && Step(config, y, Deliver(w)).rows ==
        y.rows[id := y.rows[id].(status := Delivered, lockedAt := None)] &&
      Step(config, y, Defer(w, until)).rows ==
        y.rows[id := y.rows[id].(status := Pending, availableAt := until, lockedAt := None)]
  {
    assert Owns(config, y, w);
  }

  /** Within its lease a holder's outcome always takes effect: the event becomes DELIVERED, or goes
      back to PENDING at the deferred time, or its remaining attempts strictly fall. */
  lemma OutcomesTakeEffect(config: Config, events: seq<Event>, w: nat, until: int)
    requires config.Valid() && Leased(config, events) && Live(config, Run(config, events), w)
    ensures Run(config, events).workers[w].id in Run(config, events).rows
    ensures
      var y, id := Run(config, events), Run(config, events).workers[w].id;
      y.workers[w].Holding? ==>
        Step(config, y, Deliver(w)).rows == y.rows[id := y.rows[id].(status := Delivered, lockedAt := None)] &&
        Step(config, y, Defer(w, until)).rows ==
          y.rows[id := y.rows[id].(status := Pending, availableAt := until, lockedAt := None)]
    ensures
      var y, id, z := Run(config, events), Run(config, events).workers[w].id,
          Step(config, Run(config, events), WriteFailure(w));
      y.workers[w].Failing? ==>
        id in z.rows && config.maxAttempts - z.rows[id].attempts == config.maxAttempts - y.rows[id].attempts - 1 >= 0 &&
        (z.rows[id].status == Failed <==> z.rows[id].attempts == config.maxAttempts) &&
        z.rows[id].availableAt == y.clock + DelayMs(z.rows[id].attempts)
  {
    RunKeepsLease(config, events);
    var y := Run(config, events);
    if y.workers[w].Holding? {
      DeliveryTakesEffect(config, y, w, until);
    } else {
      FailureTakesEffect(config, y, w);
    }
  }

  /** Exactly when the unguarded write at the end of `fail` undoes nothing: the row is not settled and no
      later attempt was counted, or it already is what would be written. */
  lemma FailureSettlesExactly(config: Config, y: System, w: nat)
    requires w in y.workers && y.workers[w].Failing? && y.workers[w].id in y.rows
    ensures
      var k := y.workers[w];
      var r := y.rows[k.id];
      Settled(y, Step(config, y, WriteFailure(w))) <==>
        || (!r.status.Delivered? && !r.status.Failed? && r.attempts <= k.attempts + 1)
        || AfterFailure(r, k.attempts, y.clock, config) == r
  {
    var k, z := y.workers[w], Step(config, y, WriteFailure(w));
    assert z.rows == y.rows[k.id := AfterFailure(y.rows[k.id], k.attempts, y.clock, config)];
    assert forall id :: id in y.rows && id != k.id ==> z.rows[id] == y.rows[id];
    assert z.rows[k.id].attempts == k.attempts + 1;
  }

  /** Every other event settles rows, lease or no lease, so a run loses a settled row or a counted attempt
      only through such a write. */
  lemma OnlyFailuresUnsettle(config: Config, y: System, e: Event)
    requires RowsOk(config, y) && !e.WriteFailure?
    ensures Settled(y, Step(config, y, e))
  {
  }

  lemma RunSnoc(config: Config, events: seq<Event>, e: Event)
    ensures Run(config, events + [e]) == Step(config, Run(config, events), e)
  {
    assert (events + [e])[..|events|] == events;
  }

  const SHORT: Config := Config(10, 5)
  const FIRST: seq<Event> := [Enqueue("mail", 0)] + [Choose(1, "mail")] + [TryClaim(1)] + [ReadFailure(1)]
  const LATE: seq<Event> := FIRST + [Tick(10)] + [Choose(2, "mail")] + [TryClaim(2)] + [Deliver(2)]

  lemma FirstWorkerReads()
    ensures
      var y := Run(SHORT, FIRST);
      y.rows == map["mail" := Row(Processing, 0, 0, Some(0), 0)] && y.workers == map[1 := Failing("mail", 0, 0)] &&
        y.clock == 0
  {
    var row := Row(Pending, 0, 0, None, 0);
    var e1 := [Enqueue("mail", 0)];
    var y1 := Run(SHORT, e1);
    assert e1 == [] + e1;
    RunSnoc(SHORT, [], e1[0]);
    assert y1.rows == map["mail" := row] && y1.workers == map[] && y1.clock == 0;
    RunSnoc(SHORT, e1, Choose(1, "mail"));
    var y2 := Run(SHORT, e1 + [Choose(1, "mail")]);
    assert y2.rows == y1.rows && y2.workers == map[1 := Chosen("mail", Pending, 0)];
    RunSnoc(SHORT, e1 + [Choose(1, "mail")], TryClaim(1));
    RunSnoc(SHORT, e1 + [Choose(1, "mail")] + [TryClaim(1)], ReadFailure(1));
  }

  lemma SecondWorkerDelivers()
    ensures
      var y := Run(SHORT, LATE);
      "mail" in y.rows && y.rows["mail"].status == Delivered && 1 in y.workers && y.workers[1] == Failing("mail", 0, 0)
  {
    FirstWorkerReads();
    RunSnoc(SHORT, FIRST, Tick(10));
    RunSnoc(SHORT, FIRST + [Tick(10)], Choose(2, "mail"));
    var y := Run(SHORT, FIRST + [Tick(10)] + [Choose(2, "mail")]);
    assert y.workers == map[1 := Failing("mail", 0, 0), 2 := Chosen("mail", Processing, 10)];
    RunSnoc(SHORT, FIRST + [Tick(10)] + [Choose(2, "mail")], TryClaim(2));
    RunSnoc(SHORT, FIRST + [Tick(10)] + [Choose(2, "mail")] + [TryClaim(2)], Deliver(2));
  }

  /** The lease is what makes this true. A worker that reads PROCESSING in `fail`, loses its lease
      to a second worker that delivers, and only then writes, revives a delivered event. */
  lemma LateFailureRevivesDelivered()
    ensures "mail" in Run(SHORT, LATE).rows && Run(SHORT, LATE).rows["mail"].status == Delivered
    ensures "mail" in Run(SHORT, LATE + [WriteFailure(1)]).rows
    ensures Run(SHORT, LATE + [WriteFailure(1)]).rows["mail"].status == Pending
  {
    SecondWorkerDelivers();
    RunSnoc(SHORT, LATE, WriteFailure(1));
  }

  // ----- choosing and claiming -----

  /** Due, or held by a lock that has run out. */
  predicate Ready(r: Row, now: int, config: Config) {
    (r.status == Pending && r.availableAt <= now) ||
    (r.status == Processing && r.lockedAt != None && r.lockedAt.value + config.lockTimeout <= now)
  }

  /** A free worker chooses an event exactly when it is ready and no ready one was created before it. */
  lemma ChoosesExactly(config: Config, y: System, w: nat, id: Id)
    requires w !in y.workers
    ensures
      Step(config, y, Choose(w, id)) ==
        if id in y.rows && Ready(y.rows[id], y.clock, config) &&
           forall k :: k in y.rows && Ready(y.rows[k], y.clock, config) ==> y.rows[id].createdAt <= y.rows[k].createdAt
        then y.(workers := y.workers[w := Chosen(id, y.rows[id].status, y.clock)]) else y
  {
  }

  /** What a claim needs and writes: the event has the status it was chosen with, and if that was PROCESSING its
      lock has run out by the time of the choice; the due date is not looked at again. */
  lemma ClaimsExactly(config: Config, y: System, w: nat)
    requires w in y.workers && y.workers[w].Chosen? && y.workers[w].id in y.rows
    requires y.workers[w].seen == Pending || y.workers[w].seen == Processing
    ensures
      var k, z := y.workers[w], Step(config, y, TryClaim(w));
      var r := y.rows[k.id];
      if r.status == k.seen &&
         (k.seen == Processing ==> r.lockedAt != None && r.lockedAt.value + config.lockTimeout <= k.now)
      then
        z == System(y.clock, y.rows[k.id := Row(Processing, r.attempts, r.availableAt, Some(k.now), r.createdAt)],
                    y.workers[w := Holding(k.id, k.now)], y.log + [Claim(k.id, k.now)])
      else z == y.(workers := y.workers - {w})
  {
  }

  /** So a pending event is claimed before it is due only when another worker claimed or released it after it was
      chosen. */
  lemma EarlyClaimsAreContended(config: Config, events: seq<Event>, n: nat, w: nat, id: Id)
    requires n <= |events| && ChoseIn(config, Run(config, events[..n]), w, id)
    requires w in Run(config, events).workers && Run(config, events).workers[w] == Run(config, events[..n]).workers[w]
    requires id in Run(config, events).rows
    requires
      var y := Run(config, events);
      y.rows[id].status == Pending && Run(config, events[..n]).clock < y.rows[id].availableAt
    ensures Writes(Run(config, events).log, |Run(config, events[..n]).log|, id)
  {
    UnwrittenStays(config, events, n, id);
  }

  const BOTH_CHOOSE: seq<Event> := [Enqueue("mail", 0)] + [Choose(1, "mail")] + [Choose(2, "mail")]

  lemma BothChoose(config: Config)
    ensures
      var y := Run(config, BOTH_CHOOSE);
      y.clock == 0 && y.rows == map["mail" := Row(Pending, 0, 0, None, 0)] &&
      y.workers == map[1 := Chosen("mail", Pending, 0), 2 := Chosen("mail", Pending, 0)]
  {
    var e1 := [Enqueue("mail", 0)];
    assert e1 == [] + e1;
    RunSnoc(config, [], e1[0]);
    RunSnoc(config, e1, Choose(1, "mail"));
    RunSnoc(config, e1 + [Choose(1, "mail")], Choose(2, "mail"));
  }

  /** Two workers choose an event; one claims it and defers it, and the other then claims it at once, long before
      the time it was deferred to. */
  lemma DeferralIsOvertaken(config: Config, until: int)
    requires until > 0
    ensures
      var y := Run(config, BOTH_CHOOSE + [TryClaim(2)] + [Defer(2, until)] + [TryClaim(1)]);
      y.clock < until && y.rows == map["mail" := Row(Processing, 0, until, Some(0), 0)]
  {
    BothChoose(config);
    RunSnoc(config, BOTH_CHOOSE, TryClaim(2));
    RunSnoc(config, BOTH_CHOOSE + [TryClaim(2)], Defer(2, until));
    RunSnoc(config, BOTH_CHOOSE + [TryClaim(2)] + [Defer(2, until)], TryClaim(1));
  }

  // ----- losing a claim -----

  /** The worker's choice of an event, as it was when it was made. */
  ghost predicate ChoseIn(config: Config, y: System, w: nat, id: Id) {
    w in y.workers && id in y.rows && y.workers[w] == Chosen(id, y.rows[id].status, y.clock) &&
      Eligible(y.rows[id], y.clock, config)
  }

  ghost predicate Writes(log: seq<Entry>, from: nat, id: Id) {
    exists k :: from <= k < |log| && log[k].id == id
  }

  lemma LogOnlyGrows(config: Config, y: System, e: Event)
    ensures y.log <= Step(config, y, e).log
  {
  }

  /** A row changes only by a logged claim or release of that row. */
  lemma ChangesAreLogged(config: Config, y: System, e: Event, id: Id)
    requires id in y.rows
    ensures id in Step(config, y, e).rows
    ensures Step(config, y, e).rows[id] != y.rows[id] ==> Writes(Step(config, y, e).log, |y.log|, id)
  {
    var z := Step(config, y, e);
    if z.rows[id] != y.rows[id] {
      assert |z.log| == |y.log| + 1 && z.log[|y.log|].id == id;
    }
  }

  lemma {:induction false} UnwrittenStays(config: Config, events: seq<Event>, n: nat, id: Id)
    requires n <= |events| && id in Run(config, events[..n]).rows
    ensures Run(config, events[..n]).log <= Run(config, events).log && id in Run(config, events).rows
    ensures Run(config, events).rows[id] == Run(config, events[..n]).rows[id] ||
            Writes(Run(config, events).log, |Run(config, events[..n]).log|, id)
    decreases |events|
  {
    if n == |events| {
      assert events[..n] == events;
    } else {
      var m := |events| - 1;
      assert events[..m][..n] == events[..n];
      UnwrittenStays(config, events[..m], n, id);
      StillWritten(config, Run(config, events[..m]), events[m], |Run(config, events[..n]).log|, id);
    }
  }

  lemma StillWritten(config: Config, y: System, e: Event, from: nat, id: Id)
    requires id in y.rows && from <= |y.log|
    ensures y.log <= Step(config, y, e).log && id in Step(config, y, e).rows
    ensures Writes(y.log, from, id) ==> Writes(Step(config, y, e).log, from, id)
    ensures Step(config, y, e).rows[id] == y.rows[id] || Writes(Step(config, y, e).log, from, id)
  {
    LogOnlyGrows(config, y, e);
    ChangesAreLogged(config, y, e, id);
    var log := Step(config, y, e).log;
    if Writes(y.log, from, id) {
      var k :| from <= k < |y.log| && y.log[k].id == id;
      assert log[k] == y.log[k];
    }
    if Step(config, y, e).rows[id] != y.rows[id] {
      var k :| |y.log| <= k < |log| && log[k].id == id;
    }
  }

  /** With any number of workers a claim is lost, and the pass ended, only when another worker claimed or
      released the chosen event after it was chosen; untouched it is always claimed. */
  lemma LostClaimsAreContended(config: Config, events: seq<Event>, n: nat, w: nat, id: Id)
    requires n <= |events| && ChoseIn(config, Run(config, events[..n]), w, id)
    requires w in Run(config, events).workers && Run(config, events).workers[w] == Run(config, events[..n]).workers[w]
    ensures
      var x, y := Run(config, events[..n]), Run(config, events);
      Writes(y.log, |x.log|, id) ||
      Step(config, y, TryClaim(w)).log == y.log + [Claim(id, x.clock)]
  {
    UnwrittenStays(config, events, n, id);
  }

  /** A free worker finds something to choose exactly when something is eligible, so a pass that ends
      without losing a claim has nothing left to do. */
  lemma ChoiceExistsExactly(config: Config, y: System, w: nat)
    requires w !in y.workers
    ensures (exists id :: Step(config, y, Choose(w, id)) != y) <==>
            (exists id :: id in y.rows && Eligible(y.rows[id], y.clock, config))
  {
    var left := set id | id in y.rows && Eligible(y.rows[id], y.clock, config);
    assert forall id :: id in y.rows && Eligible(y.rows[id], y.clock, config) ==> id in left;
    if left != {} {
      var id := OldestOf(config, y, left);
      assert w in Step(config, y, Choose(w, id)).workers;
    }
  }

  lemma {:induction false} OldestOf(config: Config, y: System, ids: set<Id>) returns (id: Id)
    requires ids != {} && forall k :: k in ids ==> k in y.rows
    ensures id in ids && forall k :: k in ids ==> y.rows[id].createdAt <= y.rows[k].createdAt
    decreases ids
  {
    var some :| some in ids;
    if ids == {some} {
      id := some;
    } else {
      var rest := OldestOf(config, y, ids - {some});
      id := if y.rows[some].createdAt <= y.rows[rest].createdAt then some else rest;
    }
  }

  // ----- one worker's pass -----

  datatype Outcome = Sent | Postponed(until: int) | Broken

  /** What one turn of a pass finds: the clock when it claims, the clock when the delivery ends, and how. */
  datatype Turn = Turn(claimedAt: int, endedAt: int, outcome: Outcome) {
    /** The delivery keeps its event from being claimed until `horizon`. */
    predicate Lasts(horizon: int) {
      horizon < endedAt + 2_000 && (outcome.Postponed? ==> horizon < outcome.until)
    }
  }

  ghost predicate InOrder(turns: seq<Turn>, horizon: int) {
    && (forall i :: 0 <= i < |turns| ==> turns[i].claimedAt <= turns[i].endedAt <= horizon)
    && (forall i, k :: 0 <= i < k < |turns| ==> turns[i].endedAt <= turns[k].claimedAt)
  }

  lemma OneLess(a: set<Id>, b: set<Id>, x: Id)
    requires x in a && b - {x} == a - {x}
    ensures |a| == |b| + (if x in b then 0 else 1)
  {
    assert |a - {x}| == |a| - 1;
    if x in b {
      assert |b - {x}| == |b| - 1;
    } else {
      assert b - {x} == b;
    }
  }

  class OutboxTable {
    const config: Config
    var rows: map<Id, Row>

    constructor (config: Config)
      requires config.Valid()
      ensures this.config == config && rows == map[]
    {
      this.config := config;
      rows := map[];
    }

    /** Claims the oldest eligible event, if there is one. */
    method ClaimNext(now: int) returns (claimed: Option<Id>)
      modifies this
      ensures claimed.None? ==> rows == old(rows) && forall id :: id in rows ==> !Eligible(rows[id], now, config)
      ensures claimed.Some? ==>
                claimed.value in old(rows) && Eligible(old(rows)[claimed.value], now, config) &&
                rows == old(rows)[claimed.value := Claimed(old(rows)[claimed.value], now)] &&
                forall id :: id in old(rows) && Eligible(old(rows)[id], now, config) ==>
                  old(rows)[claimed.value].createdAt <= old(rows)[id].createdAt
    {
      var left := set id | id in rows && Eligible(rows[id], now, config);
      ghost var all := left;
      claimed := None;
      while left != {}
        invariant left <= all && rows == old(rows)
        invariant claimed.Some? ==> claimed.value in all
        invariant claimed.Some? ==> forall id :: id in all - left ==>
                  rows[claimed.value].createdAt <= rows[id].createdAt
        invariant claimed.None? ==> left == all
        decreases left
      {
        var id :| id in left;
        if claimed.None? || rows[id].createdAt < rows[claimed.value].createdAt {
          claimed := Some(id);
        }
        left := left - {id};
      }
      if claimed.Some? {
        rows := rows[claimed.value := Claimed(rows[claimed.value], now)];
      } else {
        assert forall id :: id in rows && Eligible(rows[id], now, config) ==> id in all;
      }
    }

    method Settle(id: Id, outcome: Outcome, now: int)
      requires id in rows
      modifies this
      ensures rows == old(rows)[id :=
                match outcome
                case Sent => AfterDelivery(old(rows)[id])
                case Postponed(until) => AfterDeferral(old(rows)[id], until)
                case Broken =>
                  if old(rows)[id].status.Processing?
                  then AfterFailure(old(rows)[id], old(rows)[id].attempts, now, config) else old(rows)[id]]
      ensures !rows[id].status.Processing? && (!old(rows)[id].status.Processing? ==> rows == old(rows))
      ensures rows[id].attempts == old(rows)[id].attempts +
              (if outcome.Broken? && old(rows)[id].status.Processing? then 1 else 0)
    {
      match outcome
      case Sent => rows := rows[id := AfterDelivery(rows[id])];
      case Postponed(until) => rows := rows[id := AfterDeferral(rows[id], until)];
      case Broken =>
        if rows[id].status.Processing? {
          rows := rows[id := AfterFailure(rows[id], rows[id].attempts, now, config)];
        }
    }

    /** One pass of up to `limit` deliveries, each with its own clock readings, none after `horizon`. A pass
        that stops early found nothing eligible when it last looked. Of the events eligible by the
        horizon each is delivered or left eligible, no other event is touched, and when the outcomes last
        until then every delivery takes one event out of the eligible set. */
    method ProcessAvailable(limit: nat, turns: seq<Turn>, ghost horizon: int) returns (processed: nat)
      requires |turns| == limit && InOrder(turns, horizon)
      modifies this
      ensures rows.Keys == old(rows).Keys
      ensures processed <= limit
      ensures processed < limit ==> forall id :: id in rows ==> !Eligible(rows[id], turns[processed].claimedAt, config)
      ensures |EligibleIds(old(rows), horizon)| <= processed + |EligibleIds(rows, horizon)|
      ensures (forall i :: 0 <= i < limit ==> turns[i].Lasts(horizon)) ==>
                |EligibleIds(old(rows), horizon)| == processed + |EligibleIds(rows, horizon)|
      ensures forall id :: id in rows && !Eligible(old(rows)[id], horizon, config) ==> rows[id] == old(rows)[id]
    {
      processed := 0;
      for index := 0 to limit
        invariant processed == index
        invariant rows.Keys == old(rows).Keys
        invariant |EligibleIds(old(rows), horizon)| <= processed + |EligibleIds(rows, horizon)|
        invariant (forall i :: 0 <= i < limit ==> turns[i].Lasts(horizon)) ==>
                    |EligibleIds(old(rows), horizon)| == processed + |EligibleIds(rows, horizon)|
        invariant forall id :: id in rows && !Eligible(old(rows)[id], horizon, config) ==> rows[id] == old(rows)[id]
      {
        ghost var before := rows;
        var id := ClaimNext(turns[index].claimedAt);
        if id.None? {
          return;
        }
        processed := processed + 1;
        assert id.value in EligibleIds(before, horizon);
        Settle(id.value, turns[index].outcome, turns[index].endedAt);
        DelaysAreBounded(before[id.value].attempts + 1, before[id.value].attempts + 1);
        assert EligibleIds(rows, horizon) - {id.value} == EligibleIds(before, horizon) - {id.value};
        OneLess(EligibleIds(before, horizon), EligibleIds(rows, horizon), id.value);
        assert turns[index].Lasts(horizon) ==> id.value !in EligibleIds(rows, horizon);
      }
    }

    ghost function EligibleIds(rows: map<Id, Row>, now: int): set<Id> {
      set id | id in rows && Eligible(rows[id], now, config)
    }
  }
}
