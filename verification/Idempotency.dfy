/** The idempotency interceptor: reserve, read, reclaim, run the handler, complete or delete, with
    any number of requests interleaved one database statement at a time. */
module Idempotency {
  import opened Basics

  const TTL: int := 86_400_000

  /** The unique index of the table. */
  datatype Key = Key(userId: string, scope: string, key: string)
  type Hash = string
  type Body = string

  /** `done` is the stored response; a record without one is PROCESSING. */
  datatype Record = Record(id: nat, hash: Hash, done: Option<Body>, expiresAt: int)

  datatype Reply = Executed(body: Body) | Replayed(stored: Body) | HandlerFailed | KeyReused | InProgress | Lost

  datatype Phase =
    | Started(expiresAt: int)                      // expiry computed, nothing written
    | Taken(expiresAt: int)                        // the insert hit the unique index
    | SawExpired(seen: Record, expiresAt: int)     // about to try the guarded reclaim
    | Running(recordId: nat, expiresAt: int)       // the handler runs
    | Replied(reply: Reply)
    | Dead                                         // the process died before it answered

  datatype Call = Call(key: Key, hash: Hash, phase: Phase)

  /** `executed` records every response a handler produced. */
  datatype System = System(
    clock: int, records: map<Key, Record>, nextId: nat, calls: map<nat, Call>, executed: set<(Key, Hash, Body)>)

  datatype Event =
    | Tick(ms: nat)
    | Arrive(call: nat, key: Key, hash: Hash)
    | Create(call: nat)
    | Read(call: nat)
    | Reclaim(call: nat)
    | Complete(call: nat, body: Body)
    | Delete(call: nat)
    | Crash(call: nat)

  /** The answer for a request that did not get the reservation. */
  function Decide(seen: Record, hash: Hash): Reply {
    if seen.hash != hash then KeyReused
    else if seen.done.Some? then Replayed(seen.done.value)
    else InProgress
  }

  function Move(y: System, c: nat, phase: Phase): System
    requires c in y.calls
  {
    y.(calls := y.calls[c := y.calls[c].(phase := phase)])
  }

  predicate HasId(y: System, key: Key, id: nat) {
    key in y.records && y.records[key].id == id
  }

  function Step(y: System, e: Event): System {
    match e
    case Tick(ms) => y.(clock := y.clock + ms)
    case Arrive(c, key, hash) =>
      if c in y.calls then y else y.(calls := y.calls[c := Call(key, hash, Started(y.clock + TTL))])
    case Create(c) =>
      if c !in y.calls || !y.calls[c].phase.Started? then y
      else
        var k := y.calls[c];
        if k.key in y.records then Move(y, c, Taken(k.phase.expiresAt))
        else Move(y, c, Running(y.nextId, k.phase.expiresAt)).(
          records := y.records[k.key := Record(y.nextId, k.hash, None, k.phase.expiresAt)], nextId := y.nextId + 1)
    case Read(c) =>
      if c !in y.calls || !y.calls[c].phase.Taken? then y
      else
        var k := y.calls[c];
        if k.key !in y.records then Move(y, c, Replied(Lost))
        else if y.records[k.key].expiresAt <= y.clock then Move(y, c, SawExpired(y.records[k.key], k.phase.expiresAt))
        else Move(y, c, Replied(Decide(y.records[k.key], k.hash)))
    case Reclaim(c) =>
      if c !in y.calls || !y.calls[c].phase.SawExpired? then y
      else
        var k := y.calls[c];
        if HasId(y, k.key, k.phase.seen.id) && y.records[k.key].expiresAt <= y.clock then
          Move(y, c, Running(k.phase.seen.id, k.phase.expiresAt)).(
            records := y.records[k.key := Record(k.phase.seen.id, k.hash, None, k.phase.expiresAt)])
        else Move(y, c, Replied(Decide(k.phase.seen, k.hash)))
    case Complete(c, body) =>
      if c !in y.calls || !y.calls[c].phase.Running? then y
      else
        var k := y.calls[c];
        var z := y.(executed := y.executed + {(k.key, k.hash, body)});
        if !HasId(y, k.key, k.phase.recordId) then Move(z, c, Replied(Lost))
        else Move(z, c, Replied(Executed(body))).(records := y.records[k.key := y.records[k.key].(done := Some(body))])
    case Delete(c) =>
      if c !in y.calls || !y.calls[c].phase.Running? then y
      else
        var k := y.calls[c];
        Move(y, c, Replied(HandlerFailed)).(
          records := if HasId(y, k.key, k.phase.recordId) then y.records - {k.key} else y.records)
    case Crash(c) => if c !in y.calls || y.calls[c].phase.Replied? then y else Move(y, c, Dead)
  }

  function Run(events: seq<Event>): System {
    if events == [] then System(0, map[], 0, map[], {})
    else Step(Run(events[..|events| - 1]), events[|events| - 1])
  }

  // ----- the lease -----

  /** A handler that runs and whose reservation has not expired. */
  predicate Live(y: System, c: nat) {
    c in y.calls && y.calls[c].phase.Running? && y.clock < y.calls[c].phase.expiresAt
  }

  /** No handler outlives its reservation: before its expiry it completes, fails or dies with its
      process, and no reservation is already over when it is made. */
  ghost predicate Prompt(y: System) {
    forall c :: c in y.calls && y.calls[c].phase.Running? ==> y.clock < y.calls[c].phase.expiresAt
  }

  ghost predicate AlwaysPrompt(events: seq<Event>) {
    forall n :: 0 <= n <= |events| ==> Prompt(Run(events[..n]))
  }

  ghost predicate Owns(y: System, c: nat) {
    Live(y, c) ==>
      var k := y.calls[c];
      k.key in y.records && y.records[k.key] == Record(k.phase.recordId, k.hash, None, k.phase.expiresAt)
  }

  ghost predicate OneHandler(y: System) {
    forall b, c :: Live(y, b) && Live(y, c) && y.calls[b].key == y.calls[c].key ==> b == c
  }

  /** Record ids are never reused for another key, and stay below the counter. */
  ghost predicate IdsOk(y: System) {
    && (forall k :: k in y.records ==> y.records[k].id < y.nextId)
    && (forall c :: c in y.calls && y.calls[c].phase.Running? ==> y.calls[c].phase.recordId < y.nextId)
    && (forall c :: c in y.calls && y.calls[c].phase.SawExpired? ==> y.calls[c].phase.seen.id < y.nextId)
  }

  /** Whatever is stored, seen or replayed was produced by a handler for that key and hash. */
  ghost predicate Genuine(y: System) {
    && (forall k :: k in y.records && y.records[k].done.Some? ==>
      (k, y.records[k].hash, y.records[k].done.value) in y.executed)
    && (forall c :: c in y.calls && y.calls[c].phase.SawExpired? && y.calls[c].phase.seen.done.Some? ==>
          (y.calls[c].key, y.calls[c].phase.seen.hash, y.calls[c].phase.seen.done.value) in y.executed)
    && (forall c :: c in y.calls && y.calls[c].phase.Replied? && y.calls[c].phase.reply.Replayed? ==>
          (y.calls[c].key, y.calls[c].hash, y.calls[c].phase.reply.stored) in y.executed)
  }

  ghost predicate SystemOk(y: System) {
    && IdsOk(y) && Genuine(y) && OneHandler(y)
    && (forall c :: c in y.calls ==> Owns(y, c))
  }

  /** Only a running call whose lease lasts writes the outcome of its handler. */
  predicate InTime(y: System, e: Event) {
    (e.Complete? || e.Delete?) && e.call in y.calls && y.calls[e.call].phase.Running? ==> Live(y, e.call)
  }

  /** A handler ends while the record it reserved is another one's, with the same id: it is that of a
      live handler, or of another request, for which the response was never produced. */
  ghost predicate Spoils(y: System, e: Event) {
    (e.Complete? || e.Delete?) && e.call in y.calls && y.calls[e.call].phase.Running? &&
    var k := y.calls[e.call];
    k.key in y.records && y.records[k.key].id == k.phase.recordId &&
    ((exists b :: b != e.call && Live(y, b) && y.calls[b].key == k.key) ||
     (e.Complete? && y.records[k.key].hash != k.hash && (k.key, y.records[k.key].hash, e.body) !in y.executed))
  }

  lemma InTimeSpoilsNothing(y: System, e: Event)
    requires SystemOk(y) && InTime(y, e)
    ensures !Spoils(y, e)
  {
    if (e.Complete? || e.Delete?) && e.call in y.calls {
      assert Owns(y, e.call);
    }
  }

  /** A new reservation for a key with no live handler. */
  lemma ReservationKeeps(y: System, z: System, c: nat)
    requires SystemOk(y) && c in y.calls && !Live(y, c) && z.clock == y.clock
    requires forall b :: Live(y, b) ==> y.calls[b].key != y.calls[c].key
    requires c in z.calls && z.calls == y.calls[c := z.calls[c]] && z.calls[c].phase.Running?
    requires z.calls[c].key == y.calls[c].key && z.calls[c].key in z.records
    requires z.records == y.records[z.calls[c].key := z.records[z.calls[c].key]]
    requires z.records[z.calls[c].key] ==
             Record(z.calls[c].phase.recordId, z.calls[c].hash, None, z.calls[c].phase.expiresAt)
    ensures OneHandler(z) && forall b :: b in z.calls ==> Owns(z, b)
  {
    forall b | b in z.calls
      ensures Owns(z, b)
      ensures Live(z, b) && b != c ==> Live(y, b)
    {
      assert Owns(y, b);
    }
  }

  /** A call that reserves nothing becomes no handler and disturbs no record. */
  lemma RefusalKeeps(y: System, z: System, c: nat)
    requires SystemOk(y) && c in y.calls && z.clock == y.clock && z.records == y.records
    requires c in z.calls && z.calls == y.calls[c := z.calls[c]] && !z.calls[c].phase.Running?
    ensures OneHandler(z) && forall b :: b in z.calls ==> Owns(z, b)
  {
    forall b | b in z.calls
      ensures Owns(z, b)
      ensures Live(z, b) ==> Live(y, b)
    {
      assert Owns(y, b);
    }
  }

  lemma ReserveKeeps(y: System, e: Event)
    requires SystemOk(y) && (e.Create? || e.Reclaim?)
    ensures OneHandler(Step(y, e)) && forall c :: c in Step(y, e).calls ==> Owns(Step(y, e), c)
  {
    var z := Step(y, e);
    if z == y {
    } else if z.calls[e.call].phase.Running? {
      forall b | Live(y, b)
        ensures y.calls[b].key != y.calls[e.call].key
      {
        assert Owns(y, b);
      }
      ReservationKeeps(y, z, e.call);
    } else {
      RefusalKeeps(y, z, e.call);
    }
  }

  lemma OutcomeKeeps(y: System, e: Event)
    requires SystemOk(y) && (e.Complete? || e.Delete?) && !Spoils(y, e)
    ensures OneHandler(Step(y, e)) && forall c :: c in Step(y, e).calls ==> Owns(Step(y, e), c)
  {
    var z := Step(y, e);
    forall c | c in z.calls
      ensures Owns(z, c)
      ensures Live(z, c) ==> Live(y, c)
    {
      assert Owns(y, c);
    }
  }

  lemma StepKeepsIds(y: System, e: Event)
    requires IdsOk(y)
    ensures IdsOk(Step(y, e))
  {
  }

  lemma StepKeepsGenuine(y: System, e: Event)
    requires SystemOk(y) && !Spoils(y, e)
    ensures Genuine(Step(y, e))
  {
  }

  lemma OthersKeep(y: System, e: Event)
    requires SystemOk(y) && (e.Tick? || e.Arrive? || e.Read? || e.Crash?)
    ensures OneHandler(Step(y, e)) && forall c :: c in Step(y, e).calls ==> Owns(Step(y, e), c)
  {
    var z := Step(y, e);
    forall c | c in z.calls
      ensures Owns(z, c)
      ensures Live(z, c) ==> Live(y, c)
    {
      if c in y.calls {
        assert Owns(y, c);
      }
    }
  }

  lemma StepKeeps(y: System, e: Event)
    requires SystemOk(y) && !Spoils(y, e)
    ensures SystemOk(Step(y, e))
  {
    StepKeepsIds(y, e);
    StepKeepsGenuine(y, e);
    if e.Create? || e.Reclaim? {
      ReserveKeeps(y, e);
    } else if e.Complete? || e.Delete? {
      OutcomeKeeps(y, e);
    } else {
      OthersKeep(y, e);
    }
  }

  lemma PrefixIsPrompt(events: seq<Event>, m: nat)
    requires AlwaysPrompt(events) && m <= |events|
    ensures AlwaysPrompt(events[..m]) && Prompt(Run(events[..m]))
  {
    forall n | 0 <= n <= m
      ensures Prompt(Run(events[..m][..n]))
    {
      assert events[..m][..n] == events[..n];
    }
  }

  lemma {:induction false} RunKeeps(events: seq<Event>)
    requires AlwaysPrompt(events)
    ensures SystemOk(Run(events))
  {
    if events != [] {
      var m := |events| - 1;
      PrefixIsPrompt(events, m);
      RunKeeps(events[..m]);
      InTimeSpoilsNothing(Run(events[..m]), events[m]);
      StepKeeps(Run(events[..m]), events[m]);
    }
  }

  /** When every handler ends within its reservation, at most one handler runs per key at any time,
      and it owns the record it will complete or delete. */
  lemma HandlersExclude(events: seq<Event>, b: nat, c: nat)
    requires AlwaysPrompt(events) && b in Run(events).calls && c in Run(events).calls
    requires Run(events).calls[b].phase.Running? && Run(events).calls[c].phase.Running?
    requires Run(events).calls[b].key == Run(events).calls[c].key
    ensures b == c
    ensures Run(events).calls[c].key in Run(events).records
    ensures Run(events).records[Run(events).calls[c].key] ==
            Record(Run(events).calls[c].phase.recordId, Run(events).calls[c].hash, None,
              Run(events).calls[c].phase.expiresAt)
  {
    RunKeeps(events);
    var y := Run(events);
    assert events[..|events|] == events;
    assert Prompt(y);
    assert Live(y, b) && Live(y, c) && Owns(y, c);
  }

  predicate Stored(y: System, key: Key, r: Record) {
    key in y.records && y.records[key] == r && r.done.Some? && y.clock < r.expiresAt
  }

  lemma StepKeepsStored(y: System, e: Event, key: Key, r: Record)
    requires SystemOk(y) && InTime(y, e) && Stored(y, key, r) && Step(y, e).clock < r.expiresAt
    ensures Stored(Step(y, e), key, r)
  {
    if (e.Complete? || e.Delete?) && e.call in y.calls && y.calls[e.call].phase.Running? {
      assert Owns(y, e.call);
    }
  }

  lemma {:induction false} StoredStays(events: seq<Event>, more: seq<Event>, key: Key, r: Record)
    requires AlwaysPrompt(events + more) && Stored(Run(events), key, r) && Run(events + more).clock < r.expiresAt
    ensures Stored(Run(events + more), key, r)
    decreases |more|
  {
    if more == [] {
      assert events + more == events;
    } else {
      var all, m := events + more, |more| - 1;
      var before := events + more[..m];
      assert all[..|all| - 1] == before && all[|all| - 1] == more[m];
      PrefixIsPrompt(all, |all| - 1);
      ClockGrows(Run(before), more[m]);
      StoredStays(events, more[..m], key, r);
      RunKeeps(before);
      StepKeepsStored(Run(before), more[m], key, r);
    }
  }

  lemma ClockGrows(y: System, e: Event)
    ensures y.clock <= Step(y, e).clock
  {
  }

  /** From the moment a response is stored until it expires: no handler runs for the key, the record
      never changes, and every request that then reads it gets the stored response when its hash
      matches and a refusal otherwise. */
  lemma CompletedIsReplayed(events: seq<Event>, more: seq<Event>, key: Key, r: Record, c: nat)
    requires AlwaysPrompt(events + more) && Stored(Run(events), key, r) && Run(events + more).clock < r.expiresAt
    requires c in Run(events + more).calls && Run(events + more).calls[c].key == key
    ensures Stored(Run(events + more), key, r)
    ensures !Run(events + more).calls[c].phase.Running?
    ensures
      var y, z := Run(events + more), Step(Run(events + more), Read(c));
      y.calls[c].phase.Taken? ==>
        z.calls[c].phase == Replied(if y.calls[c].hash == r.hash then Replayed(r.done.value) else KeyReused)
    ensures
      var y, z := Run(events + more), Step(Run(events + more), Create(c));
      y.calls[c].phase.Started? ==> z.records == y.records && z.calls[c].phase.Taken?
  {
    StoredStays(events, more, key, r);
    RunKeeps(events + more);
    var y := Run(events + more);
    assert (events + more)[..|events + more|] == events + more;
    assert Prompt(y) && Owns(y, c);
  }

  // ----- how long a reservation lasts -----

  predicate Reserving(p: Phase) {
    p.Started? || p.Taken? || p.SawExpired? || p.Running?
  }

  /** Event `i` is the arrival of call `c`, a day of 86,400,000 milliseconds before `expiresAt`. */
  ghost predicate ArrivedADayBefore(events: seq<Event>, i: nat, c: nat, key: Key, hash: Hash, expiresAt: int) {
    i < |events| && events[i] == Arrive(c, key, hash) && expiresAt == Run(events[..i]).clock + 86_400_000
  }

  lemma OneMoreEvent(events: seq<Event>, i: nat, c: nat, key: Key, hash: Hash, expiresAt: int)
    requires events != [] && ArrivedADayBefore(events[..|events| - 1], i, c, key, hash, expiresAt)
    ensures ArrivedADayBefore(events, i, c, key, hash, expiresAt)
  {
    assert events[..|events| - 1][..i] == events[..i];
  }

  lemma ReservingBefore(y: System, e: Event, c: nat)
    requires c in Step(y, e).calls && Reserving(Step(y, e).calls[c].phase)
    requires e.Arrive? && e.call == c ==> c in y.calls
    ensures c in y.calls && Reserving(y.calls[c].phase)
    ensures y.calls[c].key == Step(y, e).calls[c].key && y.calls[c].hash == Step(y, e).calls[c].hash
    ensures y.calls[c].phase.expiresAt == Step(y, e).calls[c].phase.expiresAt
  {
  }

  lemma {:induction false} CallsLastADay(events: seq<Event>, c: nat) returns (i: nat)
    requires c in Run(events).calls && Reserving(Run(events).calls[c].phase)
    ensures
      var k := Run(events).calls[c];
      ArrivedADayBefore(events, i, c, k.key, k.hash, k.phase.expiresAt)
    decreases |events|
  {
    var m := |events| - 1;
    var before, e, k := events[..m], events[m], Run(events).calls[c];
    if e.Arrive? && e.call == c && c !in Run(before).calls {
      i := m;
    } else {
      ReservingBefore(Run(before), e, c);
      i := CallsLastADay(before, c);
      OneMoreEvent(events, i, c, k.key, k.hash, k.phase.expiresAt);
    }
  }

  lemma RecordsComeFromCalls(y: System, e: Event, key: Key)
    requires key in Step(y, e).records
    requires key in y.records ==>
               Step(y, e).records[key].hash != y.records[key].hash ||
               Step(y, e).records[key].expiresAt != y.records[key].expiresAt
    ensures (e.Create? || e.Reclaim?) && e.call in y.calls && Reserving(y.calls[e.call].phase)
    ensures
      var k, r := y.calls[e.call], Step(y, e).records[key];
      k.key == key && r.hash == k.hash && r.expiresAt == k.phase.expiresAt
  {
  }

  /** In every run a record expires a day after the arrival of a request for its key and hash. */
  lemma {:induction false} RecordsLastADay(events: seq<Event>, key: Key) returns (i: nat, c: nat)
    requires key in Run(events).records
    ensures
      var r := Run(events).records[key];
      ArrivedADayBefore(events, i, c, key, r.hash, r.expiresAt)
    decreases |events|
  {
    var m := |events| - 1;
    var before, e, r := events[..m], events[m], Run(events).records[key];
    var old_ := Run(before).records;
    if key in old_ && old_[key].hash == r.hash && old_[key].expiresAt == r.expiresAt {
      i, c := RecordsLastADay(before, key);
    } else {
      RecordsComeFromCalls(Run(before), e, key);
      c := e.call;
      i := CallsLastADay(before, c);
    }
    OneMoreEvent(events, i, c, key, r.hash, r.expiresAt);
  }

  // ----- handlers that outlive their reservation -----

  lemma SpoilingBreaks(y: System, e: Event)
    requires SystemOk(y) && Spoils(y, e)
    ensures !SystemOk(Step(y, e))
  {
    var z, k := Step(y, e), y.calls[e.call];
    if b :| b != e.call && Live(y, b) && y.calls[b].key == k.key {
      assert Live(z, b) && !Owns(z, b);
    } else {
      assert k.key in z.records && z.records[k.key].done == Some(e.body);
      assert (k.key, z.records[k.key].hash, e.body) !in z.executed;
    }
  }

  /** Exactly when an event breaks what the reservation is for (one live handler per key, which owns its
      record, and responses stored and replayed only for the request that produced them). */
  lemma SoundnessBreaksExactly(y: System, e: Event)
    requires SystemOk(y)
    ensures SystemOk(Step(y, e)) <==> !Spoils(y, e)
  {
    if Spoils(y, e) {
      SpoilingBreaks(y, e);
    } else {
      StepKeeps(y, e);
    }
  }

  ghost predicate NothingSpoiled(events: seq<Event>) {
    forall n :: 0 <= n < |events| ==> !Spoils(Run(events[..n]), events[n])
  }

  /** However long handlers take: until the first such end, every live handler of a run is the only one for
      its key and owns its record, and replays are genuine. */
  lemma {:induction false} SoundUntilSpoiled(events: seq<Event>)
    requires NothingSpoiled(events)
    ensures SystemOk(Run(events))
  {
    if events != [] {
      var m := |events| - 1;
      forall n | 0 <= n < m
        ensures !Spoils(Run(events[..m][..n]), events[..m][n])
      {
        assert events[..m][..n] == events[..n];
      }
      SoundUntilSpoiled(events[..m]);
      SoundnessBreaksExactly(Run(events[..m]), events[m]);
    }
  }

  /** Every replayed response was produced by a handler for the same key and the same hash. */
  lemma ReplaysAreGenuine(events: seq<Event>, c: nat)
    requires NothingSpoiled(events)
    requires c in Run(events).calls && Run(events).calls[c].phase.Replied? && Run(events).calls[c].phase.reply.Replayed?
    ensures
      var k := Run(events).calls[c];
      (k.key, k.hash, k.phase.reply.stored) in Run(events).executed
  {
    SoundUntilSpoiled(events);
  }

  /** Handlers that end within their reservation spoil nothing. */
  lemma PromptSpoilsNothing(events: seq<Event>)
    requires AlwaysPrompt(events)
    ensures NothingSpoiled(events)
  {
    forall n | 0 <= n < |events|
      ensures !Spoils(Run(events[..n]), events[n])
    {
      PrefixIsPrompt(events, n);
      RunKeeps(events[..n]);
      InTimeSpoilsNothing(Run(events[..n]), events[n]);
    }
  }

  // ----- a replay can be out of date -----

  /** What a call saw as expired was expired, and still is. */
  ghost predicate SeenIsOver(y: System) {
    forall c :: c in y.calls && y.calls[c].phase.SawExpired? ==> y.calls[c].phase.seen.expiresAt <= y.clock
  }

  lemma StepKeepsSeenOver(y: System, e: Event)
    requires SeenIsOver(y)
    ensures SeenIsOver(Step(y, e))
  {
  }

  lemma {:induction false} SeenIsAlwaysOver(events: seq<Event>)
    ensures SeenIsOver(Run(events))
  {
    if events != [] {
      SeenIsAlwaysOver(events[..|events| - 1]);
      StepKeepsSeenOver(Run(events[..|events| - 1]), events[|events| - 1]);
    }
  }

  /** The answer the event gives this call is a replay. */
  predicate AnswersReplay(y: System, e: Event, c: nat) {
    c in y.calls && !y.calls[c].phase.Replied? && c in Step(y, e).calls && Step(y, e).calls[c].phase.Replied? &&
    Step(y, e).calls[c].phase.reply.Replayed?
  }

  /** The reclaim's guard: the record read is still there and still expired. */
  predicate Reclaimable(y: System, k: Call)
    requires k.phase.SawExpired?
  {
    k.key in y.records && y.records[k.key].id == k.phase.seen.id && y.records[k.key].expiresAt <= y.clock
  }

  /** In every run a replay answered by a read is of an unexpired record. */
  lemma ReadsReplayUnexpired(events: seq<Event>, c: nat)
    ensures
      var y := Run(events);
      AnswersReplay(y, Read(c), c) <==>
        c in y.calls && y.calls[c].phase.Taken? && y.calls[c].key in y.records &&
        y.records[y.calls[c].key].hash == y.calls[c].hash && y.records[y.calls[c].key].done.Some? &&
        y.clock < y.records[y.calls[c].key].expiresAt
  {
  }

  /** Exactly when an expired response is replayed: the request read a completed record of its own hash as
      expired and then lost the reclaim. No other event replays one. */
  lemma ExpiredReplayExactly(events: seq<Event>, e: Event, c: nat)
    ensures
      var y := Run(events);
      AnswersReplay(y, e, c) && !(e.Read? && e.call == c) <==>
        e == Reclaim(c) && c in y.calls && y.calls[c].phase.SawExpired? && y.calls[c].phase.seen.done.Some? &&
        y.calls[c].phase.seen.hash == y.calls[c].hash && !Reclaimable(y, y.calls[c])
    ensures
      var y := Run(events);
      e == Reclaim(c) && AnswersReplay(y, e, c) ==>
        y.calls[c].phase.seen.expiresAt <= y.clock &&
        Step(y, e).calls[c].phase.reply.stored == y.calls[c].phase.seen.done.value
  {
    SeenIsAlwaysOver(events);
  }

  lemma RunSnoc(events: seq<Event>, e: Event)
    ensures Run(events + [e]) == Step(Run(events), e)
  {
    assert (events + [e])[..|events|] == events;
  }

  const ORDER: Key := Key("user", "orders", "key-0001")
  const ONE_SEES: seq<Event> := [Arrive(1, ORDER, "h")] + [Create(1)] + [Complete(1, "old")] + [Tick(TTL)] +
                                [Arrive(2, ORDER, "h")] + [Create(2)] + [Read(2)]
  const BOTH_SEE: seq<Event> := ONE_SEES + [Arrive(3, ORDER, "h")] + [Create(3)] + [Read(3)]
  const LOST_RACE: seq<Event> := BOTH_SEE + [Reclaim(3)] + [Complete(3, "new")] + [Reclaim(2)]

  lemma FirstResponseExpires()
    ensures
      var y := Run([Arrive(1, ORDER, "h")] + [Create(1)] + [Complete(1, "old")] + [Tick(TTL)]);
      y.records == map[ORDER := Record(0, "h", Some("old"), TTL)] && y.clock == TTL && 2 !in y.calls && 3 !in y.calls
  {
    var e1: seq<Event> := [Arrive(1, ORDER, "h")];
    assert e1 == [] + e1;
    RunSnoc([], e1[0]);
    assert Run(e1).calls == map[1 := Call(ORDER, "h", Started(TTL))] && Run(e1).records == map[];
    RunSnoc(e1, Create(1));
    RunSnoc(e1 + [Create(1)], Complete(1, "old"));
    RunSnoc(e1 + [Create(1)] + [Complete(1, "old")], Tick(TTL));
  }

  lemma OneSeesItExpired()
    ensures
      var y, old_ := Run(ONE_SEES), Record(0, "h", Some("old"), TTL);
      y.records == map[ORDER := old_] && y.clock == TTL && 2 in y.calls && 3 !in y.calls &&
      y.calls[2] == Call(ORDER, "h", SawExpired(old_, 2 * TTL))
  {
    FirstResponseExpires();
    var e := [Arrive(1, ORDER, "h")] + [Create(1)] + [Complete(1, "old")] + [Tick(TTL)];
    RunSnoc(e, Arrive(2, ORDER, "h"));
    RunSnoc(e + [Arrive(2, ORDER, "h")], Create(2));
    RunSnoc(e + [Arrive(2, ORDER, "h")] + [Create(2)], Read(2));
  }

  lemma BothSeeItExpired()
    ensures
      var y, old_ := Run(BOTH_SEE), Record(0, "h", Some("old"), TTL);
      y.records == map[ORDER := old_] && y.clock == TTL && 2 in y.calls && 3 in y.calls &&
      y.calls[2] == Call(ORDER, "h", SawExpired(old_, 2 * TTL)) &&
      y.calls[3] == Call(ORDER, "h", SawExpired(old_, 2 * TTL))
  {
    OneSeesItExpired();
    RunSnoc(ONE_SEES, Arrive(3, ORDER, "h"));
    RunSnoc(ONE_SEES + [Arrive(3, ORDER, "h")], Create(3));
    RunSnoc(ONE_SEES + [Arrive(3, ORDER, "h")] + [Create(3)], Read(3));
  }

  /** Two requests can read the same expired record; the one that loses the reclaim replays the
      expired response although a newer one is stored. */
  lemma LoserReplaysExpired()
    ensures
      var y := Run(LOST_RACE);
      ORDER in y.records && y.records[ORDER].done == Some("new") && y.clock < y.records[ORDER].expiresAt &&
      2 in y.calls && y.calls[2].phase == Replied(Replayed("old"))
  {
    BothSeeItExpired();
    RunSnoc(BOTH_SEE, Reclaim(3));
    RunSnoc(BOTH_SEE + [Reclaim(3)], Complete(3, "new"));
    RunSnoc(BOTH_SEE + [Reclaim(3)] + [Complete(3, "new")], Reclaim(2));
  }

  const RECLAIMED: seq<Event> := [Arrive(1, ORDER, "h")] + [Create(1)] + [Tick(TTL)] +
                                 [Arrive(2, ORDER, "g")] + [Create(2)] + [Read(2)] + [Reclaim(2)]

  lemma FirstOutlivesItsReservation()
    ensures
      var y := Run([Arrive(1, ORDER, "h")] + [Create(1)] + [Tick(TTL)]);
      y == System(TTL, map[ORDER := Record(0, "h", None, TTL)], 1, map[1 := Call(ORDER, "h", Running(0, TTL))], {})
  {
    var e1: seq<Event> := [Arrive(1, ORDER, "h")];
    assert e1 == [] + e1;
    RunSnoc([], e1[0]);
    RunSnoc(e1, Create(1));
    RunSnoc(e1 + [Create(1)], Tick(TTL));
  }

  lemma SecondReclaims()
    ensures
      var y := Run(RECLAIMED);
      y.clock == TTL && y.records == map[ORDER := Record(0, "g", None, 2 * TTL)] && y.executed == {} &&
      y.calls == map[1 := Call(ORDER, "h", Running(0, TTL)), 2 := Call(ORDER, "g", Running(0, 2 * TTL))]
  {
    FirstOutlivesItsReservation();
    var e := [Arrive(1, ORDER, "h")] + [Create(1)] + [Tick(TTL)];
    RunSnoc(e, Arrive(2, ORDER, "g"));
    RunSnoc(e + [Arrive(2, ORDER, "g")], Create(2));
    RunSnoc(e + [Arrive(2, ORDER, "g")] + [Create(2)], Read(2));
    RunSnoc(e + [Arrive(2, ORDER, "g")] + [Create(2)] + [Read(2)], Reclaim(2));
  }

  lemma FirstCompletesLate()
    ensures
      var y := Run(RECLAIMED + [Complete(1, "old")]);
      y.clock == TTL && y.records == map[ORDER := Record(0, "g", Some("old"), 2 * TTL)] && 3 !in y.calls &&
      y.executed == {(ORDER, "h", "old")}
  {
    SecondReclaims();
    RunSnoc(RECLAIMED, Complete(1, "old"));
  }

  /** A handler that completes after its record was reclaimed stores its response under the other request's
      hash: a retry of that request is answered with a response that no handler produced for it. */
  lemma LateCompletionIsReplayed()
    ensures
      var y := Run(RECLAIMED + [Complete(1, "old")] + [Arrive(3, ORDER, "g")] + [Create(3)] + [Read(3)]);
      3 in y.calls && y.calls[3].hash == "g" && y.calls[3].phase == Replied(Replayed("old")) &&
      y.executed == {(ORDER, "h", "old")}
  {
    FirstCompletesLate();
    var e := RECLAIMED + [Complete(1, "old")];
    RunSnoc(e, Arrive(3, ORDER, "g"));
    RunSnoc(e + [Arrive(3, ORDER, "g")], Create(3));
    RunSnoc(e + [Arrive(3, ORDER, "g")] + [Create(3)], Read(3));
  }

  /** A handler that fails after its record was reclaimed deletes the reservation of the one that runs, and
      a retry runs beside it. */
  lemma LateFailureLetsTwoRun()
    ensures
      var y := Run(RECLAIMED + [Delete(1)] + [Arrive(3, ORDER, "g")] + [Create(3)]);
      Live(y, 2) && Live(y, 3) && y.calls[2].key == y.calls[3].key
  {
    SecondReclaims();
    var e := RECLAIMED + [Delete(1)];
    RunSnoc(RECLAIMED, Delete(1));
    RunSnoc(e, Arrive(3, ORDER, "g"));
    RunSnoc(e + [Arrive(3, ORDER, "g")], Create(3));
  }

  // ----- one request with nothing interleaved -----

  datatype Outcome = Returns(body: Body) | Throws

  class IdempotencyTable {
    var records: map<Key, Record>
    var nextId: nat

    ghost predicate Valid()
      reads this
    {
      forall k :: k in records ==> records[k].id < nextId
    }

    constructor ()
      ensures Valid() && records == map[]
    {
      records, nextId := map[], 0;
    }

    /** `Err` carries the record that stood in the way. */
    method Reserve(key: Key, hash: Hash, now: int) returns (r: Result<nat, Record>)
      requires Valid()
      modifies this
      ensures Valid()
      ensures r.Ok? <==> key !in old(records) || old(records)[key].expiresAt <= now
      ensures r.Ok? ==> records == old(records)[key := Record(r.value, hash, None, now + TTL)]
      ensures r.Ok? && key in old(records) ==> r.value == old(records)[key].id
      ensures r.Err? ==> records == old(records) && r.error == records[key]
    {
      var expiresAt := now + TTL;
      if key !in records {
        records := records[key := Record(nextId, hash, None, expiresAt)];
        nextId := nextId + 1;
        return Ok(nextId - 1);
      }
      var existing := records[key];
      if existing.expiresAt <= now {
        records := records[key := Record(existing.id, hash, None, expiresAt)];
        return Ok(existing.id);
      }
      r := Err(existing);
    }

    /** The interceptor around a handler that would produce `outcome`. A failed handler leaves no
        record, so the key can be tried again; a successful one is stored for replay. */
    method Intercept(key: Key, hash: Hash, outcome: Outcome, now: int) returns (reply: Reply, ran: bool)
      requires Valid()
      modifies this
      ensures Valid()
      ensures ran <==> key !in old(records) || old(records)[key].expiresAt <= now
      ensures !ran ==> records == old(records) && reply == Decide(records[key], hash)
      ensures ran && outcome.Throws? ==> reply == HandlerFailed && records == old(records) - {key}
      ensures ran && outcome.Returns? ==>
                reply == Executed(outcome.body) && key in records && records == old(records)[key := records[key]] &&
                records[key].hash == hash && records[key].done == Some(outcome.body) &&
                  records[key].expiresAt == now + TTL
    {
      var r := Reserve(key, hash, now);
      if r.Err? {
        return Decide(r.error, hash), false;
      }
      match outcome
      case Throws =>
        records := records - {key};
        assert records == old(records) - {key};
        return HandlerFailed, true;
      case Returns(body) =>
        records := records[key := records[key].(done := Some(body))];
        return Executed(body), true;
    }
  }
}
