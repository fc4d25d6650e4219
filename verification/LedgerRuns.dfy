/** Every run of the ledger: calls from any number of users whose replay read, checks, inserts and
    commit happen at different moments, interleaved with wallet, category and goal administration. */
module LedgerRuns {
  import opened Basics
  import opened Ledger

  // ----- what every reachable store satisfies -----

  predicate InRange(x: int) {
    -MAX_AMOUNT_MINOR <= x <= MAX_AMOUNT_MINOR
  }

  ghost predicate KnownWallet(s: Store, id: Id, familyId: Id, currency: string) {
    id in s.wallets && s.wallets[id].familyId == familyId && s.wallets[id].currency == currency
  }

  ghost predicate CategoryOk(s: Store, t: Tx, kind: CategoryKind) {
    t.categoryId.Some? ==>
      t.categoryId.value in s.categories && s.categories[t.categoryId.value].familyId == t.familyId &&
      s.categories[t.categoryId.value].kind == kind
  }

  /** `r` is the exact inverse of `t`: same family, currency and category, negated entries. */
  ghost predicate Inverts(r: Tx, t: Tx) {
    && !t.ttype.Reversal?
    && r.familyId == t.familyId && r.currency == t.currency && r.categoryId == t.categoryId
    && r.entries == Negated(t.entries)
  }

  ghost predicate Balanced(t: Tx) {
    |t.entries| == 2 && t.entries[0].amountMinor == -t.entries[1].amountMinor != 0 && InRange(t.entries[0].amountMinor)
  }

  /** A ledger row that may follow the first `n` rows of `s`. */
  ghost predicate RowOk(s: Store, t: Tx, n: nat)
    requires n <= |s.txs|
  {
    && Balanced(t)
    && (forall k :: 0 <= k < 2 && t.entries[k].walletId.Some? ==>
          KnownWallet(s, t.entries[k].walletId.value, t.familyId, t.currency))
    && (t.reversesId.Some? <==> t.ttype.Reversal?)
    && match t.ttype
       case Income => t.entries[0].walletId.Some? && t.entries[1].walletId.None? && t.entries[0].amountMinor > 0 &&
                      CategoryOk(s, t, IncomeKind)
       case Expense => t.entries[0].walletId.Some? && t.entries[1].walletId.None? && t.entries[0].amountMinor < 0 &&
                       CategoryOk(s, t, ExpenseKind)
       case Transfer => t.entries[0].walletId.Some? && t.entries[1].walletId.Some? && t.entries[0].amountMinor < 0 &&
                        t.entries[0].walletId != t.entries[1].walletId && t.categoryId.None?
       case Reversal => t.reversesId.Some? && t.reversesId.value < n && Inverts(t, s.txs[t.reversesId.value])
  }

  ghost predicate ReversedOnce(txs: seq<Tx>) {
    forall i, k :: 0 <= i < k < |txs| && txs[i].reversesId.Some? ==> txs[i].reversesId != txs[k].reversesId
  }

  ghost predicate CommandsOk(s: Store) {
    && |s.commands| == |s.txs|
    && (forall i :: 0 <= i < |s.commands| ==> s.commands[i].txId == i)
    && (forall i, k :: 0 <= i < k < |s.commands| ==>
          !Matches(s.commands[i], s.commands[k].userId, s.commands[k].scope, s.commands[k].key))
  }

  ghost predicate WalletsOk(s: Store) {
    && UNCATEGORIZED !in s.categories
    && (forall id :: id in s.wallets ==>
          VisibilityFits(s.wallets[id].wtype, s.wallets[id].visibility) &&
          (s.wallets[id].ownerId.Some? <==> s.wallets[id].wtype.Personal?))
    && (forall g :: g in s.goals ==>
          s.goals[g].walletId in s.wallets && s.wallets[s.goals[g].walletId].familyId == s.goals[g].familyId)
  }

  ghost predicate StoreOk(s: Store) {
    && (forall i :: 0 <= i < |s.txs| ==> RowOk(s, s.txs[i], i))
    && ReversedOnce(s.txs)
    && CommandsOk(s)
    && WalletsOk(s)
  }

  // ----- what never changes -----

  predicate SameWallet(w: Wallet, w': Wallet) {
    w'.familyId == w.familyId && w'.currency == w.currency && w'.wtype == w.wtype && w'.ownerId == w.ownerId
  }

  predicate SameCategory(c: Category, c': Category) {
    c'.familyId == c.familyId && c'.kind == c.kind
  }

  predicate GoalKept(g: Goal, g': Goal) {
    g'.walletId == g.walletId && g'.familyId == g.familyId && (g.achievedAt.Some? ==> g'.achievedAt.Some?)
  }

  /** Wallet identity, category kind, ledger rows and command rows are permanent, and a goal stays achieved. */
  ghost predicate Extends(s: Store, s': Store) {
    && (forall id :: id in s.wallets ==> id in s'.wallets && SameWallet(s.wallets[id], s'.wallets[id]))
    && (forall id :: id in s.categories ==> id in s'.categories && SameCategory(s.categories[id], s'.categories[id]))
    && (forall g :: g in s.goals ==> g in s'.goals && GoalKept(s.goals[g], s'.goals[g]))
    && s.txs <= s'.txs
    && s.commands <= s'.commands
  }

  lemma RowStaysOk(s: Store, s': Store, t: Tx, n: nat)
    requires n <= |s.txs| && Extends(s, s') && RowOk(s, t, n)
    ensures RowOk(s', t, n)
  {
    if t.ttype.Reversal? {
      assert s'.txs[t.reversesId.value] == s.txs[t.reversesId.value];
    }
  }

  // ----- drafts -----

  /** A draft that may still be inserted, however stale the reads behind it are. */
  ghost predicate DraftOk(s: Store, c: Caller, d: Draft) {
    RowOk(s, TxOf(c, d), |s.txs|)
  }

  lemma DraftIsOk(s: Store, c: Caller, r: Request, now: int)
    requires StoreOk(s) && r.Valid() && Precheck(r).None? && DraftFor(s, c, r, now).Ok?
    ensures DraftOk(s, c, DraftFor(s, c, r, now).value)
  {
    var t := TxOf(c, DraftFor(s, c, r, now).value);
    if r.ReversalRequest? {
      var original := s.txs[r.transactionId];
      assert RowOk(s, original, r.transactionId);
      forall k | 0 <= k < 2 && t.entries[k].walletId.Some?
        ensures KnownWallet(s, t.entries[k].walletId.value, t.familyId, t.currency)
      {
        assert t.entries[k].walletId == original.entries[k].walletId;
      }
    }
  }

  lemma RowsStayOk(s: Store, s': Store)
    requires StoreOk(s) && Extends(s, s')
    ensures forall i :: 0 <= i < |s.txs| ==> RowOk(s', s'.txs[i], i)
  {
    forall i | 0 <= i < |s.txs|
      ensures RowOk(s', s'.txs[i], i)
    {
      assert RowOk(s, s.txs[i], i);
      RowStaysOk(s, s', s.txs[i], i);
    }
  }

  lemma CommandsStayOk(s: Store, c: Caller, key: string, r: Request, d: Draft, mark: Option<int>)
    requires CommandsOk(s) && !Clashes(s, c, key, r, d)
    ensures CommandsOk(Commit(s, c, key, r, d, mark))
  {
    var row := Command(c.userId, r.Scope(), key, r, |s.txs|);
    var rows := s.commands + [row];
    forall i, k | 0 <= i < k < |rows|
      ensures !Matches(rows[i], rows[k].userId, rows[k].scope, rows[k].key)
    {
      if k == |s.commands| {
        assert rows[k] == row;
        assert !Matches(s.commands[i], c.userId, r.Scope(), key);
      }
    }
  }

  lemma ReversalsStayUnique(txs: seq<Tx>, t: Tx)
    requires ReversedOnce(txs)
    requires t.reversesId.Some? ==> !ReversedBy(txs, t.reversesId.value)
    ensures ReversedOnce(txs + [t])
  {
  }

  lemma CommitKeepsStore(s: Store, c: Caller, key: string, r: Request, d: Draft, mark: Option<int>)
    requires StoreOk(s) && DraftOk(s, c, d) && !Clashes(s, c, key, r, d)
    ensures Extends(s, Commit(s, c, key, r, d, mark)) && StoreOk(Commit(s, c, key, r, d, mark))
  {
    var s' := Commit(s, c, key, r, d, mark);
    var t := TxOf(c, d);
    assert Extends(s, s');
    RowsStayOk(s, s');
    RowStaysOk(s, s', t, |s.txs|);
    assert s'.txs[|s.txs|] == t;
    CommandsStayOk(s, c, key, r, d, mark);
    ReversalsStayUnique(s.txs, t);
    assert WalletsOk(s');
  }

  lemma PuttingAWallet(s: Store, id: Id, w: Wallet)
    requires WalletsOk(s) && (id in s.wallets ==> SameWallet(s.wallets[id], w))
    requires VisibilityFits(w.wtype, w.visibility) && (w.ownerId.Some? <==> w.wtype.Personal?)
    ensures Extends(s, s.(wallets := s.wallets[id := w])) && WalletsOk(s.(wallets := s.wallets[id := w]))
  {
  }

  lemma PuttingAGoal(s: Store, id: Id, g: Goal)
    requires WalletsOk(s) && (id in s.goals ==> GoalKept(s.goals[id], g))
    requires g.walletId in s.wallets && s.wallets[g.walletId].familyId == g.familyId
    ensures Extends(s, s.(goals := s.goals[id := g])) && WalletsOk(s.(goals := s.goals[id := g]))
  {
  }

  lemma AdministerExtends(s: Store, c: Caller, a: AdminCommand)
    requires WalletsOk(s)
    ensures Extends(s, Administer(s, c, a)) && WalletsOk(Administer(s, c, a))
  {
    if Administer(s, c, a) != s {
      match a
      case CreateWallet(id, t, asked, currency) => PuttingAWallet(s, id, Opened(c, t, asked, currency));
      case UpdateWallet(id, asked, expected) => PuttingAWallet(s, id, Administer(s, c, a).wallets[id]);
      case ArchiveWallet(id, expected) => PuttingAWallet(s, id, Administer(s, c, a).wallets[id]);
      case RestoreWallet(id, expected) => PuttingAWallet(s, id, Administer(s, c, a).wallets[id]);
      case CreateCategory(id, kind) =>
      case SetCategoryArchived(id, archived) =>
      case CreateGoal(id, walletId, t, asked, currency, target) =>
        var w := Opened(c, t, asked, currency);
        PuttingAWallet(s, walletId, w);
        PuttingAGoal(s.(wallets := s.wallets[walletId := w]), id, Goal(c.familyId, walletId, target, None, false));
      case UpdateGoal(id, target) => PuttingAGoal(s, id, s.goals[id].(target := target));
      case SetGoalArchived(id, archived) => PuttingAGoal(s, id, s.goals[id].(archived := archived));
    }
  }

  lemma AdministerKeepsStore(s: Store, c: Caller, a: AdminCommand)
    requires StoreOk(s)
    ensures Extends(s, Administer(s, c, a)) && StoreOk(Administer(s, c, a))
  {
    var s' := Administer(s, c, a);
    AdministerExtends(s, c, a);
    assert s'.txs == s.txs && s'.commands == s.commands;
    RowsStayOk(s, s');
  }

  // ----- runs -----

  datatype Phase =
    | Arrived
    | Free
    | Drafted(draft: Draft)                       // checked
    | Inserted(draft: Draft, mark: Option<int>)   // inserted and weighed, but not committed
    | Clashed
    | Answered(response: Response)
  {
    predicate Pending() {
      Drafted? || Inserted?
    }
  }

  datatype Call = Call(caller: Caller, key: string, request: Request, phase: Phase)
  datatype System = System(store: Store, calls: map<nat, Call>)

  datatype Event =
    | Arrive(id: nat, caller: Caller, key: string, request: Request)
    | ReadKey(id: nat)                 // the replay lookup before the transaction
    | Check(id: nat, now: int)         // the reads inside the transaction
    | Insert(id: nat, now: int)        // the inserts, seen by no one else, and the balance after them
    | Finish(id: nat)                  // the commit, or the clash with a row committed before it
    | ReadAfterClash(id: nat)          // the replay lookup after P2002
    | Admin(caller: Caller, command: AdminCommand)

  function Answer(y: System, id: nat, phase: Phase): System
    requires id in y.calls
  {
    y.(calls := y.calls[id := y.calls[id].(phase := phase)])
  }

  /** One event; an event that is not enabled changes nothing. */
  function Step(y: System, e: Event): System {
    match e
    case Arrive(id, c, key, r) =>
      if id in y.calls || !r.Valid() then y
      else
        var phase := if Precheck(r).Some? then Answered(Refused(Precheck(r).value)) else Arrived;
        y.(calls := y.calls[id := Call(c, key, r, phase)])
    case ReadKey(id) =>
      if id !in y.calls || !y.calls[id].phase.Arrived? then y
      else
        var k := y.calls[id];
        var found := Replay(y.store, k.caller, k.key, k.request);
        Answer(y, id, if found.Some? then Answered(found.value) else Free)
    case Check(id, now) =>
      if id !in y.calls || !y.calls[id].phase.Free? then y
      else
        var k := y.calls[id];
        (match DraftFor(y.store, k.caller, k.request, now)
         case Err(error) => Answer(y, id, Answered(Refused(error)))
         case Ok(d) => Answer(y, id, Drafted(d)))
    case Insert(id, now) =>
      if id !in y.calls || !y.calls[id].phase.Drafted? then y
      else
        var k := y.calls[id];
        var d := k.phase.draft;
        Answer(y, id, Inserted(d, MarkFor(y.store.txs + [TxOf(k.caller, d)], d.goal, now)))
    case Finish(id) =>
      if id !in y.calls || !y.calls[id].phase.Inserted? then y
      else
        var k := y.calls[id];
        if Clashes(y.store, k.caller, k.key, k.request, k.phase.draft) then Answer(y, id, Clashed)
        else Answer(y, id, Answered(Posted(|y.store.txs|))).(
          store := Commit(y.store, k.caller, k.key, k.request, k.phase.draft, k.phase.mark))
    case ReadAfterClash(id) =>
      if id !in y.calls || !y.calls[id].phase.Clashed? then y
      else
        var k := y.calls[id];
        Answer(y, id, Answered(AfterConflict(y.store, k.caller, k.key, k.request)))
    case Admin(c, a) => y.(store := Administer(y.store, c, a))
  }

  function Run(events: seq<Event>): System {
    if events == [] then System(EMPTY, map[])
    else Step(Run(events[..|events| - 1]), events[|events| - 1])
  }

  ghost predicate CallOk(s: Store, k: Call) {
    && k.request.Valid()
    && (match k.phase
        case Arrived => Precheck(k.request).None?
        case Free => Precheck(k.request).None?
        case Drafted(d) => DraftOk(s, k.caller, d)
        case Inserted(d, _) => DraftOk(s, k.caller, d)
        case Clashed => true
        case Answered(Posted(i)) =>
          i < |s.commands| && s.commands[i] == Command(k.caller.userId, k.request.Scope(), k.key, k.request, i)
        case Answered(Refused(_)) => true)
  }

  ghost predicate SystemOk(y: System) {
    && StoreOk(y.store)
    && (forall id :: id in y.calls ==> CallOk(y.store, y.calls[id]))
  }

  lemma CallStaysOk(s: Store, s': Store, k: Call)
    requires CallOk(s, k) && Extends(s, s') && StoreOk(s')
    ensures CallOk(s', k)
  {
    if k.phase.Pending() {
      var t := TxOf(k.caller, k.phase.draft);
      RowStaysOk(s, s', t, |s.txs|);
    }
  }

  lemma ReplayIsOk(s: Store, k: Call, found: Response)
    requires StoreOk(s) && k.request.Valid() && Replay(s, k.caller, k.key, k.request) == Some(found)
    ensures CallOk(s, k.(phase := Answered(found)))
  {
    var row := FindCommand(s.commands, k.caller.userId, k.request.Scope(), k.key).value;
    var i :| 0 <= i < |s.commands| && s.commands[i] == row;
  }

  lemma ReadingKeepsSystem(y: System, e: Event)
    requires SystemOk(y) && (e.ReadKey? || e.ReadAfterClash?)
    ensures SystemOk(Step(y, e)) && Step(y, e).store == y.store
  {
    if e.id in y.calls {
      var k := y.calls[e.id];
      var found := Replay(y.store, k.caller, k.key, k.request);
      if found.Some? {
        ReplayIsOk(y.store, k, found.value);
      }
    }
  }

  lemma CheckKeepsSystem(y: System, e: Event)
    requires SystemOk(y) && e.Check?
    ensures SystemOk(Step(y, e)) && Step(y, e).store == y.store
  {
    if e.id in y.calls && y.calls[e.id].phase.Free? {
      var k := y.calls[e.id];
      if DraftFor(y.store, k.caller, k.request, e.now).Ok? {
        DraftIsOk(y.store, k.caller, k.request, e.now);
      }
    }
  }

  lemma FinishKeepsSystem(y: System, e: Event)
    requires SystemOk(y) && e.Finish?
    ensures SystemOk(Step(y, e)) && Extends(y.store, Step(y, e).store)
  {
    if e.id in y.calls && y.calls[e.id].phase.Inserted? {
      var k := y.calls[e.id];
      if !Clashes(y.store, k.caller, k.key, k.request, k.phase.draft) {
        var s' := Commit(y.store, k.caller, k.key, k.request, k.phase.draft, k.phase.mark);
        CommitKeepsStore(y.store, k.caller, k.key, k.request, k.phase.draft, k.phase.mark);
        CallsStayOk(y, s');
        assert CallOk(s', k.(phase := Answered(Posted(|y.store.txs|))));
      }
    }
  }

  /** Every event keeps the whole invariant and only extends the store. */
  lemma StepKeepsSystem(y: System, e: Event)
    requires SystemOk(y)
    ensures SystemOk(Step(y, e)) && Extends(y.store, Step(y, e).store)
  {
    match e
    case Arrive(id, c, key, r) =>
    case ReadKey(id) => ReadingKeepsSystem(y, e);
    case Check(id, now) => CheckKeepsSystem(y, e);
    case Insert(id, now) =>
    case Finish(id) => FinishKeepsSystem(y, e);
    case ReadAfterClash(id) => ReadingKeepsSystem(y, e);
    case Admin(c, a) =>
      AdministerKeepsStore(y.store, c, a);
      CallsStayOk(y, Step(y, e).store);
  }

  lemma CallsStayOk(y: System, s': Store)
    requires SystemOk(y) && Extends(y.store, s') && StoreOk(s')
    ensures forall id :: id in y.calls ==> CallOk(s', y.calls[id])
  {
    forall id | id in y.calls
      ensures CallOk(s', y.calls[id])
    {
      CallStaysOk(y.store, s', y.calls[id]);
    }
  }

  lemma {:induction false} RunIsOk(events: seq<Event>)
    ensures SystemOk(Run(events))
  {
    if events != [] {
      RunIsOk(events[..|events| - 1]);
      StepKeepsSystem(Run(events[..|events| - 1]), events[|events| - 1]);
    }
  }

  lemma ExtendsComposes(a: Store, b: Store, c: Store)
    requires Extends(a, b) && Extends(b, c)
    ensures Extends(a, c)
  {
  }

  lemma EventExtends(events: seq<Event>, e: Event)
    ensures Extends(Run(events).store, Run(events + [e]).store)
  {
    RunIsOk(events);
    StepKeepsSystem(Run(events), e);
    assert (events + [e])[..|events|] == events;
  }

  lemma {:induction false} RunOnlyExtends(events: seq<Event>, more: seq<Event>)
    ensures Extends(Run(events).store, Run(events + more).store)
    decreases |more|
  {
    if more == [] {
      assert events + more == events;
    } else {
      var before := events + more[..|more| - 1];
      RunOnlyExtends(events, more[..|more| - 1]);
      EventExtends(before, more[|more| - 1]);
      assert before + [more[|more| - 1]] == events + more;
      ExtendsComposes(Run(events).store, Run(before).store, Run(events + more).store);
    }
  }
}
