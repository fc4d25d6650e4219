/** Every row of the ledger is what one request asked for, and a request posts exactly when the rules let
    it. */
module LedgerRequests {
  import opened Basics
  import opened Ledger
  import opened LedgerRuns
  import opened LedgerTheorems

  // ----- rows are what was asked for -----

  /** The row does what the request says: kind, category, wallets and signed amounts are the request's own,
      and those of a reversal are the reversed row's. */
  ghost predicate Asked(s: Store, r: Request, t: Tx) {
    match r
    case WalletRequest(kind, w, category, a, _, _) =>
      t.ttype == kind && t.categoryId == category && t.reversesId.None? &&
      t.entries == if kind.Income? then [Entry(Some(w), a), Entry(None, -a)] else [Entry(Some(w), -a), Entry(None, a)]
    case TransferRequest(from, to, a, _, _) =>
      t.ttype.Transfer? && t.categoryId.None? && t.reversesId.None? &&
      t.entries == [Entry(Some(from), -a), Entry(Some(to), a)]
    case ContributionRequest(goal, from, a, _, _) =>
      t.ttype.Transfer? && t.categoryId.None? && t.reversesId.None? && goal in s.goals &&
      t.entries == [Entry(Some(from), -a), Entry(Some(s.goals[goal].walletId), a)]
    case ReversalRequest(id, _, _) =>
      t.ttype.Reversal? && t.reversesId == Some(id) && id < |s.txs| && t.categoryId == s.txs[id].categoryId &&
      |t.entries| == |s.txs[id].entries| && forall k :: 0 <= k < |t.entries| ==>
        t.entries[k] == Entry(s.txs[id].entries[k].walletId, -s.txs[id].entries[k].amountMinor)
  }

  /** The date asked for, and without one the clock of the call's own checks, event `j`. */
  ghost predicate Dated(events: seq<Event>, id: nat, j: nat, r: Request, occurredAt: int) {
    j < |events| && events[j].Check? && events[j].id == id &&
    occurredAt == if r.occurredAt.Some? then r.occurredAt.value else events[j].now
  }

  lemma AskedStays(s: Store, s': Store, r: Request, t: Tx)
    requires Extends(s, s') && Asked(s, r, t)
    ensures Asked(s', r, t)
  {
    if r.ReversalRequest? {
      assert s'.txs[r.transactionId] == s.txs[r.transactionId];
    }
  }

  lemma DraftIsAsked(s: Store, c: Caller, r: Request, now: int)
    requires r.Valid() && DraftFor(s, c, r, now).Ok?
    ensures
      var t := TxOf(c, DraftFor(s, c, r, now).value);
      Asked(s, r, t) && t.occurredAt == if r.occurredAt.Some? then r.occurredAt.value else now
  {
  }

  lemma CheckDrafts(y: System, e: Event, id: nat)
    requires SystemOk(y) && e.Check? && id in Step(y, e).calls && Step(y, e).calls[id].phase.Pending()
    requires id !in y.calls || Step(y, e).calls[id] != y.calls[id]
    ensures e.id == id && Step(y, e).store == y.store
    ensures
      var k := Step(y, e).calls[id];
      Asked(y.store, k.request, TxOf(k.caller, k.phase.draft)) &&
      k.phase.draft.occurredAt == if k.request.occurredAt.Some? then k.request.occurredAt.value else e.now
  {
    assert CallOk(y.store, y.calls[id]);
    DraftIsAsked(y.store, y.calls[id].caller, y.calls[id].request, e.now);
  }

  lemma {:induction false} PendingIsAsked(events: seq<Event>, id: nat) returns (j: nat)
    requires id in Run(events).calls && Run(events).calls[id].phase.Pending()
    ensures
      var k := Run(events).calls[id];
      Asked(Run(events).store, k.request, TxOf(k.caller, k.phase.draft)) &&
      Dated(events, id, j, k.request, k.phase.draft.occurredAt)
    decreases |events|
  {
    var before, e := events[..|events| - 1], events[|events| - 1];
    assert before + [e] == events;
    RunSnoc(before, e);
    if e.Check? && (id !in Run(before).calls || Run(events).calls[id] != Run(before).calls[id]) {
      j := |before|;
      RunIsOk(before);
      CheckDrafts(Run(before), e, id);
    } else {
      PendingBefore(Run(before), e, id);
      j := PendingIsAsked(before, id);
      DraftStaysAsked(before, e, id, j);
    }
  }

  lemma DraftStaysAsked(events: seq<Event>, e: Event, id: nat, j: nat)
    requires id in Run(events).calls && Run(events).calls[id].phase.Pending()
    requires
      var k := Run(events).calls[id];
      Asked(Run(events).store, k.request, TxOf(k.caller, k.phase.draft)) &&
      Dated(events, id, j, k.request, k.phase.draft.occurredAt)
    ensures
      var k := Run(events).calls[id];
      Asked(Run(events + [e]).store, k.request, TxOf(k.caller, k.phase.draft)) &&
      Dated(events + [e], id, j, k.request, k.phase.draft.occurredAt)
  {
    EventExtends(events, e);
    var k := Run(events).calls[id];
    AskedStays(Run(events).store, Run(events + [e]).store, k.request, TxOf(k.caller, k.phase.draft));
  }

  lemma AnswersStay(y: System, e: Event, id: nat)
    requires id in y.calls && y.calls[id].phase.Answered?
    ensures id in Step(y, e).calls && Step(y, e).calls[id] == y.calls[id]
  {
  }

  /** Call `id` asked for row `i` and was answered with it. */
  ghost predicate AskedBy(y: System, i: nat, id: nat) {
    i < |y.store.txs| && |y.store.commands| == |y.store.txs| && id in y.calls &&
    var k, t := y.calls[id], y.store.txs[i];
    k.phase == Answered(Posted(i)) && t.familyId == k.caller.familyId && t.createdById == k.caller.userId &&
    y.store.commands[i] == Command(
      k.caller.userId,
      if k.request.ContributionRequest? then "finance.goal-contribution.v1" else "finance.ledger.v1",
      k.key, k.request, i) &&
    Asked(y.store, k.request, t)
  }

  lemma AskedByStays(events: seq<Event>, e: Event, i: nat, id: nat)
    requires AskedBy(Run(events), i, id)
    ensures AskedBy(Run(events + [e]), i, id)
  {
    RunSnoc(events, e);
    EventExtends(events, e);
    RunIsOk(events + [e]);
    AnswersStay(Run(events), e, id);
    AskedStays(Run(events).store, Run(events + [e]).store, Run(events).calls[id].request, Run(events).store.txs[i]);
    assert Run(events + [e]).store.txs[i] == Run(events).store.txs[i];
    assert Run(events + [e]).store.commands[i] == Run(events).store.commands[i];
  }

  lemma NewRowIsFinished(y: System, e: Event)
    requires SystemOk(y) && |Step(y, e).store.txs| > |y.store.txs|
    ensures e.Finish? && e.id in y.calls && y.calls[e.id].phase.Inserted?
    ensures
      var k, z := y.calls[e.id], Step(y, e);
      z.calls[e.id] == k.(phase := Answered(Posted(|y.store.txs|))) &&
      z.store.txs == y.store.txs + [TxOf(k.caller, k.phase.draft)] &&
      z.store.commands ==
        y.store.commands + [Command(k.caller.userId, k.request.Scope(), k.key, k.request, |y.store.txs|)]
  {
  }

  /** Row `i` was asked for by call `id`, whose checks were event `j`. */
  ghost predicate AskedFor(events: seq<Event>, i: nat, id: nat, j: nat) {
    AskedBy(Run(events), i, id) &&
    Dated(events, id, j, Run(events).calls[id].request, Run(events).store.txs[i].occurredAt)
  }

  lemma OldRowIsAsked(events: seq<Event>, e: Event, i: nat, id: nat, j: nat)
    requires AskedFor(events, i, id, j)
    ensures AskedFor(events + [e], i, id, j)
  {
    RunSnoc(events, e);
    AskedByStays(events, e, i, id);
    EventExtends(events, e);
    AnswersStay(Run(events), e, id);
    assert Run(events + [e]).store.txs[i] == Run(events).store.txs[i];
  }

  lemma NewRowIsAsked(events: seq<Event>, e: Event, i: nat) returns (j: nat)
    requires i == |Run(events).store.txs| < |Run(events + [e]).store.txs|
    ensures e.Finish? && AskedFor(events + [e], i, e.id, j)
  {
    RunSnoc(events, e);
    RunIsOk(events);
    RunIsOk(events + [e]);
    NewRowIsFinished(Run(events), e);
    j := PendingIsAsked(events, e.id);
    EventExtends(events, e);
    var k := Run(events).calls[e.id];
    AskedStays(Run(events).store, Run(events + [e]).store, k.request, TxOf(k.caller, k.phase.draft));
  }

  /** In every run each row of the ledger was asked for by the call that was answered with it: its author,
      family, kind, category, wallets, amounts and date are those of that call's request, under that
      call's key. */
  lemma {:induction false} RowsAreAskedFor(events: seq<Event>, i: nat) returns (id: nat, j: nat)
    requires i < |Run(events).store.txs|
    ensures AskedFor(events, i, id, j)
    decreases |events|
  {
    var before, e := events[..|events| - 1], events[|events| - 1];
    assert before + [e] == events;
    if i < |Run(before).store.txs| {
      id, j := RowsAreAskedFor(before, i);
      OldRowIsAsked(before, e, i, id, j);
    } else {
      OneRowAtATime(Run(before), e);
      RunSnoc(before, e);
      id := e.id;
      j := NewRowIsAsked(before, e, i);
    }
  }

  lemma OneRowAtATime(y: System, e: Event)
    ensures |y.store.txs| <= |Step(y, e).store.txs| <= |y.store.txs| + 1
    ensures |Step(y, e).store.txs| > |y.store.txs| ==> e.Finish?
  {
  }

  // ----- what the loser of a race is answered -----

  /** The key is bound, or the row to reverse is reversed. */
  ghost predicate Lost(s: Store, k: Call) {
    || (exists i :: 0 <= i < |s.commands| && BindsKey(s.commands[i], k))
    || (k.request.ReversalRequest? &&
        exists i :: 0 <= i < |s.txs| && s.txs[i].reversesId == Some(k.request.transactionId))
  }

  predicate BindsKey(row: Command, k: Call) {
    row.userId == k.caller.userId && row.key == k.key && row.scope == k.request.Scope()
  }

  lemma LostStays(s: Store, s': Store, k: Call)
    requires Extends(s, s') && Lost(s, k)
    ensures Lost(s', k)
  {
    if i :| 0 <= i < |s.commands| && BindsKey(s.commands[i], k) {
      assert s'.commands[i] == s.commands[i];
    } else {
      var i :| 0 <= i < |s.txs| && s.txs[i].reversesId == Some(k.request.transactionId);
      assert s'.txs[i] == s.txs[i];
    }
  }

  lemma ClashedBefore(y: System, e: Event, id: nat)
    requires id in Step(y, e).calls && Step(y, e).calls[id].phase.Clashed?
    ensures id in y.calls && y.calls[id].(phase := Clashed) == Step(y, e).calls[id]
    ensures y.calls[id].phase.Clashed? || (
              e == Finish(id) && y.calls[id].phase.Inserted? &&
              Clashes(y.store, y.calls[id].caller, y.calls[id].key, y.calls[id].request, y.calls[id].phase.draft))
  {
  }

  lemma ClashIsLost(s: Store, k: Call)
    requires k.phase.Pending() && Asked(s, k.request, TxOf(k.caller, k.phase.draft))
    requires Clashes(s, k.caller, k.key, k.request, k.phase.draft)
    ensures Lost(s, k)
  {
    var found := FindCommand(s.commands, k.caller.userId, k.request.Scope(), k.key);
    if found.Some? {
      var i :| 0 <= i < |s.commands| && s.commands[i] == found.value;
      assert BindsKey(s.commands[i], k);
    }
  }

  lemma {:induction false} ClashedIsLost(events: seq<Event>, id: nat)
    requires id in Run(events).calls && Run(events).calls[id].phase.Clashed?
    ensures Lost(Run(events).store, Run(events).calls[id])
    decreases |events|
  {
    var before, e := events[..|events| - 1], events[|events| - 1];
    assert before + [e] == events;
    RunSnoc(before, e);
    EventExtends(before, e);
    ClashedBefore(Run(before), e, id);
    var k := Run(before).calls[id];
    if k.phase.Clashed? {
      ClashedIsLost(before, id);
    } else {
      var j := PendingIsAsked(before, id);
      ClashIsLost(Run(before).store, k);
      assert Lost(Run(before).store, k.(phase := Clashed));
    }
    LostStays(Run(before).store, Run(events).store, Run(events).calls[id]);
  }

  /** In every run a call whose insert clashed is answered with the transaction of its key when that was for the
      same request, with KeyReused when it was for another, and otherwise with AlreadyReversed, its row
      having been reversed; there is no other clash. */
  lemma RacesAreAnswered(events: seq<Event>, id: nat, i: nat)
    requires id in Run(events).calls && Run(events).calls[id].phase.Clashed?
    ensures
      var y, k, z := Run(events), Run(events).calls[id], Run(events + [ReadAfterClash(id)]);
      && z.store == y.store && id in z.calls
      && (i < |y.store.commands| && BindsKey(y.store.commands[i], k) ==>
            z.calls[id].phase ==
            Answered(if y.store.commands[i].request == k.request then Posted(i) else Refused(KeyReused)))
      && ((forall j :: 0 <= j < |y.store.commands| ==> !BindsKey(y.store.commands[j], k)) ==>
            z.calls[id].phase == Answered(Refused(AlreadyReversed)) && k.request.ReversalRequest? &&
            exists j :: 0 <= j < |y.store.txs| && y.store.txs[j].reversesId == Some(k.request.transactionId))
  {
    RunSnoc(events, ReadAfterClash(id));
    RunIsOk(events);
    ClashedIsLost(events, id);
    var y, k := Run(events), Run(events).calls[id];
    var found := FindCommand(y.store.commands, k.caller.userId, k.request.Scope(), k.key);
    if i < |y.store.commands| && BindsKey(y.store.commands[i], k) {
      var j :| 0 <= j < |y.store.commands| && y.store.commands[j] == found.value;
      KeyPinsRow(y.store, i, j);
    }
    if found.Some? {
      var j :| 0 <= j < |y.store.commands| && y.store.commands[j] == found.value;
      assert BindsKey(y.store.commands[j], k);
    }
  }

  // ----- which requests post -----

  /** A call is taken up exactly when its amount is positive and, for a wallet command, it is an income or an
      expense. */
  lemma ArrivesExactly(y: System, id: nat, c: Caller, key: string, r: Request)
    requires id !in y.calls
    ensures
      var z := Step(y, Arrive(id, c, key, r));
      var wellFormed :=
        match r
        case WalletRequest(kind, _, _, a, _, _) => a >= 1 && kind in {Income, Expense}
        case TransferRequest(_, _, a, _, _) => a >= 1
        case ContributionRequest(_, _, a, _, _) => a >= 1
        case ReversalRequest(_, _, _) => true;
      z.store == y.store && (id in z.calls <==> wellFormed) &&
      (wellFormed ==> z.calls[id].caller == c && z.calls[id].key == key && z.calls[id].request == r)
  {
  }

  /** The wallet is one the caller may move money in: in their family, not archived, and their own or, for a
      partner, the family's. */
  ghost predicate MayMove(s: Store, c: Caller, id: Id) {
    id in s.wallets && s.wallets[id].familyId == c.familyId && !s.wallets[id].archived &&
    (s.wallets[id].ownerId == Some(c.userId) || (s.wallets[id].wtype == FamilyOwned && c.role == Partner))
  }

  /** A goal's envelope takes contributions also when it is archived. */
  ghost predicate ManagesEnvelope(s: Store, c: Caller, id: Id) {
    id in s.wallets &&
    (s.wallets[id].ownerId == Some(c.userId) || (s.wallets[id].wtype == FamilyOwned && c.role == Partner))
  }

  ghost predicate MayFund(s: Store, from: Id, envelope: Id)
    requires from in s.wallets && envelope in s.wallets
  {
    from != envelope && s.wallets[from].currency == s.wallets[envelope].currency &&
    !(s.wallets[envelope].wtype == FamilyOwned && s.wallets[from].wtype == Personal &&
      s.wallets[from].visibility == Private)
  }

  /** What the rules of the four commands come to. */
  ghost predicate Admissible(s: Store, c: Caller, r: Request) {
    match r
    case WalletRequest(kind, w, category, a, _, _) =>
      a <= 0x7FFF_FFFF_FFFF_FFFF && MayMove(s, c, w) && (category.Some? ==>
        category.value in s.categories && s.categories[category.value].familyId == c.familyId &&
        !s.categories[category.value].archived &&
        s.categories[category.value].kind == if kind == Income then IncomeKind else ExpenseKind)
    case TransferRequest(from, to, a, _, _) =>
      a <= 0x7FFF_FFFF_FFFF_FFFF && from != to && MayMove(s, c, from) && MayMove(s, c, to) &&
      s.wallets[from].currency == s.wallets[to].currency
    case ContributionRequest(goal, from, a, _, _) =>
      a <= 0x7FFF_FFFF_FFFF_FFFF && goal in s.goals && s.goals[goal].familyId == c.familyId &&
      !s.goals[goal].archived &&
      ManagesEnvelope(s, c, s.goals[goal].walletId) && MayMove(s, c, from) &&
      MayFund(s, from, s.goals[goal].walletId)
    case ReversalRequest(id, _, _) =>
      id < |s.txs| && s.txs[id].familyId == c.familyId && s.txs[id].ttype != Reversal &&
      (forall i :: 0 <= i < |s.txs| ==> s.txs[i].reversesId != Some(id)) &&
      forall e :: e in s.txs[id].entries && e.walletId.Some? ==> MayMove(s, c, e.walletId.value)
  }

  ghost predicate KeyIsFree(s: Store, c: Caller, key: string, r: Request) {
    forall i :: 0 <= i < |s.commands| ==>
      !(s.commands[i].userId == c.userId && s.commands[i].key == key && s.commands[i].scope == r.Scope())
  }

  lemma DraftsExactly(s: Store, c: Caller, r: Request, now: int)
    requires StoreOk(s) && r.Valid()
    ensures Precheck(r).None? && DraftFor(s, c, r, now).Ok? <==> Admissible(s, c, r)
  {
    if r.ReversalRequest? && r.transactionId < |s.txs| {
      assert RowOk(s, s.txs[r.transactionId], r.transactionId);
    }
  }

  /** With nothing interleaved a request appends a row exactly when its key is free and the rules admit it. */
  lemma PostsExactly(s: Store, c: Caller, key: string, r: Request, now: int)
    requires StoreOk(s) && r.Valid()
    ensures |Handle(s, c, key, r, now).0.txs| > |s.txs| <==> KeyIsFree(s, c, key, r) && Admissible(s, c, r)
    ensures |Handle(s, c, key, r, now).0.txs| > |s.txs| ==> Handle(s, c, key, r, now).1 == Posted(|s.txs|)
  {
    DraftsExactly(s, c, r, now);
  }

  /** What the request says is wrong in itself, or does not fit the wallets it names. */
  ghost predicate Misfits(s: Store, c: Caller, r: Request) {
    match r
    case WalletRequest(_, _, _, a, _, _) => a > 0x7FFF_FFFF_FFFF_FFFF
    case TransferRequest(from, to, a, _, _) =>
      a > 0x7FFF_FFFF_FFFF_FFFF || from == to ||
      (MayMove(s, c, from) && MayMove(s, c, to) && s.wallets[from].currency != s.wallets[to].currency)
    case ContributionRequest(goal, from, a, _, _) =>
      a > 0x7FFF_FFFF_FFFF_FFFF ||
      (goal in s.goals && s.goals[goal].familyId == c.familyId && !s.goals[goal].archived &&
       ManagesEnvelope(s, c, s.goals[goal].walletId) &&
       (from == s.goals[goal].walletId || (MayMove(s, c, from) && !MayFund(s, from, s.goals[goal].walletId))))
    case ReversalRequest(id, _, _) =>
      id < |s.txs| && s.txs[id].familyId == c.familyId && s.txs[id].ttype == Reversal
  }

  ghost predicate WasReversed(s: Store, c: Caller, r: Request) {
    r.ReversalRequest? && r.transactionId < |s.txs| && s.txs[r.transactionId].familyId == c.familyId &&
    exists i :: 0 <= i < |s.txs| && s.txs[i].reversesId == Some(r.transactionId)
  }

  /** Exactly which refusal a request under a free key gets: it was reversed before, it does not fit, or
      something it names is not there for this caller. */
  lemma RefusalsExactly(s: Store, c: Caller, key: string, r: Request, now: int)
    requires StoreOk(s) && r.Valid() && KeyIsFree(s, c, key, r)
    ensures
      var answer := Handle(s, c, key, r, now).1;
      && (answer == Refused(AlreadyReversed) <==> WasReversed(s, c, r))
      && (answer == Refused(BadRequest) <==> Misfits(s, c, r))
      && (answer == Refused(NotFound) <==> !Admissible(s, c, r) && !Misfits(s, c, r) && !WasReversed(s, c, r))
  {
    DraftsExactly(s, c, r, now);
    RefusedDrafts(s, c, r, now);
    assert FindCommand(s.commands, c.userId, r.Scope(), key).None?;
    assert Handle(s, c, key, r, now).1.Refused? <==> !Admissible(s, c, r) by {
      PostsExactly(s, c, key, r, now);
    }
  }

  lemma RefusedDrafts(s: Store, c: Caller, r: Request, now: int)
    requires StoreOk(s) && r.Valid()
    ensures Precheck(r).Some? ==> Precheck(r) == Some(BadRequest) && Misfits(s, c, r) && !WasReversed(s, c, r)
    ensures Precheck(r).None? && DraftFor(s, c, r, now).Err? ==>
              DraftFor(s, c, r, now).error == if WasReversed(s, c, r) then AlreadyReversed
                                              else if Misfits(s, c, r) then BadRequest else NotFound
    ensures WasReversed(s, c, r) ==> !Misfits(s, c, r) && !Admissible(s, c, r)
    ensures Misfits(s, c, r) ==> !Admissible(s, c, r)
  {
    if r.ReversalRequest? && r.transactionId < |s.txs| {
      assert RowOk(s, s.txs[r.transactionId], r.transactionId);
      forall i | 0 <= i < |s.txs| && s.txs[i].reversesId == Some(r.transactionId)
        ensures !s.txs[r.transactionId].ttype.Reversal?
      {
        assert RowOk(s, s.txs[i], i);
      }
    }
  }

  // ----- who sees a row -----

  /** In every run a user sees a row exactly when it is their family's and each wallet it touches is the
      family's, their own, or shown to partners of whom they are one; asked for one wallet, only rows that
      touch it. */
  lemma SeenExactly(events: seq<Event>, c: Caller, i: nat, only: Option<Id>)
    requires i < |Run(events).store.txs|
    ensures
      var s, t := Run(events).store, Run(events).store.txs[i];
      VisibleTx(s, c, t, only) <==>
        t.familyId == c.familyId &&
        (only.Some? ==> exists k :: 0 <= k < |t.entries| && t.entries[k].walletId == only) &&
        forall k :: 0 <= k < |t.entries| && t.entries[k].walletId.Some? ==> MaySee(s, c, t.entries[k].walletId.value)
  {
    RunIsOk(events);
    var s, t := Run(events).store, Run(events).store.txs[i];
    assert RowOk(s, t, i);
    forall k | 0 <= k < |t.entries| && t.entries[k].walletId.Some?
      ensures KnownWallet(s, t.entries[k].walletId.value, t.familyId, t.currency)
      ensures s.wallets[t.entries[k].walletId.value].wtype == Personal ||
              s.wallets[t.entries[k].walletId.value].wtype == FamilyOwned
    {
    }
  }

  ghost predicate MaySee(s: Store, c: Caller, id: Id) {
    id in s.wallets &&
    (s.wallets[id].wtype == FamilyOwned || s.wallets[id].ownerId == Some(c.userId) ||
     (c.role == Partner && s.wallets[id].visibility == PartnerVisible))
  }

  // ----- what administration writes -----

  ghost predicate Manages(s: Store, c: Caller, id: Id) {
    id in s.wallets && s.wallets[id].familyId == c.familyId &&
    (s.wallets[id].ownerId == Some(c.userId) || (s.wallets[id].wtype == FamilyOwned && c.role == Partner))
  }

  /** A family wallet is shown to the family, a personal one to nobody else or to partners. */
  predicate Fitting(t: WalletType, v: Visibility) {
    v == FamilyVisible <==> t == FamilyOwned
  }

  /** Exactly when a wallet is opened, and as what. */
  lemma OpensExactly(s: Store, c: Caller, id: Id, t: WalletType, asked: Option<Visibility>, currency: string)
    ensures
      var s' := Administer(s, c, CreateWallet(id, t, asked, currency));
      var v := match asked case Some(v) => v case None => if t == FamilyOwned then FamilyVisible else Private;
      if id !in s.wallets && (t == FamilyOwned ==> c.role == Partner) && Fitting(t, v)
      then s' == s.(wallets := s.wallets[
             id := Wallet(c.familyId, if t == Personal then Some(c.userId) else None, t, v, currency, false, 1)])
      else s' == s
  {
  }

  /** Exactly when a wallet is changed, archived or restored: by who manages it, at the version expected if one
      is; it is archived only when no active goal saves in it. */
  lemma WalletsChangeExactly(s: Store, c: Caller, id: Id, asked: Option<Visibility>, expected: Option<nat>)
    ensures
      var at := Manages(s, c, id) && (expected == None || expected == Some(s.wallets[id].version));
      && (var s' := Administer(s, c, UpdateWallet(id, asked, expected));
          if at && !s.wallets[id].archived && (asked.Some? ==> Fitting(s.wallets[id].wtype, asked.value)) &&
             (asked.None? ==> Fitting(s.wallets[id].wtype, s.wallets[id].visibility))
          then
            var w := s.wallets[id];
            s' == s.(wallets := s.wallets[id := Wallet(
              w.familyId, w.ownerId, w.wtype, if asked == None then w.visibility else asked.value, w.currency, false,
              w.version + 1)])
          else s' == s)
      && (var s' := Administer(s, c, ArchiveWallet(id, expected));
          if at && !s.wallets[id].archived &&
             forall g :: g in s.goals && !s.goals[g].archived ==> s.goals[g].walletId != id
          then ArchivedAs(s, s', id, true) else s' == s)
      && (var s' := Administer(s, c, RestoreWallet(id, expected));
          if at && s.wallets[id].archived then ArchivedAs(s, s', id, false) else s' == s)
  {
  }

  ghost predicate ArchivedAs(s: Store, s': Store, id: Id, archived: bool)
    requires id in s.wallets
  {
    var w := s.wallets[id];
    s' == s.(wallets := s.wallets[
      id := Wallet(w.familyId, w.ownerId, w.wtype, w.visibility, w.currency, archived, w.version + 1)])
  }

  /** Exactly when a goal is opened with its envelope, given another target, archived or restored. */
  lemma GoalsChangeExactly(s: Store, c: Caller, id: Id, envelope: Id, t: WalletType, currency: string, target: nat)
    ensures
      var s' := Administer(s, c, CreateGoal(id, envelope, t, None, currency, target));
      var withEnvelope := Administer(s, c, CreateWallet(envelope, t, None, currency));
      if id !in s.goals && withEnvelope != s && 1 <= target <= 0x7FFF_FFFF_FFFF_FFFF
      then s' == withEnvelope.(goals := s.goals[id := Goal(c.familyId, envelope, target, None, false)]) else s' == s
    ensures
      var s' := Administer(s, c, UpdateGoal(id, target));
      if id in s.goals && s.goals[id].familyId == c.familyId && !s.goals[id].archived &&
         Manages(s, c, s.goals[id].walletId) && 1 <= target <= 0x7FFF_FFFF_FFFF_FFFF
      then
        var g := s.goals[id];
        s' == s.(goals := s.goals[id := Goal(g.familyId, g.walletId, target, g.achievedAt, false)])
      else s' == s
    ensures
      forall archived ::
        var s' := Administer(s, c, SetGoalArchived(id, archived));
        if id in s.goals && s.goals[id].familyId == c.familyId && s.goals[id].archived != archived &&
           Manages(s, c, s.goals[id].walletId) && (archived || !s.wallets[s.goals[id].walletId].archived)
        then
          var g := s.goals[id];
          s' == s.(goals := s.goals[id := Goal(g.familyId, g.walletId, g.target, g.achievedAt, archived)])
        else s' == s
  {
    if MayOpen(s, c, envelope, t, None) {
      assert envelope in Administer(s, c, CreateWallet(envelope, t, None, currency)).wallets;
    }
  }

  /** A category is added under a fresh id, never the one the reports use for none, and archived or restored in
      its own family only. */
  lemma CategoriesChangeExactly(s: Store, c: Caller, id: Id, kind: CategoryKind, archived: bool)
    ensures
      Administer(s, c, CreateCategory(id, kind)) ==
        if id in s.categories || id == "uncategorized" then s
        else s.(categories := s.categories[id := Category(c.familyId, kind, false)])
    ensures
      Administer(s, c, SetCategoryArchived(id, archived)) ==
        if id in s.categories && s.categories[id].familyId == c.familyId && s.categories[id].archived != archived
        then s.(categories := s.categories[id := Category(c.familyId, s.categories[id].kind, archived)]) else s
  {
  }
}
