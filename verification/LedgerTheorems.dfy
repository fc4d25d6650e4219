/** What holds of the ledger in every run: idempotency, conservation, reversal and visibility. */
module LedgerTheorems {
  import opened Basics
  import opened Sums
  import opened Ledger
  import opened LedgerRuns

  // ----- idempotency -----

  predicate SameKey(a: Call, b: Call) {
    a.caller.userId == b.caller.userId && a.request.Scope() == b.request.Scope() && a.key == b.key
  }

  lemma KeyPinsRow(s: Store, i: nat, j: nat)
    requires CommandsOk(s) && i < |s.commands| && j < |s.commands|
    requires Matches(s.commands[i], s.commands[j].userId, s.commands[j].scope, s.commands[j].key)
    ensures i == j
  {
    assert Matches(s.commands[j], s.commands[i].userId, s.commands[i].scope, s.commands[i].key);
  }

  /** Two answered calls under one key got the same transaction for the same request, and every
      ledger row belongs to exactly one key. */
  lemma OneTransactionPerKey(events: seq<Event>, a: nat, b: nat)
    requires a in Run(events).calls && b in Run(events).calls && SameKey(Run(events).calls[a], Run(events).calls[b])
    requires Run(events).calls[a].phase.Answered? && Run(events).calls[a].phase.response.Posted?
    requires Run(events).calls[b].phase.Answered? && Run(events).calls[b].phase.response.Posted?
    ensures Run(events).calls[a].phase == Run(events).calls[b].phase
    ensures Run(events).calls[a].request == Run(events).calls[b].request
    ensures Run(events).calls[a].phase.response.txId < |Run(events).store.txs| == |Run(events).store.commands|
  {
    RunIsOk(events);
    var y := Run(events);
    assert CallOk(y.store, y.calls[a]) && CallOk(y.store, y.calls[b]);
    var i, k := y.calls[a].phase.response.txId, y.calls[b].phase.response.txId;
    KeyPinsRow(y.store, i, k);
  }

  /** Once a key is bound to a request, whatever happens later no call with another request under
      that key is ever answered with a transaction. */
  lemma KeyIsNeverRebound(events: seq<Event>, more: seq<Event>, i: nat, b: nat)
    requires i < |Run(events).store.commands| && b in Run(events + more).calls
    requires
      var row, k := Run(events).store.commands[i], Run(events + more).calls[b];
      Matches(row, k.caller.userId, k.request.Scope(), k.key) && k.phase.Answered? && k.phase.response.Posted?
    ensures
      var row, k := Run(events).store.commands[i], Run(events + more).calls[b];
      k.request == row.request && k.phase.response.txId == row.txId == i
  {
    RunIsOk(events);
    RunIsOk(events + more);
    RunOnlyExtends(events, more);
    var s, s', k := Run(events).store, Run(events + more).store, Run(events + more).calls[b];
    assert CallOk(s', k);
    assert s'.commands[i] == s.commands[i];
    KeyPinsRow(s', i, k.phase.response.txId);
  }

  /** With nothing interleaved the six events of a call are exactly `Handle`, and the unique
      indexes never fire: a clash is always the trace of a race. */
  lemma HandleIsSixEvents(y: System, id: nat, c: Caller, key: string, r: Request, now: int)
    requires SystemOk(y) && id !in y.calls && r.Valid()
    ensures
      var y1 := Step(Step(Step(y, Arrive(id, c, key, r)), ReadKey(id)), Check(id, now));
      var z := Step(Step(Step(y1, Insert(id, now)), Finish(id)), ReadAfterClash(id));
      z.store == Handle(y.store, c, key, r, now).0 && id in z.calls &&
      z.calls[id].phase == Answered(Handle(y.store, c, key, r, now).1)
    ensures Precheck(r).None? && Replay(y.store, c, key, r).None? && DraftFor(y.store, c, r, now).Ok? ==>
              !Clashes(y.store, c, key, r, DraftFor(y.store, c, r, now).value)
  {
    var y1 := Step(y, Arrive(id, c, key, r));
    var y2 := Step(y1, ReadKey(id));
    var y3 := Step(y2, Check(id, now));
    var y4 := Step(y3, Insert(id, now));
    var y5 := Step(y4, Finish(id));
    assert y1.store == y2.store == y3.store == y4.store == y.store;
    if Precheck(r).None? && Replay(y.store, c, key, r).None? && DraftFor(y.store, c, r, now).Ok? {
      assert y5.calls[id].phase == Answered(Posted(|y.store.txs|));
    }
  }

  // ----- reversals -----

  ghost function Links(txs: seq<Tx>): (links: seq<Option<nat>>)
    ensures |links| == |txs| && forall i :: 0 <= i < |txs| ==> links[i] == txs[i].reversesId
  {
    seq(|txs|, i requires 0 <= i < |txs| => txs[i].reversesId)
  }

  /** In every run a transaction is reversed at most once, always by an exact inverse of a row that
      came before it, and a reversal is never reversed. */
  lemma ReversalsAreExact(events: seq<Event>)
    ensures UndoLinks(Links(Run(events).store.txs))
    ensures forall i :: 0 <= i < |Run(events).store.txs| && Run(events).store.txs[i].reversesId.Some? ==>
              Inverts(Run(events).store.txs[i], Run(events).store.txs[Links(Run(events).store.txs)[i].value])
  {
    RunIsOk(events);
    RowsMakeLinks(Run(events).store);
  }

  lemma RowsMakeLinks(s: Store)
    requires StoreOk(s)
    ensures UndoLinks(Links(s.txs))
    ensures forall i :: 0 <= i < |s.txs| && s.txs[i].reversesId.Some? ==>
              s.txs[i].reversesId.value < i && Inverts(s.txs[i], s.txs[s.txs[i].reversesId.value])
  {
    forall i | 0 <= i < |s.txs|
      ensures RowOk(s, s.txs[i], i)
      ensures s.txs[i].reversesId.Some? ==> s.txs[s.txs[i].reversesId.value].reversesId.None?
    {
      if s.txs[i].reversesId.Some? {
        assert RowOk(s, s.txs[s.txs[i].reversesId.value], s.txs[i].reversesId.value);
      }
    }
  }

  /** A total taken over ledger rows. */
  ghost function Column(txs: seq<Tx>, f: Tx -> int): (v: seq<int>)
    ensures |v| == |txs| && forall i :: 0 <= i < |txs| ==> v[i] == f(txs[i])
  {
    seq(|txs|, i requires 0 <= i < |txs| => f(txs[i]))
  }

  ghost function LiveColumn(txs: seq<Tx>, f: Tx -> int): int {
    LiveTotal(Links(txs), Column(txs, f), |txs|)
  }

  /** Any measure that an exact inverse negates adds up to its value on the unreversed rows. */
  lemma MeasureIsLive(s: Store, f: Tx -> int)
    requires StoreOk(s)
    requires forall r, t :: Inverts(r, t) ==> f(r) == -f(t)
    ensures Total(Column(s.txs, f)) == LiveColumn(s.txs, f)
  {
    RowsMakeLinks(s);
    var v := Column(s.txs, f);
    forall i | 0 <= i < |v| && Links(s.txs)[i].Some?
      ensures v[i] == -v[Links(s.txs)[i].value]
    {
      assert Inverts(s.txs[i], s.txs[s.txs[i].reversesId.value]);
    }
    UndoCancels(Links(s.txs), v);
  }

  lemma {:induction false} NegatedAmount(entries: seq<Entry>, id: Id)
    ensures EntryAmount(Negated(entries), id) == -EntryAmount(entries, id)
  {
    if entries != [] {
      NegatedAmount(entries[1..], id);
      assert Negated(entries)[1..] == Negated(entries[1..]);
    }
  }

  ghost function InWallet(id: Id): Tx -> int {
    (t: Tx) => EntryAmount(t.entries, id)
  }

  lemma {:induction false} BalanceIsTotal(txs: seq<Tx>, id: Id)
    ensures Balance(txs, id) == Total(Column(txs, InWallet(id)))
  {
    if txs != [] {
      var m := |txs| - 1;
      BalanceIsTotal(txs[..m], id);
      assert Column(txs, InWallet(id))[..m] == Column(txs[..m], InWallet(id));
    }
  }

  /** The balance of every wallet is the sum of its unreversed transactions. */
  lemma BalanceIsLive(events: seq<Event>, id: Id)
    ensures Balance(Run(events).store.txs, id) == LiveColumn(Run(events).store.txs, InWallet(id))
  {
    RunIsOk(events);
    forall r, t | Inverts(r, t)
      ensures InWallet(id)(r) == -InWallet(id)(t)
    {
      NegatedAmount(t.entries, id);
    }
    MeasureIsLive(Run(events).store, InWallet(id));
    BalanceIsTotal(Run(events).store.txs, id);
  }

  // ----- visibility -----

  /** The read models' shared filter: own family, every wallet entry in a visible wallet, and, when
      one wallet is asked for, an entry in it. */
  predicate VisibleTx(s: Store, c: Caller, t: Tx, only: Option<Id>) {
    && t.familyId == c.familyId
    && (forall k :: 0 <= k < |t.entries| && t.entries[k].walletId.Some? ==>
          t.entries[k].walletId.value in s.wallets &&
          s.wallets[t.entries[k].walletId.value].familyId == c.familyId &&
          VisibleTo(s.wallets[t.entries[k].walletId.value], c))
    && (only.Some? ==> exists k :: 0 <= k < |t.entries| && t.entries[k].walletId == only)
  }

  lemma InverseIsAsVisible(s: Store, c: Caller, r: Tx, t: Tx, only: Option<Id>)
    requires Inverts(r, t)
    ensures VisibleTx(s, c, r, only) <==> VisibleTx(s, c, t, only)
  {
    forall k | 0 <= k < |t.entries|
      ensures r.entries[k].walletId == t.entries[k].walletId
    {
    }
  }

  /** In every run a viewer sees a transaction exactly when they see its reversal. */
  lemma ReversalIsAsVisible(events: seq<Event>, c: Caller, i: nat, only: Option<Id>)
    requires i < |Run(events).store.txs| && Run(events).store.txs[i].reversesId.Some?
    ensures Links(Run(events).store.txs)[i].value < i
    ensures VisibleTx(Run(events).store, c, Run(events).store.txs[i], only) <==>
            VisibleTx(Run(events).store, c, Run(events).store.txs[Links(Run(events).store.txs)[i].value], only)
  {
    ReversalsAreExact(events);
    var s := Run(events).store;
    InverseIsAsVisible(s, c, s.txs[i], s.txs[s.txs[i].reversesId.value], only);
  }

  /** What wallets as a whole gained in a transaction. */
  function WalletSide(entries: seq<Entry>): int {
    if entries == [] then 0
    else (if entries[0].walletId.Some? then entries[0].amountMinor else 0) + WalletSide(entries[1..])
  }

  lemma {:induction false} NegatedSide(entries: seq<Entry>)
    ensures WalletSide(Negated(entries)) == -WalletSide(entries)
  {
    if entries != [] {
      NegatedSide(entries[1..]);
      assert Negated(entries)[1..] == Negated(entries[1..]);
    }
  }

  ghost function SeenSide(s: Store, c: Caller, currency: string): Tx -> int {
    (t: Tx) => if VisibleTx(s, c, t, None) && t.currency == currency then WalletSide(t.entries) else 0
  }

  /** Reversed pairs net to zero in every viewer's view: what the viewer's wallets hold in a
      currency is what the unreversed transactions they can see put there. */
  lemma ViewIsLive(events: seq<Event>, c: Caller, currency: string)
    ensures
      var s := Run(events).store;
      Total(Column(s.txs, SeenSide(s, c, currency))) == LiveColumn(s.txs, SeenSide(s, c, currency))
  {
    RunIsOk(events);
    var s := Run(events).store;
    var f := SeenSide(s, c, currency);
    forall r, t | Inverts(r, t)
      ensures f(r) == -f(t)
    {
      InverseIsAsVisible(s, c, r, t, None);
      NegatedSide(t.entries);
    }
    MeasureIsLive(s, f);
  }

  // ----- conservation -----

  ghost function BalanceOf(txs: seq<Tx>): Id -> int {
    (id: Id) => Balance(txs, id)
  }

  ghost function AmountOf(entries: seq<Entry>): Id -> int {
    (id: Id) => EntryAmount(entries, id)
  }

  ghost function WalletsIn(s: Store, currency: string): set<Id> {
    set id | id in s.wallets && s.wallets[id].currency == currency
  }

  /** What the outside world holds in a currency. */
  function External(txs: seq<Tx>, currency: string): int {
    if txs == [] then 0
    else External(txs[..|txs| - 1], currency) + ExternalOf(txs[|txs| - 1], currency)
  }

  function ExternalOf(t: Tx, currency: string): int {
    if t.currency == currency then ExternalSide(t.entries) else 0
  }

  function ExternalSide(entries: seq<Entry>): int {
    if entries == [] then 0
    else (if entries[0].walletId.None? then entries[0].amountMinor else 0) + ExternalSide(entries[1..])
  }

  /** What the entries put into the wallets of `ids`. */
  ghost function SideIn(entries: seq<Entry>, ids: set<Id>): int {
    if entries == [] then 0
    else (if entries[0].walletId.Some? && entries[0].walletId.value in ids then entries[0].amountMinor else 0) +
         SideIn(entries[1..], ids)
  }

  lemma {:induction false} SplitByWallet(entries: seq<Entry>, ids: set<Id>)
    ensures SumOver(ids, AmountOf(entries)) == SideIn(entries, ids)
  {
    if entries == [] {
      SumOverZero(ids, AmountOf(entries));
    } else {
      SplitByWallet(entries[1..], ids);
      var w := entries[0].walletId;
      if w.Some? && w.value in ids {
        SumOverUpdate(ids, AmountOf(entries[1..]), AmountOf(entries), w.value);
      } else {
        SumOverSame(ids, AmountOf(entries[1..]), AmountOf(entries));
      }
    }
  }

  lemma {:induction false} SumOverPlus(ids: set<Id>, f: Id -> int, g: Id -> int, h: Id -> int)
    requires forall id :: id in ids ==> h(id) == f(id) + g(id)
    ensures SumOver(ids, h) == SumOver(ids, f) + SumOver(ids, g)
    decreases |ids|
  {
    if ids != {} {
      var x :| x in ids;
      SumOverPick(ids, f, x);
      SumOverPick(ids, g, x);
      SumOverPick(ids, h, x);
      SumOverPlus(ids - {x}, f, g, h);
    }
  }

  lemma AddingARow(txs: seq<Tx>, t: Tx, ids: set<Id>)
    ensures SumOver(ids, BalanceOf(txs + [t])) == SumOver(ids, BalanceOf(txs)) + SideIn(t.entries, ids)
  {
    assert (txs + [t])[..|txs|] == txs;
    SumOverPlus(ids, BalanceOf(txs), AmountOf(t.entries), BalanceOf(txs + [t]));
    SplitByWallet(t.entries, ids);
  }

  lemma PairSides(e: seq<Entry>, ids: set<Id>)
    requires |e| == 2
    ensures SideIn(e, ids) == (if e[0].walletId.Some? && e[0].walletId.value in ids then e[0].amountMinor else 0) +
                              (if e[1].walletId.Some? && e[1].walletId.value in ids then e[1].amountMinor else 0)
    ensures ExternalSide(e) == (if e[0].walletId.None? then e[0].amountMinor else 0) +
                               (if e[1].walletId.None? then e[1].amountMinor else 0)
  {
    assert e[1..][1..] == [];
    assert SideIn(e[1..][1..], ids) == 0 && ExternalSide(e[1..][1..]) == 0;
    assert e[1..][0] == e[1];
    assert SideIn(e[1..], ids) == if e[1].walletId.Some? && e[1].walletId.value in ids then e[1].amountMinor else 0;
  }

  lemma RowBalances(s: Store, t: Tx, n: nat, currency: string)
    requires n <= |s.txs| && RowOk(s, t, n)
    ensures SideIn(t.entries, WalletsIn(s, currency)) + ExternalOf(t, currency) == 0
  {
    var e := t.entries;
    PairSides(e, WalletsIn(s, currency));
    assert forall k :: 0 <= k < 2 && e[k].walletId.Some? ==>
           KnownWallet(s, e[k].walletId.value, t.familyId, t.currency);
  }

  lemma {:induction false} PrefixConserves(s: Store, n: nat, currency: string)
    requires StoreOk(s) && n <= |s.txs|
    ensures SumOver(WalletsIn(s, currency), BalanceOf(s.txs[..n])) + External(s.txs[..n], currency) == 0
  {
    var ids := WalletsIn(s, currency);
    if n == 0 {
      SumOverZero(ids, BalanceOf(s.txs[..0]));
    } else {
      PrefixConserves(s, n - 1, currency);
      assert s.txs[..n] == s.txs[..n - 1] + [s.txs[n - 1]];
      assert RowOk(s, s.txs[n - 1], n - 1);
      AddingARow(s.txs[..n - 1], s.txs[n - 1], ids);
      RowBalances(s, s.txs[n - 1], n - 1, currency);
    }
  }

  /** In every run and every currency, all wallets together with the outside world hold nothing. */
  lemma MoneyIsConserved(events: seq<Event>, currency: string)
    ensures
      var s := Run(events).store;
      SumOver(WalletsIn(s, currency), BalanceOf(s.txs)) + External(s.txs, currency) == 0
  {
    RunIsOk(events);
    var s := Run(events).store;
    assert s.txs[..|s.txs|] == s.txs;
    PrefixConserves(s, |s.txs|, currency);
  }

  /** A transfer or contribution, and its reversal, leaves the total held in wallets unchanged;
      income and expense move it by exactly the requested amount. */
  lemma CommitMovesTheTotal(s: Store, c: Caller, key: string, r: Request, d: Draft, mark: Option<int>)
    requires StoreOk(s) && DraftOk(s, c, d)
    ensures
      var s' := Commit(s, c, key, r, d, mark);
      var ids := WalletsIn(s, d.currency);
      SumOver(ids, BalanceOf(s'.txs)) - SumOver(ids, BalanceOf(s.txs)) ==
        if d.entries[1].walletId.Some? then 0 else d.entries[0].amountMinor
  {
    var t := TxOf(c, d);
    AddingARow(s.txs, t, WalletsIn(s, d.currency));
    RowBalances(s, t, |s.txs|, d.currency);
    PairSides(t.entries, WalletsIn(s, d.currency));
    assert t.ttype.Reversal? ==> RowOk(s, s.txs[t.reversesId.value], t.reversesId.value);
  }

  /** Every stored amount and its negation fit a signed 64-bit column. */
  lemma AmountsFit(events: seq<Event>, i: nat, k: nat)
    requires i < |Run(events).store.txs| && k < |Run(events).store.txs[i].entries|
    ensures InRange(Run(events).store.txs[i].entries[k].amountMinor)
    ensures InRange(-Run(events).store.txs[i].entries[k].amountMinor)
    ensures Run(events).store.txs[i].entries[k].amountMinor != 0
  {
    RunIsOk(events);
    assert RowOk(Run(events).store, Run(events).store.txs[i], i);
  }

  // ----- what one command does -----

  /** What a request asks of a wallet's balance. */
  function Effect(s: Store, r: Request, id: Id): int {
    match r
    case WalletRequest(t, w, _, a, _, _) => if w != id then 0 else if t.Income? then a else -a
    case TransferRequest(from, to, a, _, _) => (if from == id then -a else 0) + (if to == id then a else 0)
    case ContributionRequest(g, from, a, _, _) =>
      (if from == id then -a else 0) + (if g in s.goals && s.goals[g].walletId == id then a else 0)
    case ReversalRequest(i, _, _) => if i < |s.txs| then -EntryAmount(s.txs[i].entries, id) else 0
  }

  lemma PairAmount(e: seq<Entry>, id: Id)
    requires |e| == 2
    ensures EntryAmount(e, id) ==
            (if e[0].walletId == Some(id) then e[0].amountMinor else 0) +
              (if e[1].walletId == Some(id) then e[1].amountMinor else 0)
  {
    assert e[1..][1..] == [] && e[1..][0] == e[1];
    assert EntryAmount(e[1..][1..], id) == 0;
  }

  lemma DraftEffect(s: Store, c: Caller, r: Request, now: int, id: Id)
    requires DraftFor(s, c, r, now).Ok?
    ensures EntryAmount(DraftFor(s, c, r, now).value.entries, id) == Effect(s, r, id)
  {
    var d := DraftFor(s, c, r, now).value;
    if r.ReversalRequest? {
      NegatedAmount(s.txs[r.transactionId].entries, id);
    } else {
      PairAmount(d.entries, id);
    }
  }

  lemma BalanceSnoc(txs: seq<Tx>, t: Tx, id: Id)
    ensures Balance(txs + [t], id) == Balance(txs, id) + EntryAmount(t.entries, id)
  {
    assert (txs + [t])[..|txs|] == txs;
  }

  /** A command that posts moves every wallet's balance by exactly what was asked of it, and any other
      answer leaves the store as it was. */
  lemma PostingMovesBalances(s: Store, c: Caller, key: string, r: Request, now: int, id: Id)
    ensures
      var s', answer := Handle(s, c, key, r, now).0, Handle(s, c, key, r, now).1;
      if |s'.txs| == |s.txs| then s' == s
      else answer == Posted(|s.txs|) && Balance(s'.txs, id) == Balance(s.txs, id) + Effect(s, r, id)
  {
    if DraftFor(s, c, r, now).Ok? {
      DraftEffect(s, c, r, now, id);
      BalanceSnoc(s.txs, TxOf(c, DraftFor(s, c, r, now).value), id);
    }
  }

  /** Reversing a command brings every balance back to what it was before it. */
  lemma ReversingRestoresBalances(s: Store, c: Caller, key: string, r: Request, now: int, c': Caller, key': string,
      undo: Request, later: int, id: Id)
    requires undo.ReversalRequest? && undo.transactionId == |s.txs|
    ensures
      var s1 := Handle(s, c, key, r, now).0;
      var s2 := Handle(s1, c', key', undo, later).0;
      |s1.txs| > |s.txs| && |s2.txs| > |s1.txs| ==> Balance(s2.txs, id) == Balance(s.txs, id)
  {
    var s1 := Handle(s, c, key, r, now).0;
    PostingMovesBalances(s, c, key, r, now, id);
    PostingMovesBalances(s1, c', key', undo, later, id);
    if |s1.txs| > |s.txs| {
      BalanceSnoc(s.txs, s1.txs[|s.txs|], id);
      assert s1.txs == s.txs + [s1.txs[|s.txs|]];
    }
  }

  /** The row's author, in this role, manages every wallet the row moves money in. */
  ghost predicate ManagedBy(s: Store, t: Tx, role: Role) {
    forall k :: 0 <= k < |t.entries| && t.entries[k].walletId.Some? ==>
      var id := t.entries[k].walletId.value;
      id in s.wallets && s.wallets[id].familyId == t.familyId &&
        CanManage(s.wallets[id], Caller(t.createdById, t.familyId, role))
  }

  ghost predicate RowManaged(s: Store, t: Tx) {
    exists role :: ManagedBy(s, t, role)
  }

  ghost predicate DraftManaged(s: Store, k: Call) {
    k.phase.Pending() ==> ManagedBy(s, TxOf(k.caller, k.phase.draft), k.caller.role)
  }

  ghost predicate AllManaged(y: System) {
    && (forall i :: 0 <= i < |y.store.txs| ==> RowManaged(y.store, y.store.txs[i]))
    && (forall id :: id in y.calls ==> DraftManaged(y.store, y.calls[id]))
  }

  lemma DraftIsManaged(s: Store, c: Caller, r: Request, now: int)
    requires WalletsOk(s) && DraftFor(s, c, r, now).Ok?
    ensures ManagedBy(s, TxOf(c, DraftFor(s, c, r, now).value), c.role)
  {
    var t := TxOf(c, DraftFor(s, c, r, now).value);
    if r.ReversalRequest? {
      var original := s.txs[r.transactionId];
      forall k | 0 <= k < |t.entries| && t.entries[k].walletId.Some?
        ensures Usable(s, t.entries[k].walletId.value, c)
      {
        assert original.entries[k] in original.entries && original.entries[k].walletId == t.entries[k].walletId;
      }
    }
  }

  lemma StaysManaged(s: Store, s': Store, t: Tx, role: Role)
    requires Extends(s, s') && ManagedBy(s, t, role)
    ensures ManagedBy(s', t, role)
  {
  }

  lemma RowsStayManaged(y: System, s': Store)
    requires AllManaged(y) && Extends(y.store, s')
    ensures forall i :: 0 <= i < |y.store.txs| ==> RowManaged(s', y.store.txs[i])
    ensures forall id :: id in y.calls ==> DraftManaged(s', y.calls[id])
  {
    forall i | 0 <= i < |y.store.txs|
      ensures RowManaged(s', y.store.txs[i])
    {
      assert RowManaged(y.store, y.store.txs[i]);
      var role :| ManagedBy(y.store, y.store.txs[i], role);
      StaysManaged(y.store, s', y.store.txs[i], role);
      assert ManagedBy(s', y.store.txs[i], role);
    }
    forall id | id in y.calls
      ensures DraftManaged(s', y.calls[id])
    {
      assert DraftManaged(y.store, y.calls[id]);
      if y.calls[id].phase.Pending() {
        StaysManaged(y.store, s', TxOf(y.calls[id].caller, y.calls[id].phase.draft), y.calls[id].caller.role);
      }
    }
  }

  lemma CheckKeepsManaged(y: System, id: nat, now: int)
    requires SystemOk(y) && AllManaged(y)
    ensures AllManaged(Step(y, Check(id, now)))
  {
    if id in y.calls && y.calls[id].phase.Free? && DraftFor(y.store, y.calls[id].caller, y.calls[id].request, now).Ok? {
      DraftIsManaged(y.store, y.calls[id].caller, y.calls[id].request, now);
    }
  }

  lemma FinishKeepsManaged(y: System, id: nat)
    requires SystemOk(y) && AllManaged(y) && Step(y, Finish(id)).store != y.store
    ensures AllManaged(Step(y, Finish(id)))
  {
    var k, z := y.calls[id], Step(y, Finish(id));
    StepKeepsSystem(y, Finish(id));
    RowsStayManaged(y, z.store);
    assert DraftManaged(z.store, k);
    assert ManagedBy(z.store, TxOf(k.caller, k.phase.draft), k.caller.role);
    assert z.store.txs == y.store.txs + [TxOf(k.caller, k.phase.draft)];
  }

  /** Only the checks make drafts; what else happens to a call leaves its draft alone. */
  lemma NoNewDrafts(y: System, e: Event)
    requires !e.Check?
    ensures forall id :: id in Step(y, e).calls && Step(y, e).calls[id].phase.Pending() ==>
              id in y.calls && y.calls[id].phase.Pending() && y.calls[id].caller == Step(y, e).calls[id].caller &&
              y.calls[id].phase.draft == Step(y, e).calls[id].phase.draft
  {
  }

  lemma StepKeepsManaged(y: System, e: Event)
    requires SystemOk(y) && AllManaged(y)
    ensures AllManaged(Step(y, e))
  {
    var z := Step(y, e);
    if e.Check? {
      CheckKeepsManaged(y, e.id, e.now);
    } else if e.Finish? && z.store != y.store {
      FinishKeepsManaged(y, e.id);
    } else {
      StepKeepsSystem(y, e);
      RowsStayManaged(y, z.store);
      NoNewDrafts(y, e);
      assert z.store.txs == y.store.txs;
      forall id | id in z.calls
        ensures DraftManaged(z.store, z.calls[id])
      {
        if z.calls[id].phase.Pending() {
          assert DraftManaged(z.store, y.calls[id]);
        }
      }
    }
  }

  /** In every run each posted row, reversals included, moves money only in wallets of its author's
      family that its author, in the role they had, manages. */
  lemma {:induction false} OnlyManagedWalletsMove(events: seq<Event>)
    ensures AllManaged(Run(events))
  {
    if events != [] {
      var before := events[..|events| - 1];
      OnlyManagedWalletsMove(before);
      RunIsOk(before);
      StepKeepsManaged(Run(before), events[|events| - 1]);
    }
  }

  /** Asked again under its key, a posted command is answered with the same transaction and posts
      nothing; another request under that key is refused. */
  lemma RetriesReplay(s: Store, c: Caller, key: string, r: Request, now: int, again: Request, later: int)
    requires |Handle(s, c, key, r, now).0.txs| > |s.txs|
    requires again.Scope() == r.Scope() && Precheck(again).None?
    ensures
      var s1 := Handle(s, c, key, r, now).0;
      Handle(s1, c, key, again, later) == (s1, if again == r then Posted(|s.txs|) else Refused(KeyReused))
  {
    FindLast(s.commands, Command(c.userId, r.Scope(), key, r, |s.txs|));
  }

  lemma {:induction false} FindLast(rows: seq<Command>, row: Command)
    requires FindCommand(rows, row.userId, row.scope, row.key).None?
    ensures FindCommand(rows + [row], row.userId, row.scope, row.key) == Some(row)
  {
    if rows != [] {
      assert (rows + [row])[1..] == rows[1..] + [row];
      FindLast(rows[1..], row);
    }
  }

  // ----- goals -----

  lemma RunSnoc(events: seq<Event>, e: Event)
    ensures Run(events + [e]) == Step(Run(events), e)
  {
    assert (events + [e])[..|events|] == events;
  }

  /** The rows a contribution's own transaction saw once reached a target the goal had: what was
      committed after `n` events with row `i`, its own, on top. */
  ghost predicate Earned(events: seq<Event>, g: Id) {
    exists i, n, k :: 0 <= i < |Run(events).store.txs| && 0 <= n <= |events| && 0 <= k <= |events| &&
      EarnedBy(events, g, i, n, k)
  }

  ghost predicate EarnedBy(events: seq<Event>, g: Id, i: nat, n: nat, k: nat)
    requires i < |Run(events).store.txs| && n <= |events| && k <= |events|
  {
    var past, now := Run(events[..k]).store.goals, Run(events).store.goals;
    var own := Run(events).store.txs[i];
    g in past && g in now && past[g].walletId == now[g].walletId &&
    |Run(events[..n]).store.txs| <= i && EntryAmount(own.entries, now[g].walletId) > 0 &&
    Balance(Run(events[..n]).store.txs + [own], now[g].walletId) >= past[g].target
  }

  /** What a pending contribution remembers of its goal was true at some earlier point of the run. */
  ghost predicate Remembers(events: seq<Event>, seen: SeenGoal) {
    exists k :: 0 <= k <= |events| && RememberedAt(events, seen, k)
  }

  ghost predicate RememberedAt(events: seq<Event>, seen: SeenGoal, k: nat)
    requires k <= |events|
  {
    var goals := Run(events[..k]).store.goals;
    seen.id in goals && goals[seen.id].walletId == seen.walletId && goals[seen.id].target == seen.target
  }

  /** A pending contribution puts money into the envelope of the goal it remembers. */
  ghost predicate DraftRemembers(events: seq<Event>, k: Call) {
    k.phase.Pending() && k.phase.draft.goal.Some? ==>
      Remembers(events, k.phase.draft.goal.value) &&
      EntryAmount(k.phase.draft.entries, k.phase.draft.goal.value.walletId) > 0
  }

  lemma StillRemembers(events: seq<Event>, e: Event, seen: SeenGoal)
    requires Remembers(events, seen)
    ensures Remembers(events + [e], seen)
  {
    var k :| 0 <= k <= |events| && RememberedAt(events, seen, k);
    assert (events + [e])[..k] == events[..k];
    assert RememberedAt(events + [e], seen, k);
  }

  lemma ContributionPays(s: Store, c: Caller, r: Request, now: int)
    requires DraftFor(s, c, r, now).Ok? && DraftFor(s, c, r, now).value.goal.Some? && Precheck(r).None? && r.Valid()
    ensures
      var d := DraftFor(s, c, r, now).value;
      EntryAmount(d.entries, d.goal.value.walletId) > 0
  {
    var d := DraftFor(s, c, r, now).value;
    PairAmount(d.entries, d.goal.value.walletId);
  }

  lemma FreshDraftRemembers(events: seq<Event>, e: Event, id: nat)
    requires e.Check? && e.id == id && id in Run(events).calls && Run(events).calls[id].phase.Free?
    ensures id in Run(events + [e]).calls && DraftRemembers(events + [e], Run(events + [e]).calls[id])
  {
    RunSnoc(events, e);
    RunIsOk(events);
    var k, z := Run(events).calls[id], Run(events + [e]).calls[id];
    assert CallOk(Run(events).store, k);
    if z.phase.Pending() && z.phase.draft.goal.Some? {
      ContributionPays(Run(events).store, k.caller, k.request, e.now);
      assert (events + [e])[..|events|] == events;
      assert RememberedAt(events + [e], z.phase.draft.goal.value, |events|);
    }
  }

  lemma {:induction false} DraftsRemember(events: seq<Event>, id: nat)
    requires id in Run(events).calls
    ensures DraftRemembers(events, Run(events).calls[id])
    decreases |events|
  {
    if events != [] {
      var before, e := events[..|events| - 1], events[|events| - 1];
      assert before + [e] == events;
      RunSnoc(before, e);
      var k := Run(events).calls[id];
      if k.phase.Pending() && k.phase.draft.goal.Some? {
        if e.Check? && (id !in Run(before).calls || k != Run(before).calls[id]) {
          FreshDraftRemembers(before, e, id);
        } else {
          PendingBefore(Run(before), e, id);
          DraftsRemember(before, id);
          StillRemembers(before, e, k.phase.draft.goal.value);
        }
      }
    }
  }

  lemma PendingBefore(y: System, e: Event, id: nat)
    requires id in Step(y, e).calls && Step(y, e).calls[id].phase.Pending()
    requires e.Check? ==> id in y.calls && Step(y, e).calls[id] == y.calls[id]
    ensures id in y.calls && y.calls[id].phase.Pending() && y.calls[id].phase.draft == Step(y, e).calls[id].phase.draft
    ensures y.calls[id].caller == Step(y, e).calls[id].caller
  {
    if !e.Check? {
      NoNewDrafts(y, e);
    }
  }

  /** The decision of an inserted contribution is the one for the rows committed after `n` events. */
  ghost predicate WeighedAt(events: seq<Event>, k: Call, n: nat)
    requires n <= |events| && k.phase.Inserted?
  {
    k.phase.mark.Some? <==> Fills(Run(events[..n]).store.txs + [TxOf(k.caller, k.phase.draft)], k.phase.draft.goal)
  }

  lemma InsertedOrKept(y: System, e: Event, id: nat)
    requires id in Step(y, e).calls && Step(y, e).calls[id].phase.Inserted?
    ensures id in y.calls
    ensures
      var k, z := y.calls[id], Step(y, e).calls[id];
      z == k || z.phase.mark.Some? == Fills(y.store.txs + [TxOf(z.caller, z.phase.draft)], z.phase.draft.goal)
  {
  }

  lemma {:induction false} InsertsAreWeighed(events: seq<Event>, id: nat) returns (n: nat)
    requires id in Run(events).calls && Run(events).calls[id].phase.Inserted?
    ensures n <= |events| && WeighedAt(events, Run(events).calls[id], n)
    decreases |events|
  {
    var before, e := events[..|events| - 1], events[|events| - 1];
    assert before + [e] == events;
    RunSnoc(before, e);
    InsertedOrKept(Run(before), e, id);
    if Run(before).calls[id] == Run(events).calls[id] {
      n := InsertsAreWeighed(before, id);
      assert events[..n] == before[..n];
    } else {
      n := |before|;
    }
  }

  /** The event commits a contribution that decided to mark the goal. */
  ghost predicate Marks(y: System, e: Event, g: Id) {
    e.Finish? && e.id in y.calls && y.calls[e.id].phase.Inserted? && g in y.store.goals &&
    var k := y.calls[e.id];
    var d := k.phase.draft;
    d.goal.Some? && d.goal.value.id == g && !Clashes(y.store, k.caller, k.key, k.request, d) && k.phase.mark.Some?
  }

  /** Nothing but such a commit writes the mark of a goal. */
  lemma OnlyFillingMarks(y: System, e: Event, g: Id)
    requires g in Step(y, e).store.goals
    ensures Marks(y, e, g) ==> Step(y, e).store.goals[g].achievedAt == y.calls[e.id].phase.mark
    ensures !Marks(y, e, g) ==>
              Step(y, e).store.goals[g].achievedAt == if g in y.store.goals then y.store.goals[g].achievedAt else None
  {
    assert e.Admin? || e.Finish? || Step(y, e).store == y.store;
  }

  /** Exactly when an event moves the mark of a goal already achieved: it commits a contribution that had
      read the goal as not achieved, found it full and decided on another instant. */
  lemma MarkMovesExactly(events: seq<Event>, e: Event, g: Id)
    requires g in Run(events).store.goals && Run(events).store.goals[g].achievedAt.Some?
    ensures g in Run(events + [e]).store.goals
    ensures Run(events + [e]).store.goals[g].achievedAt != Run(events).store.goals[g].achievedAt <==>
            Marks(Run(events), e, g) && Run(events).store.goals[g].achievedAt != Run(events).calls[e.id].phase.mark
    ensures Marks(Run(events), e, g) ==> Run(events).calls[e.id].phase.draft.goal.value.achievedAt.None?
  {
    EventExtends(events, e);
    RunSnoc(events, e);
    OnlyFillingMarks(Run(events), e, g);
    if Marks(Run(events), e, g) {
      var n := InsertsAreWeighed(events, e.id);
    }
  }

  /** A contribution that commits marks its goal exactly when the goal was not achieved as it had read it
      and full in what was committed when it inserted, its own row added; what commits in between is not
      seen. */
  lemma CommitMarksExactly(events: seq<Event>, id: nat) returns (n: nat)
    requires id in Run(events).calls && Run(events).calls[id].phase.Inserted?
    requires Run(events).calls[id].phase.draft.goal.Some?
    requires
      var k := Run(events).calls[id];
      !Clashes(Run(events).store, k.caller, k.key, k.request, k.phase.draft)
    ensures n <= |events|
    ensures
      var k := Run(events).calls[id];
      var seen := k.phase.draft.goal.value;
      Run(events + [Finish(id)]).store.txs == Run(events).store.txs + [TxOf(k.caller, k.phase.draft)] &&
      (Marks(Run(events), Finish(id), seen.id) <==>
         seen.achievedAt.None? &&
         Balance(Run(events[..n]).store.txs + [TxOf(k.caller, k.phase.draft)], seen.walletId) >= seen.target)
  {
    n := InsertsAreWeighed(events, id);
    RunSnoc(events, Finish(id));
    DraftsRemember(events, id);
    var seen := Run(events).calls[id].phase.draft.goal.value;
    var k :| 0 <= k <= |events| && RememberedAt(events, seen, k);
    WalletWasTheSame(events, k, seen.id);
  }

  lemma StillEarnedBy(events: seq<Event>, e: Event, g: Id, i: nat, n: nat, k: nat)
    requires i < |Run(events).store.txs| && n <= |events| && k <= |events| && EarnedBy(events, g, i, n, k)
    ensures i < |Run(events + [e]).store.txs| && EarnedBy(events + [e], g, i, n, k)
  {
    EventExtends(events, e);
    WalletOfGoalStays(Run(events).store, Run(events + [e]).store, g);
    assert (events + [e])[..k] == events[..k] && (events + [e])[..n] == events[..n];
    assert Run(events + [e]).store.txs[i] == Run(events).store.txs[i];
  }

  lemma StillEarned(events: seq<Event>, e: Event, g: Id)
    requires Earned(events, g)
    ensures Earned(events + [e], g)
  {
    var i, n, k :| 0 <= i < |Run(events).store.txs| && 0 <= n <= |events| && 0 <= k <= |events| &&
                   EarnedBy(events, g, i, n, k);
    StillEarnedBy(events, e, g, i, n, k);
  }

  lemma WalletOfGoalStays(s: Store, s': Store, g: Id)
    requires Extends(s, s') && g in s.goals
    ensures g in s'.goals && s'.goals[g].walletId == s.goals[g].walletId
  {
  }

  /** What a contribution that marks its goal saw, and when. */
  lemma MarkerSaw(events: seq<Event>, e: Event, g: Id) returns (n: nat, k: nat)
    requires Marks(Run(events), e, g)
    ensures n <= |events| && k <= |events|
    ensures
      var c := Run(events).calls[e.id];
      var seen, own := c.phase.draft.goal.value, TxOf(c.caller, c.phase.draft);
      seen.id == g && RememberedAt(events, seen, k) && EntryAmount(own.entries, seen.walletId) > 0 &&
      Balance(Run(events[..n]).store.txs + [own], seen.walletId) >= seen.target
  {
    n := InsertsAreWeighed(events, e.id);
    DraftsRemember(events, e.id);
    k :| 0 <= k <= |events| && RememberedAt(events, Run(events).calls[e.id].phase.draft.goal.value, k);
  }

  lemma EarlierIsShorter(events: seq<Event>, n: nat)
    requires n <= |events|
    ensures |Run(events[..n]).store.txs| <= |Run(events).store.txs|
  {
    assert events[..n] + events[n..] == events;
    RunOnlyExtends(events[..n], events[n..]);
  }

  lemma WalletWasTheSame(events: seq<Event>, k: nat, g: Id)
    requires k <= |events| && g in Run(events[..k]).store.goals
    ensures g in Run(events).store.goals
    ensures Run(events).store.goals[g].walletId == Run(events[..k]).store.goals[g].walletId
  {
    assert events[..k] + events[k..] == events;
    RunOnlyExtends(events[..k], events[k..]);
    WalletOfGoalStays(Run(events[..k]).store, Run(events).store, g);
  }

  lemma MarkingIsEarned(events: seq<Event>, e: Event, g: Id)
    requires Marks(Run(events), e, g)
    ensures Earned(events + [e], g)
  {
    var n, k := MarkerSaw(events, e, g);
    var all := events + [e];
    EarlierIsShorter(events, n);
    assert all[..k] == events[..k] && all[..n] == events[..n];
    WalletWasTheSame(events, k, g);
    WalletWasTheSame(all, k, g);
    RunSnoc(events, e);
    assert EarnedBy(all, g, |Run(events).store.txs|, n, k);
  }

  /** A goal shown as achieved was once full in the eyes of a contribution to it, by a target it once
      had, and stays achieved. */
  lemma {:induction false} AchievementIsEarned(events: seq<Event>, g: Id)
    requires g in Run(events).store.goals && Run(events).store.goals[g].achievedAt.Some?
    ensures Earned(events, g)
    ensures forall more :: g in Run(events + more).store.goals && Run(events + more).store.goals[g].achievedAt.Some?
    decreases |events|
  {
    if events != [] {
      var before, e := events[..|events| - 1], events[|events| - 1];
      assert before + [e] == events;
      RunSnoc(before, e);
      OnlyFillingMarks(Run(before), e, g);
      if Marks(Run(before), e, g) {
        MarkingIsEarned(before, e, g);
      } else {
        AchievementIsEarned(before, g);
        StillEarned(before, e, g);
      }
    }
    forall more
      ensures g in Run(events + more).store.goals && Run(events + more).store.goals[g].achievedAt.Some?
    {
      RunOnlyExtends(events, more);
    }
  }

  /** With nothing interleaved a command never moves an existing mark, and a contribution that posts leaves
      its goal achieved exactly when it was, or is now full. */
  lemma UninterleavedMarksExactly(s: Store, c: Caller, key: string, r: Request, now: int, g: Id)
    requires g in s.goals
    ensures
      var (s', answer) := Handle(s, c, key, r, now);
      g in s'.goals && (s.goals[g].achievedAt.Some? ==> s'.goals[g] == s.goals[g]) &&
      (r.ContributionRequest? && r.goalId == g && s' != s ==>
         (s'.goals[g].achievedAt.Some? <==>
          s.goals[g].achievedAt.Some? || Balance(s'.txs, s'.goals[g].walletId) >= s'.goals[g].target))
  {
  }

  // ----- two contributions that both read an unachieved goal -----

  const ANN: Caller := Caller("ann", "home", Partner)
  const PURSE: Wallet := Wallet("home", None, FamilyOwned, FamilyVisible, "EUR", false, 1)
  const SAVE: Request := ContributionRequest("trip", "purse", 10, Some(0), "")

  function Trip(target: nat): Goal {
    Goal("home", "envelope", target, None, false)
  }

  function Saving(target: nat): Draft {
    Draft(Transfer, "EUR", 0, None, None, [Entry(Some("purse"), -10), Entry(Some("envelope"), 10)],
          Some(SeenGoal("trip", "envelope", target, None)))
  }

  function Opening(target: nat): seq<Event> {
    [Admin(ANN, CreateWallet("purse", FamilyOwned, None, "EUR"))] +
    [Admin(ANN, CreateGoal("trip", "envelope", FamilyOwned, None, "EUR", target))]
  }

  function FreeKeys(target: nat): seq<Event> {
    Opening(target) + [Arrive(1, ANN, "first", SAVE)] + [Arrive(2, ANN, "second", SAVE)] + [ReadKey(1)] + [ReadKey(2)]
  }

  function BothChecked(target: nat): seq<Event> {
    FreeKeys(target) + [Check(1, 0)] + [Check(2, 0)]
  }

  predicate Target(target: nat) {
    0 < target <= MAX_AMOUNT_MINOR
  }

  lemma GoalIsOpened(target: nat)
    requires Target(target)
    ensures
      var y := Run(Opening(target));
      y.calls == map[] && y.store.txs == [] && y.store.commands == [] && y.store.goals == map["trip" := Trip(target)] &&
      y.store.wallets == map["purse" := PURSE, "envelope" := PURSE]
  {
    var e1 := [Admin(ANN, CreateWallet("purse", FamilyOwned, None, "EUR"))];
    assert e1 == [] + e1;
    RunSnoc([], e1[0]);
    RunSnoc(e1, Admin(ANN, CreateGoal("trip", "envelope", FamilyOwned, None, "EUR", target)));
  }

  lemma BothKeysAreFree(target: nat)
    requires Target(target)
    ensures Run(FreeKeys(target)).store == Run(Opening(target)).store
    ensures Run(FreeKeys(target)).calls ==
            map[1 := Call(ANN, "first", SAVE, Free), 2 := Call(ANN, "second", SAVE, Free)]
  {
    GoalIsOpened(target);
    var e := Opening(target);
    RunSnoc(e, Arrive(1, ANN, "first", SAVE));
    RunSnoc(e + [Arrive(1, ANN, "first", SAVE)], Arrive(2, ANN, "second", SAVE));
    RunSnoc(e + [Arrive(1, ANN, "first", SAVE)] + [Arrive(2, ANN, "second", SAVE)], ReadKey(1));
    RunSnoc(e + [Arrive(1, ANN, "first", SAVE)] + [Arrive(2, ANN, "second", SAVE)] + [ReadKey(1)], ReadKey(2));
  }

  lemma SavingIsDrafted(target: nat)
    requires Target(target)
    ensures DraftFor(Run(Opening(target)).store, ANN, SAVE, 0) == Ok(Saving(target))
  {
    GoalIsOpened(target);
  }

  lemma BothAreChecked(target: nat)
    requires Target(target)
    ensures Run(BothChecked(target)).store == Run(Opening(target)).store
    ensures Run(BothChecked(target)).calls ==
            map[1 := Call(ANN, "first", SAVE, Drafted(Saving(target))),
                2 := Call(ANN, "second", SAVE, Drafted(Saving(target)))]
  {
    BothKeysAreFree(target);
    SavingIsDrafted(target);
    RunSnoc(FreeKeys(target), Check(1, 0));
    RunSnoc(FreeKeys(target) + [Check(1, 0)], Check(2, 0));
  }

  lemma FirstCommits(target: nat, mark: Option<int>, other: Phase, y: System)
    requires Target(target) && y.store == Run(Opening(target)).store
    requires y.calls == map[1 := Call(ANN, "first", SAVE, Inserted(Saving(target), mark)),
                            2 := Call(ANN, "second", SAVE, other)]
    ensures
      var z := Step(y, Finish(1));
      z.store.goals == map["trip" := Trip(target).(achievedAt := mark)] && z.store.txs == [TxOf(ANN, Saving(target))] &&
      z.store.commands == [Command("ann", GOAL_SCOPE, "first", SAVE, 0)] &&
      2 in z.calls && z.calls[2] == y.calls[2]
  {
    GoalIsOpened(target);
  }

  lemma SecondCommits(target: nat, first: Option<int>, mark: Option<int>, y: System)
    requires 2 in y.calls && y.calls[2] == Call(ANN, "second", SAVE, Inserted(Saving(target), mark))
    requires y.store.goals == map["trip" := Trip(target).(achievedAt := first)]
    requires y.store.txs == [TxOf(ANN, Saving(target))]
    requires y.store.commands == [Command("ann", GOAL_SCOPE, "first", SAVE, 0)]
    ensures
      var z := Step(y, Finish(2));
      z.store.goals == map["trip" := Trip(target).(achievedAt := if mark.Some? then mark else first)] &&
      z.store.txs == [TxOf(ANN, Saving(target))] + [TxOf(ANN, Saving(target))]
  {
  }

  lemma Weighs(target: nat, events: seq<Event>, id: nat, now: int, y: System, saved: nat)
    requires y == Run(events) && id in y.calls
    requires y.calls[id].phase == Drafted(Saving(target)) && y.calls[id].caller == ANN
    requires Balance(y.store.txs, "envelope") == saved
    ensures Run(events + [Insert(id, now)]) ==
            y.(calls := y.calls[id := y.calls[id].(phase :=
              Inserted(Saving(target), if saved + 10 >= target then Some(now) else None))])
  {
    RunSnoc(events, Insert(id, now));
    BalanceSnoc(y.store.txs, TxOf(ANN, Saving(target)), "envelope");
    PairAmount(Saving(target).entries, "envelope");
  }

  /** Two contributions under different keys both pass their checks while the goal is not achieved; the
      second to commit overwrites the mark of the first. */
  lemma SecondContributionMovesMark(target: nat)
    requires 0 < target <= 10
    ensures
      var marked := BothChecked(target) + [Insert(1, 100)] + [Finish(1)];
      var moved := marked + [Insert(2, 200)] + [Finish(2)];
      Run(marked).store.goals == map["trip" := Trip(target).(achievedAt := Some(100))] &&
      Run(moved).store.goals == map["trip" := Trip(target).(achievedAt := Some(200))]
  {
    BothAreChecked(target);
    GoalIsOpened(target);
    var e := BothChecked(target);
    Weighs(target, e, 1, 100, Run(e), 0);
    RunSnoc(e + [Insert(1, 100)], Finish(1));
    FirstCommits(target, Some(100), Drafted(Saving(target)), Run(e + [Insert(1, 100)]));
    var marked := e + [Insert(1, 100)] + [Finish(1)];
    SavedOnce(target);
    Weighs(target, marked, 2, 200, Run(marked), 10);
    RunSnoc(marked + [Insert(2, 200)], Finish(2));
    SecondCommits(target, Some(100), Some(200), Run(marked + [Insert(2, 200)]));
  }

  lemma SavedOnce(target: nat)
    ensures Balance([TxOf(ANN, Saving(target))], "envelope") == 10
  {
    BalanceSnoc([], TxOf(ANN, Saving(target)), "envelope");
    PairAmount(Saving(target).entries, "envelope");
    assert [] + [TxOf(ANN, Saving(target))] == [TxOf(ANN, Saving(target))];
  }

  /** Two contributions that fill a goal only together and overlap do not see each other's entries: the
      goal ends full and not achieved. */
  lemma FullGoalStaysUnmarked(target: nat)
    requires 10 < target <= 20
    ensures
      var filled := BothChecked(target) + [Insert(1, 100)] + [Insert(2, 200)] + [Finish(1)] + [Finish(2)];
      Run(filled).store.goals == map["trip" := Trip(target)] && Balance(Run(filled).store.txs, "envelope") == 20
  {
    BothAreChecked(target);
    GoalIsOpened(target);
    var e := BothChecked(target);
    Weighs(target, e, 1, 100, Run(e), 0);
    var e1 := e + [Insert(1, 100)];
    Weighs(target, e1, 2, 200, Run(e1), 0);
    var e2 := e1 + [Insert(2, 200)];
    RunSnoc(e2, Finish(1));
    FirstCommits(target, None, Inserted(Saving(target), None), Run(e2));
    RunSnoc(e2 + [Finish(1)], Finish(2));
    SecondCommits(target, None, None, Run(e2 + [Finish(1)]));
    SavedOnce(target);
    BalanceSnoc([TxOf(ANN, Saving(target))], TxOf(ANN, Saving(target)), "envelope");
    PairAmount(Saving(target).entries, "envelope");
  }
}
