/** The finance tables, the checks each command makes against them, and the transaction that
    appends a balanced pair of entries under an idempotency key. */
module Ledger {
  import opened Basics

  type Id = string

  const MAX_AMOUNT_MINOR: int := 0x7FFF_FFFF_FFFF_FFFF
  const LEDGER_SCOPE: string := "finance.ledger.v1"
  const GOAL_SCOPE: string := "finance.goal-contribution.v1"
  const UNCATEGORIZED: string := "uncategorized"

  datatype Role = Partner | Child
  datatype WalletType = Personal | FamilyOwned
  datatype Visibility = Private | PartnerVisible | FamilyVisible
  datatype CategoryKind = IncomeKind | ExpenseKind
  datatype TxType = Income | Expense | Transfer | Reversal

  datatype Wallet = Wallet(
    familyId: Id, ownerId: Option<Id>, wtype: WalletType, visibility: Visibility, currency: string,
    archived: bool, version: nat)
  datatype Category = Category(familyId: Id, kind: CategoryKind, archived: bool)
  datatype Goal = Goal(familyId: Id, walletId: Id, target: int, achievedAt: Option<int>, archived: bool)
  datatype Entry = Entry(walletId: Option<Id>, amountMinor: int)
  /** A transaction's id is its position in the append-only table. */
  datatype Tx = Tx(
    familyId: Id, createdById: Id, ttype: TxType, currency: string, occurredAt: int,
    reversesId: Option<nat>, categoryId: Option<Id>, entries: seq<Entry>)

  /** A request together with its command name. It stands for its own SHA-256 hash; `rest` is whatever
      else that hash covers, such as the note and the spelling of the date. */
  datatype Request =
    | WalletRequest(
        ttype: TxType, walletId: Id, categoryId: Option<Id>, amountMinor: int, occurredAt: Option<int>, rest: string)
    | TransferRequest(fromId: Id, toId: Id, amountMinor: int, occurredAt: Option<int>, rest: string)
    | ReversalRequest(transactionId: nat, occurredAt: Option<int>, rest: string)
    | ContributionRequest(goalId: Id, fromId: Id, amountMinor: int, occurredAt: Option<int>, rest: string)
  {
    /** What the DTOs admit: a positive amount, and only the two wallet command types. */
    predicate Valid() {
      match this
      case WalletRequest(t, _, _, a, _, _) => (t.Income? || t.Expense?) && 0 < a
      case TransferRequest(_, _, a, _, _) => 0 < a
      case ReversalRequest(_, _, _) => true
      case ContributionRequest(_, _, a, _, _) => 0 < a
    }

    function Scope(): string {
      if ContributionRequest? then GOAL_SCOPE else LEDGER_SCOPE
    }
  }

  datatype Command = Command(userId: Id, scope: string, key: string, request: Request, txId: nat)

  datatype Store = Store(
    wallets: map<Id, Wallet>, categories: map<Id, Category>, goals: map<Id, Goal>,
    txs: seq<Tx>, commands: seq<Command>)

  datatype Caller = Caller(userId: Id, familyId: Id, role: Role)

  datatype Error = NotFound | BadRequest | Forbidden | AlreadyReversed | KeyReused | UniqueViolation | Changed
  datatype Response = Posted(txId: nat) | Refused(error: Error)

  const EMPTY: Store := Store(map[], map[], map[], [], [])

  // ----- policy -----

  predicate CanManage(w: Wallet, c: Caller) {
    w.ownerId == Some(c.userId) || (w.wtype.FamilyOwned? && c.role.Partner?)
  }

  predicate VisibleTo(w: Wallet, c: Caller) {
    || w.wtype.FamilyOwned?
    || w.ownerId == Some(c.userId)
    || (c.role.Partner? && w.wtype.Personal? && w.visibility.PartnerVisible?)
  }

  predicate VisibilityFits(t: WalletType, v: Visibility) {
    if t.FamilyOwned? then v.FamilyVisible? else v.Private? || v.PartnerVisible?
  }

  predicate Usable(s: Store, id: Id, c: Caller) {
    id in s.wallets && s.wallets[id].familyId == c.familyId && !s.wallets[id].archived && CanManage(s.wallets[id], c)
  }

  // ----- reading a command's outcome -----

  predicate Matches(row: Command, userId: Id, scope: string, key: string) {
    row.userId == userId && row.scope == scope && row.key == key
  }

  function FindCommand(rows: seq<Command>, userId: Id, scope: string, key: string): (r: Option<Command>)
    ensures r.Some? ==> r.value in rows && Matches(r.value, userId, scope, key)
    ensures r.None? ==> forall i :: 0 <= i < |rows| ==> !Matches(rows[i], userId, scope, key)
  {
    if rows == [] then None
    else if Matches(rows[0], userId, scope, key) then Some(rows[0])
    else FindCommand(rows[1..], userId, scope, key)
  }

  /** `None` when the key is free, otherwise the stored transaction or a refusal. */
  function Replay(s: Store, c: Caller, key: string, r: Request): Option<Response> {
    match FindCommand(s.commands, c.userId, r.Scope(), key)
    case None => None
    case Some(row) => Some(if row.request == r then Posted(row.txId) else Refused(KeyReused))
  }

  // ----- drafting: every check made before a row is written -----

  /** What a contribution read of its goal before it inserted anything. */
  datatype SeenGoal = SeenGoal(id: Id, walletId: Id, target: int, achievedAt: Option<int>)

  datatype Draft = Draft(
    ttype: TxType, currency: string, occurredAt: int, reversesId: Option<nat>, categoryId: Option<Id>,
    entries: seq<Entry>, goal: Option<SeenGoal>)

  function When(requested: Option<int>, now: int): int {
    if requested.Some? then requested.value else now
  }

  /** Refusals decided before the idempotency key is looked at. */
  function Precheck(r: Request): Option<Error> {
    match r
    case WalletRequest(_, _, _, a, _, _) => if a > MAX_AMOUNT_MINOR then Some(BadRequest) else None
    case TransferRequest(f, t, a, _, _) => if f == t || a > MAX_AMOUNT_MINOR then Some(BadRequest) else None
    case _ => None
  }

  predicate CategoryFits(s: Store, c: Caller, id: Id, kind: CategoryKind) {
    id in s.categories && s.categories[id].familyId == c.familyId && !s.categories[id].archived &&
    s.categories[id].kind == kind
  }

  function DraftWallet(s: Store, c: Caller, r: Request, now: int): Result<Draft, Error>
    requires r.WalletRequest?
  {
    if !Usable(s, r.walletId, c) then Err(NotFound)
    else if r.categoryId.Some? &&
            !CategoryFits(s, c, r.categoryId.value, if r.ttype.Income? then IncomeKind else ExpenseKind) then
      Err(NotFound)
    else
      var signed := if r.ttype.Income? then r.amountMinor else -r.amountMinor;
      Ok(Draft(r.ttype, s.wallets[r.walletId].currency, When(r.occurredAt, now), None, r.categoryId,
               [Entry(Some(r.walletId), signed), Entry(None, -signed)], None))
  }

  function DraftTransfer(s: Store, c: Caller, r: Request, now: int): Result<Draft, Error>
    requires r.TransferRequest?
  {
    if !Usable(s, r.fromId, c) || !Usable(s, r.toId, c) then Err(NotFound)
    else if s.wallets[r.fromId].currency != s.wallets[r.toId].currency then Err(BadRequest)
    else Ok(Draft(Transfer, s.wallets[r.fromId].currency, When(r.occurredAt, now), None, None,
                  [Entry(Some(r.fromId), -r.amountMinor), Entry(Some(r.toId), r.amountMinor)], None))
  }

  predicate ReversedBy(txs: seq<Tx>, id: nat) {
    exists i :: 0 <= i < |txs| && txs[i].reversesId == Some(id)
  }

  function Negated(entries: seq<Entry>): (r: seq<Entry>)
    ensures |r| == |entries|
    ensures forall i :: 0 <= i < |r| ==>
      r[i].walletId == entries[i].walletId && r[i].amountMinor == -entries[i].amountMinor
  {
    if entries == [] then []
    else [Entry(entries[0].walletId, -entries[0].amountMinor)] + Negated(entries[1..])
  }

  function DraftReversal(s: Store, c: Caller, r: Request, now: int): Result<Draft, Error>
    requires r.ReversalRequest?
  {
    if r.transactionId >= |s.txs| || s.txs[r.transactionId].familyId != c.familyId then Err(NotFound)
    else
      var original := s.txs[r.transactionId];
      if original.ttype.Reversal? then Err(BadRequest)
      else if original.reversesId.Some? || ReversedBy(s.txs, r.transactionId) then Err(AlreadyReversed)
      else if exists e :: e in original.entries && e.walletId.Some? && !Usable(s, e.walletId.value, c) then
        Err(NotFound)
      else Ok(Draft(Reversal, original.currency, When(r.occurredAt, now), Some(r.transactionId),
                    original.categoryId, Negated(original.entries), None))
  }

  function DraftContribution(s: Store, c: Caller, r: Request, now: int): Result<Draft, Error>
    requires r.ContributionRequest?
  {
    if r.amountMinor > MAX_AMOUNT_MINOR then Err(BadRequest)
    else if r.goalId !in s.goals || s.goals[r.goalId].familyId != c.familyId || s.goals[r.goalId].archived ||
            s.goals[r.goalId].walletId !in s.wallets || !CanManage(s.wallets[s.goals[r.goalId].walletId], c) then
      Err(NotFound)
    else
      var envelopeId := s.goals[r.goalId].walletId;
      var envelope := s.wallets[envelopeId];
      if r.fromId == envelopeId then Err(BadRequest)
      else if !Usable(s, r.fromId, c) then Err(NotFound)
      else
        var source := s.wallets[r.fromId];
        if source.currency != envelope.currency then Err(BadRequest)
        else if envelope.wtype.FamilyOwned? && source.wtype.Personal? && source.visibility.Private? then
          Err(BadRequest)
        else Ok(Draft(Transfer, source.currency, When(r.occurredAt, now), None, None,
                      [Entry(Some(r.fromId), -r.amountMinor), Entry(Some(envelopeId), r.amountMinor)],
                      Some(SeenGoal(r.goalId, envelopeId, s.goals[r.goalId].target, s.goals[r.goalId].achievedAt))))
  }

  function DraftFor(s: Store, c: Caller, r: Request, now: int): Result<Draft, Error> {
    match r
    case WalletRequest(_, _, _, _, _, _) => DraftWallet(s, c, r, now)
    case TransferRequest(_, _, _, _, _) => DraftTransfer(s, c, r, now)
    case ReversalRequest(_, _, _) => DraftReversal(s, c, r, now)
    case ContributionRequest(_, _, _, _, _) => DraftContribution(s, c, r, now)
  }

  // ----- writing: one database transaction guarded by the unique indexes -----

  function TxOf(c: Caller, d: Draft): Tx {
    Tx(c.familyId, c.userId, d.ttype, d.currency, d.occurredAt, d.reversesId, d.categoryId, d.entries)
  }

  function EntryAmount(entries: seq<Entry>, walletId: Id): int {
    if entries == [] then 0
    else (if entries[0].walletId == Some(walletId) then entries[0].amountMinor else 0) +
         EntryAmount(entries[1..], walletId)
  }

  function Balance(txs: seq<Tx>, walletId: Id): int {
    if txs == [] then 0
    else Balance(txs[..|txs| - 1], walletId) + EntryAmount(txs[|txs| - 1].entries, walletId)
  }

  /** The contribution fills the envelope of a goal it read as not yet achieved. */
  predicate Fills(txs: seq<Tx>, goal: Option<SeenGoal>) {
    goal.Some? && goal.value.achievedAt.None? && Balance(txs, goal.value.walletId) >= goal.value.target
  }

  /** What a transaction decides to mark from the rows it sees, its own among them. */
  function MarkFor(txs: seq<Tx>, goal: Option<SeenGoal>, now: int): Option<int> {
    if Fills(txs, goal) then Some(now) else None
  }

  /** The mark is written without a guard. */
  function Achieve(goals: map<Id, Goal>, goal: Option<SeenGoal>, mark: Option<int>): map<Id, Goal> {
    if goal.Some? && mark.Some? && goal.value.id in goals
    then goals[goal.value.id := goals[goal.value.id].(achievedAt := mark)]
    else goals
  }

  predicate Clashes(s: Store, c: Caller, key: string, r: Request, d: Draft) {
    || (d.reversesId.Some? && ReversedBy(s.txs, d.reversesId.value))
    || FindCommand(s.commands, c.userId, r.Scope(), key).Some?
  }

  function Commit(s: Store, c: Caller, key: string, r: Request, d: Draft, mark: Option<int>): Store {
    s.(txs := s.txs + [TxOf(c, d)],
       commands := s.commands + [Command(c.userId, r.Scope(), key, r, |s.txs|)],
       goals := Achieve(s.goals, d.goal, mark))
  }

  /** The transaction of a draft with nothing else running. */
  function Persisted(s: Store, c: Caller, key: string, r: Request, d: Draft, now: int): Store {
    Commit(s, c, key, r, d, MarkFor(s.txs + [TxOf(c, d)], d.goal, now))
  }

  /** The answer after a unique violation was caught. */
  function AfterConflict(s: Store, c: Caller, key: string, r: Request): Response {
    match Replay(s, c, key, r)
    case Some(answer) => answer
    case None => Refused(if r.ReversalRequest? then AlreadyReversed else UniqueViolation)
  }

  /** One whole command with nothing else running. */
  function Handle(s: Store, c: Caller, key: string, r: Request, now: int): (Store, Response) {
    if Precheck(r).Some? then (s, Refused(Precheck(r).value))
    else if Replay(s, c, key, r).Some? then (s, Replay(s, c, key, r).value)
    else match DraftFor(s, c, r, now)
      case Err(e) => (s, Refused(e))
      case Ok(d) =>
        if Clashes(s, c, key, r, d) then (s, AfterConflict(s, c, key, r))
        else (Persisted(s, c, key, r, d, now), Posted(|s.txs|))
  }

  // ----- wallets, categories and goals -----

  datatype AdminCommand =
    | CreateWallet(id: Id, wtype: WalletType, asked: Option<Visibility>, currency: string)
    | UpdateWallet(id: Id, asked: Option<Visibility>, expected: Option<nat>)
    | ArchiveWallet(id: Id, expected: Option<nat>)
    | RestoreWallet(id: Id, expected: Option<nat>)
    | CreateCategory(id: Id, kind: CategoryKind)
    | SetCategoryArchived(id: Id, archived: bool)
    | CreateGoal(id: Id, walletId: Id, wtype: WalletType, asked: Option<Visibility>, currency: string, target: nat)
    | UpdateGoal(id: Id, target: nat)
    | SetGoalArchived(id: Id, archived: bool)

  function ResolvedVisibility(t: WalletType, asked: Option<Visibility>): Visibility {
    if asked.Some? then asked.value else if t.FamilyOwned? then FamilyVisible else Private
  }

  predicate MayOpen(s: Store, c: Caller, id: Id, t: WalletType, asked: Option<Visibility>) {
    id !in s.wallets && VisibilityFits(t, ResolvedVisibility(t, asked)) && (t.FamilyOwned? ==> c.role.Partner?)
  }

  function Opened(c: Caller, t: WalletType, asked: Option<Visibility>, currency: string): Wallet {
    var owner := if t.Personal? then Some(c.userId) else None;
    Wallet(c.familyId, owner, t, ResolvedVisibility(t, asked), currency, false, 1)
  }

  predicate OwnWallet(s: Store, c: Caller, id: Id) {
    id in s.wallets && s.wallets[id].familyId == c.familyId && CanManage(s.wallets[id], c)
  }

  predicate VersionOk(expected: Option<nat>, version: nat) {
    expected.Some? ==> expected.value == version
  }

  predicate HasActiveGoal(s: Store, walletId: Id) {
    exists g :: g in s.goals && s.goals[g].walletId == walletId && !s.goals[g].archived
  }

  /** The effect of an administrative command; a refused one leaves the store alone. */
  function Administer(s: Store, c: Caller, a: AdminCommand): Store {
    match a
    case CreateWallet(id, t, asked, currency) =>
      if MayOpen(s, c, id, t, asked) then s.(wallets := s.wallets[id := Opened(c, t, asked, currency)]) else s
    case UpdateWallet(id, asked, expected) =>
      if OwnWallet(s, c, id) && !s.wallets[id].archived && VersionOk(expected, s.wallets[id].version) &&
         VisibilityFits(s.wallets[id].wtype, if asked.Some? then asked.value else s.wallets[id].visibility)
      then
        var w := s.wallets[id];
        s.(wallets := s.wallets[id := w.(
          visibility := if asked.Some? then asked.value else w.visibility, version := w.version + 1)])
      else s
    case ArchiveWallet(id, expected) =>
      if OwnWallet(s, c, id) && !s.wallets[id].archived && VersionOk(expected, s.wallets[id].version) &&
         !HasActiveGoal(s, id)
      then s.(wallets := s.wallets[id := s.wallets[id].(archived := true, version := s.wallets[id].version + 1)])
      else s
    case RestoreWallet(id, expected) =>
      if OwnWallet(s, c, id) && s.wallets[id].archived && VersionOk(expected, s.wallets[id].version)
      then s.(wallets := s.wallets[id := s.wallets[id].(archived := false, version := s.wallets[id].version + 1)])
      else s
    case CreateCategory(id, kind) =>
      if id !in s.categories && id != UNCATEGORIZED
      then s.(categories := s.categories[id := Category(c.familyId, kind, false)])
      else s
    case SetCategoryArchived(id, archived) =>
      if id in s.categories && s.categories[id].familyId == c.familyId && s.categories[id].archived != archived
      then s.(categories := s.categories[id := s.categories[id].(archived := archived)])
      else s
    case CreateGoal(id, walletId, t, asked, currency, target) =>
      if id !in s.goals && MayOpen(s, c, walletId, t, asked) && 0 < target <= MAX_AMOUNT_MINOR
      then s.(wallets := s.wallets[walletId := Opened(c, t, asked, currency)],
              goals := s.goals[id := Goal(c.familyId, walletId, target, None, false)])
      else s
    case UpdateGoal(id, target) =>
      if id in s.goals && s.goals[id].familyId == c.familyId && !s.goals[id].archived &&
        OwnWallet(s, c, s.goals[id].walletId) &&
         0 < target <= MAX_AMOUNT_MINOR
      then s.(goals := s.goals[id := s.goals[id].(target := target)])
      else s
    case SetGoalArchived(id, archived) =>
      if id in s.goals && s.goals[id].familyId == c.familyId && s.goals[id].archived != archived &&
         OwnWallet(s, c, s.goals[id].walletId) && (!archived ==> !s.wallets[s.goals[id].walletId].archived)
      then s.(goals := s.goals[id := s.goals[id].(archived := archived)])
      else s
  }

  // ----- the tables as the services update them -----

  class LedgerDatabase {
    var wallets: map<Id, Wallet>
    var categories: map<Id, Category>
    var goals: map<Id, Goal>
    var txs: seq<Tx>
    var commands: seq<Command>

    function State(): Store
      reads this
    {
      Store(wallets, categories, goals, txs, commands)
    }

    constructor ()
      ensures State() == EMPTY
    {
      wallets, categories, goals, txs, commands := map[], map[], map[], [], [];
    }

    /** Inserts the ledger row, then the command row, then settles the goal. A unique violation
        on either index rolls everything back. */
    method Persist(c: Caller, key: string, r: Request, d: Draft, now: int) returns (clash: bool)
      modifies this
      ensures clash == old(Clashes(State(), c, key, r, d))
      ensures State() == if clash then old(State()) else old(Persisted(State(), c, key, r, d, now))
    {
      var before := txs;
      if d.reversesId.Some? && ReversedBy(txs, d.reversesId.value) {
        return true;
      }
      txs := txs + [TxOf(c, d)];
      if FindCommand(commands, c.userId, r.Scope(), key).Some? {
        txs := before;
        return true;
      }
      commands := commands + [Command(c.userId, r.Scope(), key, r, |before|)];
      goals := Achieve(goals, d.goal, MarkFor(txs, d.goal, now));
      clash := false;
    }

    /** income, expense, transfer, reverse and contribute share this shape: replay, check inside
        the transaction, persist, and replay once more when the insert clashed. */
    method Execute(c: Caller, key: string, r: Request, now: int) returns (answer: Response)
      modifies this
      ensures (State(), answer) == old(Handle(State(), c, key, r, now))
    {
      var refusal := Precheck(r);
      if refusal.Some? {
        return Refused(refusal.value);
      }
      var existing := Replay(State(), c, key, r);
      if existing.Some? {
        return existing.value;
      }
      var draft := DraftFor(State(), c, r, now);
      if draft.Err? {
        return Refused(draft.error);
      }
      var id := |txs|;
      var clash := Persist(c, key, r, draft.value, now);
      if clash {
        answer := AfterConflict(State(), c, key, r);
      } else {
        answer := Posted(id);
      }
    }

    method Admin(c: Caller, a: AdminCommand)
      modifies this
      ensures State() == old(Administer(State(), c, a))
    {
      var next := Administer(State(), c, a);
      wallets, categories, goals := next.wallets, next.categories, next.goals;
    }
  }
}
