/** Monthly cash flow, planned payments and the balance forecast. */
module Analytics {
  import opened Basics
  import opened Sums
  import opened Ledger
  import opened LedgerRuns
  import opened LedgerTheorems
  import opened Reports
  import opened CivilCalendar
  import opened Recurrence

  datatype Flow = Flow(income: int, expense: int)
  type Flows = map<string, Flow>
  type Months = map<int, Flows>

  const NO_FLOW: Flow := Flow(0, 0)

  /** One amount under its month: a visible transaction, or a planned occurrence of a payment. */
  datatype Row = Row(month: int, currency: string, amount: int)

  function MonthKey(t: int): int {
    MonthOf(DayOf(t))
  }

  function AddMonths(t: int, n: int): int {
    SetUtcMonth(t, UtcMonth(t) + n)
  }

  function PlusFlow(f: Flow, amount: int): Flow {
    if amount >= 0 then f.(income := f.income + amount) else f.(expense := f.expense - amount)
  }

  function FlowIn(flows: Flows, currency: string): Flow {
    if currency in flows then flows[currency] else NO_FLOW
  }

  function FlowAt(months: Months, month: int, currency: string): Flow {
    if month in months then FlowIn(months[month], currency) else NO_FLOW
  }

  function AddAmount(flows: Flows, currency: string, amount: int): Flows {
    flows[currency := PlusFlow(FlowIn(flows, currency), amount)]
  }

  function AddRow(months: Months, r: Row): Months {
    months[r.month := AddAmount(if r.month in months then months[r.month] else map[], r.currency, r.amount)]
  }

  /** The amounts above zero of one month and currency. */
  function Incoming(rows: seq<Row>, month: int, currency: string): nat {
    if rows == [] then 0
    else
      var r := rows[|rows| - 1];
      Incoming(rows[..|rows| - 1], month, currency) +
      (if r.month == month && r.currency == currency && r.amount > 0 then r.amount else 0)
  }

  /** The amounts below zero, negated. */
  function Outgoing(rows: seq<Row>, month: int, currency: string): nat {
    if rows == [] then 0
    else
      var r := rows[|rows| - 1];
      Outgoing(rows[..|rows| - 1], month, currency) +
      (if r.month == month && r.currency == currency && r.amount < 0 then -r.amount else 0)
  }

  /** What the rows of one month and currency add up to. */
  function RowFlow(rows: seq<Row>, month: int, currency: string): Flow {
    Flow(Incoming(rows, month, currency), Outgoing(rows, month, currency))
  }

  lemma SidesSnoc(rows: seq<Row>, r: Row, month: int, currency: string)
    ensures Incoming(rows + [r], month, currency) == Incoming(rows, month, currency) +
            (if r.month == month && r.currency == currency && r.amount > 0 then r.amount else 0)
    ensures Outgoing(rows + [r], month, currency) == Outgoing(rows, month, currency) +
            (if r.month == month && r.currency == currency && r.amount < 0 then -r.amount else 0)
  {
    assert (rows + [r])[..|rows|] == rows;
  }

  ghost predicate Holds(months: Months, rows: seq<Row>) {
    forall month, currency :: FlowAt(months, month, currency) == RowFlow(rows, month, currency)
  }

  lemma AddRowHolds(months: Months, rows: seq<Row>, r: Row)
    requires Holds(months, rows)
    ensures Holds(AddRow(months, r), rows + [r])
  {
    forall month, currency
      ensures FlowAt(AddRow(months, r), month, currency) == RowFlow(rows + [r], month, currency)
    {
      SidesSnoc(rows, r, month, currency);
      assert FlowAt(months, month, currency) == RowFlow(rows, month, currency);
    }
  }

  // ----- the rows behind the report -----

  predicate InCashFlow(s: Store, c: Caller, t: Tx, start: int, end: int) {
    VisibleTx(s, c, t, None) && !t.ttype.Transfer? && start <= t.occurredAt < end
  }

  function ActualRows(s: Store, c: Caller, start: int, end: int, n: nat): seq<Row>
    requires n <= |s.txs|
  {
    if n == 0 then []
    else
      var before, t := ActualRows(s, c, start, end, n - 1), s.txs[n - 1];
      if InCashFlow(s, c, t, start, end)
      then before + [Row(MonthKey(t.occurredAt), t.currency, WalletSide(t.entries))]
      else before
  }

  datatype Planned = Planned(income: bool, amountMinor: nat, schedule: Schedule, nextDueAt: int, currency: string) {
    function Amount(): int {
      var amount: int := amountMinor;
      if income then amount else -amount
    }
  }

  function RowsOn(dates: seq<int>, p: Planned): seq<Row> {
    if dates == [] then []
    else RowsOn(dates[..|dates| - 1], p) + [Row(MonthKey(dates[|dates| - 1]), p.currency, p.Amount())]
  }

  function PlannedRows(ps: seq<Planned>, start: int, end: int): seq<Row>
    requires forall i :: 0 <= i < |ps| ==> ps[i].schedule.Valid()
  {
    if ps == [] then []
    else
      var p := ps[|ps| - 1];
      PlannedRows(ps[..|ps| - 1], start, end) + RowsOn(OccurrencesOf(p.nextDueAt, p.schedule, start, end), p)
  }

  // ----- the report -----

  method CashFlow(s: Store, c: Caller, start: int, end: int) returns (months: Months)
    ensures Holds(months, ActualRows(s, c, start, end, |s.txs|))
  {
    months := map[];
    var i := 0;
    while i < |s.txs|
      invariant 0 <= i <= |s.txs|
      invariant Holds(months, ActualRows(s, c, start, end, i))
    {
      var t := s.txs[i];
      if InCashFlow(s, c, t, start, end) {
        var r := Row(MonthKey(t.occurredAt), t.currency, WalletSide(t.entries));
        AddRowHolds(months, ActualRows(s, c, start, end, i), r);
        months := AddRow(months, r);
      }
      i := i + 1;
    }
  }

  lemma RowsOnSnoc(dates: seq<int>, p: Planned, d: int)
    ensures RowsOn(dates + [d], p) == RowsOn(dates, p) + [Row(MonthKey(d), p.currency, p.Amount())]
  {
    assert (dates + [d])[..|dates|] == dates;
  }

  method AddDates(start: Months, dates: seq<int>, p: Planned, ghost before: seq<Row>) returns (months: Months)
    requires Holds(start, before)
    ensures Holds(months, before + RowsOn(dates, p))
  {
    months := start;
    var k := 0;
    assert before + [] == before;
    while k < |dates|
      invariant 0 <= k <= |dates|
      invariant Holds(months, before + RowsOn(dates[..k], p))
    {
      var r := Row(MonthKey(dates[k]), p.currency, p.Amount());
      AddRowHolds(months, before + RowsOn(dates[..k], p), r);
      RowsOnSnoc(dates[..k], p, dates[k]);
      assert dates[..k] + [dates[k]] == dates[..k + 1];
      assert before + RowsOn(dates[..k], p) + [r] == before + RowsOn(dates[..k + 1], p);
      months := AddRow(months, r);
      k := k + 1;
    }
    assert dates[..|dates|] == dates;
  }

  method Mandatory(ps: seq<Planned>, start: int, end: int) returns (months: Months)
    requires forall i :: 0 <= i < |ps| ==> ps[i].schedule.Valid()
    ensures Holds(months, PlannedRows(ps, start, end))
  {
    months := map[];
    var i := 0;
    while i < |ps|
      invariant 0 <= i <= |ps|
      invariant Holds(months, PlannedRows(ps[..i], start, end))
    {
      var p := ps[i];
      var dates := Occurrences(p.nextDueAt, p.schedule, start, end);
      months := AddDates(months, dates, p, PlannedRows(ps[..i], start, end));
      assert ps[..i + 1][..i] == ps[..i];
      i := i + 1;
    }
    assert ps[..|ps|] == ps;
  }

  /** Current balances per currency: every wallet entry of every visible transaction. */
  function EntrySide(s: Store, entries: seq<Entry>, currency: string): int {
    if entries == [] then 0
    else
      EntrySide(s, entries[..|entries| - 1], currency) +
      (var w := entries[|entries| - 1].walletId;
       if w.Some? && w.value in s.wallets && s.wallets[w.value].currency == currency
       then entries[|entries| - 1].amountMinor else 0)
  }

  ghost function VisibleSide(s: Store, c: Caller, currency: string): Tx -> int {
    (t: Tx) => if VisibleTx(s, c, t, None) then EntrySide(s, t.entries, currency) else 0
  }

  lemma ColumnGrows(txs: seq<Tx>, f: Tx -> int, n: nat)
    requires n < |txs|
    ensures Total(Column(txs[..n + 1], f)) == Total(Column(txs[..n], f)) + f(txs[n])
  {
    assert Column(txs[..n + 1], f)[..n] == Column(txs[..n], f);
  }

  method Balances(s: Store, c: Caller) returns (balances: Amounts)
    ensures forall currency :: Get(balances, currency) == Total(Column(s.txs, VisibleSide(s, c, currency)))
  {
    balances := map[];
    var i := 0;
    while i < |s.txs|
      invariant 0 <= i <= |s.txs|
      invariant forall currency :: Get(balances, currency) == Total(Column(s.txs[..i], VisibleSide(s, c, currency)))
    {
      var t := s.txs[i];
      ghost var before := balances;
      if VisibleTx(s, c, t, None) {
        balances := AddEntries(s, balances, t.entries);
      }
      forall currency
        ensures Get(balances, currency) == Total(Column(s.txs[..i + 1], VisibleSide(s, c, currency)))
      {
        ColumnGrows(s.txs, VisibleSide(s, c, currency), i);
      }
      i := i + 1;
    }
    assert s.txs[..|s.txs|] == s.txs;
  }

  method AddEntries(s: Store, start: Amounts, entries: seq<Entry>) returns (balances: Amounts)
    ensures forall currency :: Get(balances, currency) == Get(start, currency) + EntrySide(s, entries, currency)
  {
    balances := start;
    var k := 0;
    while k < |entries|
      invariant 0 <= k <= |entries|
      invariant forall currency ::
                  Get(balances, currency) == Get(start, currency) + EntrySide(s, entries[..k], currency)
    {
      assert entries[..k + 1][..k] == entries[..k];
      var w := entries[k].walletId;
      if w.Some? && w.value in s.wallets {
        balances := Add(balances, s.wallets[w.value].currency, entries[k].amountMinor);
      }
      k := k + 1;
    }
    assert entries[..|entries|] == entries;
  }

  // ----- buckets are calendar months -----

  /** The months the report lists tile the period: month `i` of a period that starts on the first
      of a month is exactly the interval between consecutive month starts. */
  lemma BucketIsAMonth(k: int, i: int, t: int)
    ensures AddMonths(MonthStart(k) * DAY, i) == MonthStart(k + i) * DAY
    ensures MonthKey(t) == k + i <==>
              AddMonths(MonthStart(k) * DAY, i) <= t < AddMonths(MonthStart(k) * DAY, i + 1)
  {
    FirstOfMonth(k, i);
    FirstOfMonth(k, i + 1);
    KeyIsInterval(t, k + i);
  }

  lemma FirstOfMonth(k: int, n: int)
    ensures AddMonths(MonthStart(k) * DAY, n) == MonthStart(k + n) * DAY
  {
    var t := MonthStart(k) * DAY;
    SplitInstant(MonthStart(k), 0);
    NextMonth(k);
    MonthIsUnique(MonthStart(k), k);
    assert DayOf(t) == MonthStart(k) && TimeOf(t) == 0 && MonthOf(DayOf(t)) == k;
    AddMonthsIsMonthArithmetic(t, n);
    assert MonthStart(k + n) + DayOf(t) - MonthStart(k) == MonthStart(k + n);
  }

  lemma KeyIsInterval(t: int, k: int)
    ensures MonthKey(t) == k <==> MonthStart(k) * DAY <= t < MonthStart(k + 1) * DAY
  {
    var d := DayOf(t);
    assert MonthStart(k) * DAY <= t < MonthStart(k + 1) * DAY <==> MonthStart(k) <= d < MonthStart(k + 1);
    if MonthStart(k) <= d < MonthStart(k + 1) {
      MonthIsUnique(d, k);
    }
  }

  // ----- the two sides of a bucket -----

  /** A visible row of the month, period and currency. */
  predicate InBucket(s: Store, c: Caller, start: int, end: int, month: int, currency: string, t: Tx) {
    VisibleTx(s, c, t, None) && start <= t.occurredAt < end && t.currency == currency &&
    MonthStart(month) * 86_400_000 <= t.occurredAt < MonthStart(month + 1) * 86_400_000
  }

  /** The row this one reverses, or itself. */
  function Origin(s: Store, t: Tx): Tx {
    if t.ttype == Reversal && t.reversesId.Some? && t.reversesId.value < |s.txs| then s.txs[t.reversesId.value] else t
  }

  /** Money came in by an income, or by the reversal of an expense. */
  function AmountIn(s: Store, t: Tx): int {
    if t.ttype == Income || (t.ttype == Reversal && Origin(s, t).ttype == Expense) then Size(Origin(s, t)) else 0
  }

  /** It went out by an expense, or by the reversal of an income. */
  function AmountOut(s: Store, t: Tx): int {
    if t.ttype == Expense || (t.ttype == Reversal && Origin(s, t).ttype == Income) then Size(Origin(s, t)) else 0
  }

  ghost function CameIn(s: Store, c: Caller, start: int, end: int, month: int, currency: string): Tx -> int {
    (t: Tx) => if InBucket(s, c, start, end, month, currency, t) then AmountIn(s, t) else 0
  }

  ghost function WentOut(s: Store, c: Caller, start: int, end: int, month: int, currency: string): Tx -> int {
    (t: Tx) => if InBucket(s, c, start, end, month, currency, t) then AmountOut(s, t) else 0
  }

  /** A row's wallet side is what came in, or what went out, negated. */
  lemma SideOfRow(s: Store, n: nat)
    requires StoreOk(s) && n < |s.txs|
    ensures
      var t := s.txs[n];
      var side := WalletSide(t.entries);
      && AmountIn(s, t) == (if side > 0 then side else 0)
      && AmountOut(s, t) == (if side < 0 then -side else 0)
  {
    assert RowOk(s, s.txs[n], n);
    RowSide(s, n);
    assert Size(Origin(s, s.txs[n])) >= 0;
  }

  lemma RowSides(s: Store, c: Caller, start: int, end: int, month: int, currency: string, n: nat)
    requires StoreOk(s) && n < |s.txs|
    ensures
      var before, after := ActualRows(s, c, start, end, n), ActualRows(s, c, start, end, n + 1);
      var bucket := InBucket(s, c, start, end, month, currency, s.txs[n]);
      && Incoming(after, month, currency) ==
           Incoming(before, month, currency) + (if bucket then AmountIn(s, s.txs[n]) else 0)
      && Outgoing(after, month, currency) ==
           Outgoing(before, month, currency) + (if bucket then AmountOut(s, s.txs[n]) else 0)
  {
    var before, t := ActualRows(s, c, start, end, n), s.txs[n];
    SidesSnoc(before, Row(MonthKey(t.occurredAt), t.currency, WalletSide(t.entries)), month, currency);
    SideOfRow(s, n);
    KeyIsInterval(t.occurredAt, month);
  }

  lemma {:induction false} IncomingIsAColumn(s: Store, c: Caller, start: int, end: int, month: int, currency: string,
      f: Tx -> int, n: nat)
    requires StoreOk(s) && n <= |s.txs| && f == CameIn(s, c, start, end, month, currency)
    ensures Incoming(ActualRows(s, c, start, end, n), month, currency) == Total(Column(s.txs[..n], f))
    decreases n
  {
    if n != 0 {
      IncomingIsAColumn(s, c, start, end, month, currency, f, n - 1);
      RowSides(s, c, start, end, month, currency, n - 1);
      ColumnGrows(s.txs, f, n - 1);
    }
  }

  lemma {:induction false} OutgoingIsAColumn(s: Store, c: Caller, start: int, end: int, month: int, currency: string,
      f: Tx -> int, n: nat)
    requires StoreOk(s) && n <= |s.txs| && f == WentOut(s, c, start, end, month, currency)
    ensures Outgoing(ActualRows(s, c, start, end, n), month, currency) == Total(Column(s.txs[..n], f))
    decreases n
  {
    if n != 0 {
      OutgoingIsAColumn(s, c, start, end, month, currency, f, n - 1);
      RowSides(s, c, start, end, month, currency, n - 1);
      ColumnGrows(s.txs, f, n - 1);
    }
  }

  /** In every run a bucket's income is the amounts of the month's visible incomes and reversed expenses, and
      its expense those of the visible expenses and reversed incomes. */
  lemma BucketSides(events: seq<Event>, c: Caller, start: int, end: int, month: int, currency: string)
    ensures
      var s := Run(events).store;
      RowFlow(ActualRows(s, c, start, end, |s.txs|), month, currency) ==
        Flow(Total(Column(s.txs, CameIn(s, c, start, end, month, currency))),
             Total(Column(s.txs, WentOut(s, c, start, end, month, currency))))
  {
    RunIsOk(events);
    var s := Run(events).store;
    IncomingIsAColumn(s, c, start, end, month, currency, CameIn(s, c, start, end, month, currency), |s.txs|);
    OutgoingIsAColumn(s, c, start, end, month, currency, WentOut(s, c, start, end, month, currency), |s.txs|);
    assert s.txs[..|s.txs|] == s.txs;
  }

  // ----- the report adds up -----

  function RowsIn(rows: seq<Row>, currency: string): int {
    if rows == [] then 0
    else
      RowsIn(rows[..|rows| - 1], currency) +
      (if rows[|rows| - 1].currency == currency then rows[|rows| - 1].amount else 0)
  }

  /** Net flow over `n` listed months. */
  function NetOver(rows: seq<Row>, k: int, n: nat, currency: string): int {
    if n == 0 then 0
    else
      var flow := RowFlow(rows, k + n - 1, currency);
      NetOver(rows, k, n - 1, currency) + flow.income - flow.expense
  }

  lemma {:induction false} NetOverSnoc(rows: seq<Row>, r: Row, k: int, n: nat, currency: string)
    ensures NetOver(rows + [r], k, n, currency) ==
            NetOver(rows, k, n, currency) + (if k <= r.month < k + n && r.currency == currency then r.amount else 0)
  {
    if n != 0 {
      NetOverSnoc(rows, r, k, n - 1, currency);
      assert (rows + [r])[..|rows|] == rows;
    }
  }

  lemma {:induction false} NoRowsNoNet(rows: seq<Row>, k: int, n: nat, currency: string)
    requires rows == []
    ensures NetOver(rows, k, n, currency) == 0
    decreases n
  {
    if n != 0 {
      NoRowsNoNet(rows, k, n - 1, currency);
    }
  }

  /** Rows of the period land in exactly one listed month, so the listed months' nets add up to the
      period's rows. */
  lemma {:induction false} MonthsAddUp(rows: seq<Row>, k: int, n: nat, currency: string)
    requires forall i :: 0 <= i < |rows| ==> k <= rows[i].month < k + n
    ensures NetOver(rows, k, n, currency) == RowsIn(rows, currency)
  {
    if rows == [] {
      NoRowsNoNet(rows, k, n, currency);
    } else {
      var before, r := rows[..|rows| - 1], rows[|rows| - 1];
      MonthsAddUp(before, k, n, currency);
      NetOverSnoc(before, r, k, n, currency);
      assert rows == before + [r];
    }
  }

  lemma PeriodKeys(t: int, k: int, n: nat)
    requires MonthStart(k) * DAY <= t < MonthStart(k + n) * DAY
    ensures k <= MonthKey(t) < k + n
  {
    var d := DayOf(t);
    assert MonthStart(k) <= d < MonthStart(k + n);
    var m := MonthOf(d);
    if m < k {
      MonthsAdvance(m + 1, k - m - 1);
    } else {
      if k + n <= m {
        MonthsAdvance(k + n, m - k - n);
      }
    }
  }

  ghost function SeenIn(s: Store, c: Caller, currency: string, start: int, end: int): Tx -> int {
    (t: Tx) => if start <= t.occurredAt < end then SeenSide(s, c, currency)(t) else 0
  }

  lemma TransfersAddNothing(s: Store, t: Tx, n: nat)
    requires n <= |s.txs| && RowOk(s, t, n) && t.ttype.Transfer?
    ensures WalletSide(t.entries) == 0
  {
    var e := t.entries;
    assert e[1..][1..] == [] && e[1..][0] == e[1];
    assert WalletSide(e[1..][1..]) == 0;
    assert WalletSide(e[1..]) == e[1].amountMinor;
  }

  /** What a transaction adds to the rows of a currency. */
  function RowAdds(s: Store, c: Caller, start: int, end: int, currency: string, t: Tx): int {
    if InCashFlow(s, c, t, start, end) && t.currency == currency then WalletSide(t.entries) else 0
  }

  lemma ActualRowsGrow(s: Store, c: Caller, start: int, end: int, currency: string, n: nat)
    requires n < |s.txs|
    ensures RowsIn(ActualRows(s, c, start, end, n + 1), currency) ==
            RowsIn(ActualRows(s, c, start, end, n), currency) + RowAdds(s, c, start, end, currency, s.txs[n])
  {
    var before, t := ActualRows(s, c, start, end, n), s.txs[n];
    var r := Row(MonthKey(t.occurredAt), t.currency, WalletSide(t.entries));
    assert (before + [r])[..|before|] == before;
  }

  lemma RowAddsWhatIsSeen(s: Store, c: Caller, start: int, end: int, currency: string, n: nat)
    requires StoreOk(s) && n < |s.txs|
    ensures RowAdds(s, c, start, end, currency, s.txs[n]) == SeenIn(s, c, currency, start, end)(s.txs[n])
  {
    var t := s.txs[n];
    assert RowOk(s, t, n);
    if t.ttype.Transfer? {
      TransfersAddNothing(s, t, n);
    }
    assert SeenSide(s, c, currency)(t) ==
           if VisibleTx(s, c, t, None) && t.currency == currency then WalletSide(t.entries) else 0;
  }

  lemma {:induction false} ActualRowsTotal(s: Store, c: Caller, start: int, end: int, currency: string, f: Tx -> int,
      n: nat)
    requires n <= |s.txs| && forall i :: 0 <= i < |s.txs| ==>
             RowAdds(s, c, start, end, currency, s.txs[i]) == f(s.txs[i])
    ensures RowsIn(ActualRows(s, c, start, end, n), currency) == Total(Column(s.txs[..n], f))
    decreases n
  {
    if n != 0 {
      ActualRowsTotal(s, c, start, end, currency, f, n - 1);
      ActualRowsGrow(s, c, start, end, currency, n - 1);
      ColumnGrows(s.txs, f, n - 1);
    }
  }

  lemma {:induction false} ActualRowsInPeriod(s: Store, c: Caller, start: int, end: int, k: int, months: nat, n: nat)
    requires n <= |s.txs| && start == MonthStart(k) * DAY && end == MonthStart(k + months) * DAY
    ensures forall i :: 0 <= i < |ActualRows(s, c, start, end, n)| ==>
              k <= ActualRows(s, c, start, end, n)[i].month < k + months
    decreases n
  {
    if n != 0 {
      ActualRowsInPeriod(s, c, start, end, k, months, n - 1);
      var t := s.txs[n - 1];
      if InCashFlow(s, c, t, start, end) {
        PeriodKeys(t.occurredAt, k, months);
      }
    }
  }

  /** In every run: over a period of whole months the listed months' net flows add up to what the
      caller's visible transactions of the period put into wallets. */
  lemma CashFlowAddsUp(events: seq<Event>, c: Caller, currency: string, k: int, n: nat)
    ensures
      var s := Run(events).store;
      var start, end := MonthStart(k) * DAY, AddMonths(MonthStart(k) * DAY, n);
      NetOver(ActualRows(s, c, start, end, |s.txs|), k, n, currency) ==
        Total(Column(s.txs, SeenIn(s, c, currency, start, end)))
  {
    RunIsOk(events);
    var s := Run(events).store;
    FirstOfMonth(k, n);
    var start, end := MonthStart(k) * DAY, MonthStart(k + n) * DAY;
    var rows := ActualRows(s, c, start, end, |s.txs|);
    forall i | 0 <= i < |s.txs|
      ensures RowAdds(s, c, start, end, currency, s.txs[i]) == SeenIn(s, c, currency, start, end)(s.txs[i])
    {
      RowAddsWhatIsSeen(s, c, start, end, currency, i);
    }
    ActualRowsTotal(s, c, start, end, currency, SeenIn(s, c, currency, start, end), |s.txs|);
    assert s.txs[..|s.txs|] == s.txs;
    ActualRowsInPeriod(s, c, start, end, k, n, |s.txs|);
    MonthsAddUp(rows, k, n, currency);
  }

  lemma SidesAgree(s: Store, t: Tx, n: nat, currency: string)
    requires n <= |s.txs| && RowOk(s, t, n)
    ensures EntrySide(s, t.entries, currency) == if t.currency == currency then WalletSide(t.entries) else 0
  {
    var e := t.entries;
    assert e[1..][1..] == [] && e[1..][0] == e[1];
    assert WalletSide(e[1..][1..]) == 0;
    assert WalletSide(e[1..]) == if e[1].walletId.Some? then e[1].amountMinor else 0;
    assert e[..1][..0] == [] && e[..1][0] == e[0];
    assert EntrySide(s, e[..1][..0], currency) == 0;
    assert forall k :: 0 <= k < 2 && e[k].walletId.Some? ==>
           KnownWallet(s, e[k].walletId.value, t.familyId, t.currency);
  }

  lemma {:induction false} ColumnsAgree(txs: seq<Tx>, f: Tx -> int, g: Tx -> int)
    requires forall i :: 0 <= i < |txs| ==> f(txs[i]) == g(txs[i])
    ensures Column(txs, f) == Column(txs, g)
  {
  }

  /** In every run the current balance shown per currency is the sum of the unreversed transactions
      the caller can see. */
  lemma BalancesAreUnreversed(events: seq<Event>, c: Caller, currency: string)
    ensures
      var s := Run(events).store;
      Total(Column(s.txs, VisibleSide(s, c, currency))) == LiveColumn(s.txs, SeenSide(s, c, currency))
  {
    RunIsOk(events);
    var s := Run(events).store;
    ViewIsLive(events, c, currency);
    forall i | 0 <= i < |s.txs|
      ensures VisibleSide(s, c, currency)(s.txs[i]) == SeenSide(s, c, currency)(s.txs[i])
    {
      assert RowOk(s, s.txs[i], i);
      SidesAgree(s, s.txs[i], i, currency);
    }
    ColumnsAgree(s.txs, VisibleSide(s, c, currency), SeenSide(s, c, currency));
  }

  // ----- planned payments -----

  lemma MonthsInOrder(k: int, n: nat)
    ensures MonthStart(k) * DAY <= MonthStart(k + n) * DAY
  {
    MonthsAdvance(k, n);
  }

  /** The rows a payment contributes to one listed month are its occurrences in that month: nothing
      is counted twice or lost at a month boundary. */
  lemma PlannedMonth(due: int, p: Schedule, k: int, n: nat, i: nat, x: int)
    requires p.Valid() && i < n
    ensures
      x in OccurrencesOf(due, p, MonthStart(k) * DAY, MonthStart(k + n) * DAY) && MonthKey(x) == k + i <==>
      x in OccurrencesOf(due, p, MonthStart(k + i) * DAY, MonthStart(k + i + 1) * DAY)
  {
    var start, end := MonthStart(k) * DAY, MonthStart(k + n) * DAY;
    var first, last := MonthStart(k + i) * DAY, MonthStart(k + i + 1) * DAY;
    OccurrencesAreExact(due, p, start, end);
    OccurrencesAreExact(due, p, first, last);
    KeyIsInterval(x, k + i);
    MonthsInOrder(k, i);
    MonthsInOrder(k + i + 1, n - i - 1);
  }

  /** What the income payments, or the expense payments, of a currency plan in an interval: each its amount
      once per occurrence. */
  function PlannedSide(ps: seq<Planned>, income: bool, start: int, end: int, currency: string): int
    requires forall i :: 0 <= i < |ps| ==> ps[i].schedule.Valid()
  {
    if ps == [] then 0
    else
      var p := ps[|ps| - 1];
      PlannedSide(ps[..|ps| - 1], income, start, end, currency) +
      (if p.income == income && p.currency == currency
       then |OccurrencesOf(p.nextDueAt, p.schedule, start, end)| * p.amountMinor else 0)
  }

  lemma PlannedSideSnoc(ps: seq<Planned>, p: Planned, income: bool, start: int, end: int, currency: string)
    requires p.schedule.Valid() && forall i :: 0 <= i < |ps| ==> ps[i].schedule.Valid()
    ensures PlannedSide(ps + [p], income, start, end, currency) ==
            PlannedSide(ps, income, start, end, currency) +
              (if p.income == income && p.currency == currency
               then |OccurrencesOf(p.nextDueAt, p.schedule, start, end)| * p.amountMinor else 0)
  {
    assert (ps + [p])[..|ps|] == ps;
  }

  lemma {:induction false} RowsOnSides(dates: seq<int>, p: Planned, before: seq<Row>, month: int, currency: string)
    ensures
      var n := |Keyed(dates, month)| * (if p.currency == currency then p.amountMinor else 0);
      && Incoming(before + RowsOn(dates, p), month, currency) ==
           Incoming(before, month, currency) + (if p.income then n else 0)
      && Outgoing(before + RowsOn(dates, p), month, currency) ==
           Outgoing(before, month, currency) + (if p.income then 0 else n)
  {
    if dates == [] {
      assert before + RowsOn(dates, p) == before;
    } else {
      var m := |dates| - 1;
      var rows, r := before + RowsOn(dates[..m], p), Row(MonthKey(dates[m]), p.currency, p.Amount());
      RowsOnSides(dates[..m], p, before, month, currency);
      assert before + RowsOn(dates, p) == rows + [r];
      SidesSnoc(rows, r, month, currency);
      OneMoreTime(|Keyed(dates[..m], month)| + 1, if p.currency == currency then p.amountMinor else 0);
    }
  }

  /** The dates of one month. */
  function Keyed(dates: seq<int>, month: int): seq<int> {
    if dates == [] then []
    else
      var m := |dates| - 1;
      if MonthKey(dates[m]) == month then Keyed(dates[..m], month) + [dates[m]] else Keyed(dates[..m], month)
  }

  lemma {:induction false} KeyedSplits(a: seq<int>, b: seq<int>, month: int)
    ensures Keyed(a + b, month) == Keyed(a, month) + Keyed(b, month)
  {
    if b == [] {
      assert a + b == a;
    } else {
      KeyedSplits(a, b[..|b| - 1], month);
      assert (a + b)[..|a + b| - 1] == a + b[..|b| - 1];
    }
  }

  lemma {:induction false} KeyedAllOrNone(dates: seq<int>, month: int)
    ensures (forall i :: 0 <= i < |dates| ==> MonthKey(dates[i]) == month) ==> Keyed(dates, month) == dates
    ensures (forall i :: 0 <= i < |dates| ==> MonthKey(dates[i]) != month) ==> Keyed(dates, month) == []
  {
    if dates != [] {
      KeyedAllOrNone(dates[..|dates| - 1], month);
    }
  }

  ghost predicate AllKeyed(dates: seq<int>, month: int) {
    forall i :: 0 <= i < |dates| ==> MonthKey(dates[i]) == month
  }

  ghost predicate NoneKeyed(dates: seq<int>, month: int) {
    forall i :: 0 <= i < |dates| ==> MonthKey(dates[i]) != month
  }

  lemma KeyedMiddle(a: seq<int>, b: seq<int>, c: seq<int>, month: int)
    requires NoneKeyed(a, month) && AllKeyed(b, month) && NoneKeyed(c, month)
    ensures Keyed(a + (b + c), month) == b
  {
    KeyedSplits(a, b + c, month);
    KeyedSplits(b, c, month);
    KeyedAllOrNone(a, month);
    KeyedAllOrNone(b, month);
    KeyedAllOrNone(c, month);
  }

  lemma WindowInside(due: int, p: Schedule, start: int, end: int, month: int)
    requires p.Valid() && MonthStart(month) * DAY <= start && end <= MonthStart(month + 1) * DAY
    ensures AllKeyed(OccurrencesOf(due, p, start, end), month)
  {
    var dates := OccurrencesOf(due, p, start, end);
    OccurrencesAreExact(due, p, start, end);
    forall i | 0 <= i < |dates|
      ensures MonthKey(dates[i]) == month
    {
      assert dates[i] in dates;
      KeyIsInterval(dates[i], month);
    }
  }

  lemma WindowOutside(due: int, p: Schedule, start: int, end: int, month: int)
    requires p.Valid() && (end <= MonthStart(month) * DAY || MonthStart(month + 1) * DAY <= start)
    ensures NoneKeyed(OccurrencesOf(due, p, start, end), month)
  {
    var dates := OccurrencesOf(due, p, start, end);
    OccurrencesAreExact(due, p, start, end);
    forall i | 0 <= i < |dates|
      ensures MonthKey(dates[i]) != month
    {
      assert dates[i] in dates;
      KeyIsInterval(dates[i], month);
    }
  }

  /** A payment's occurrences that a listed month keys are those in the month. */
  lemma KeyedIsWindow(due: int, p: Schedule, start: int, end: int, month: int)
    requires p.Valid() && start <= MonthStart(month) * DAY && MonthStart(month + 1) * DAY <= end
    ensures Keyed(OccurrencesOf(due, p, start, end), month) ==
            OccurrencesOf(due, p, MonthStart(month) * DAY, MonthStart(month + 1) * DAY)
  {
    var first, last := MonthStart(month) * DAY, MonthStart(month + 1) * DAY;
    MonthsInOrder(month, 1);
    OccurrencesSplit(due, p, start, first, end);
    OccurrencesSplit(due, p, first, last, end);
    WindowOutside(due, p, start, first, month);
    WindowInside(due, p, first, last, month);
    WindowOutside(due, p, last, end, month);
    KeyedMiddle(OccurrencesOf(due, p, start, first), OccurrencesOf(due, p, first, last),
                OccurrencesOf(due, p, last, end), month);
  }

  lemma {:induction false} PlannedSidesIn(ps: seq<Planned>, start: int, end: int, month: int, currency: string)
    requires start <= MonthStart(month) * DAY && MonthStart(month + 1) * DAY <= end
    requires forall j :: 0 <= j < |ps| ==> ps[j].schedule.Valid()
    ensures
      var first, last := MonthStart(month) * DAY, MonthStart(month + 1) * DAY;
      && Incoming(PlannedRows(ps, start, end), month, currency) == PlannedSide(ps, true, first, last, currency)
      && Outgoing(PlannedRows(ps, start, end), month, currency) == PlannedSide(ps, false, first, last, currency)
  {
    if ps != [] {
      var p, before := ps[|ps| - 1], ps[..|ps| - 1];
      PlannedSidesIn(before, start, end, month, currency);
      KeyedIsWindow(p.nextDueAt, p.schedule, start, end, month);
      RowsOnSides(OccurrencesOf(p.nextDueAt, p.schedule, start, end), p, PlannedRows(before, start, end), month,
                  currency);
    }
  }

  /** In each listed month the planned income is the amounts of the income payments times their occurrences in
      that month, and the planned expense those of the expense payments. */
  lemma PlannedSides(ps: seq<Planned>, k: int, n: nat, i: nat, currency: string)
    requires i < n && forall j :: 0 <= j < |ps| ==> ps[j].schedule.Valid()
    ensures
      var first, last := MonthStart(k + i) * DAY, MonthStart(k + i + 1) * DAY;
      RowFlow(PlannedRows(ps, MonthStart(k) * DAY, MonthStart(k + n) * DAY), k + i, currency) ==
        Flow(PlannedSide(ps, true, first, last, currency), PlannedSide(ps, false, first, last, currency))
  {
    MonthsInOrder(k, i);
    MonthsInOrder(k + i + 1, n - i - 1);
    PlannedSidesIn(ps, MonthStart(k) * DAY, MonthStart(k + n) * DAY, k + i, currency);
  }

  method AddPlanned(start: Flows, p: Planned, n: nat, ghost currency: string) returns (flows: Flows)
    ensures
      var sum := if p.currency == currency then n * p.amountMinor else 0;
      && FlowIn(flows, currency).income == FlowIn(start, currency).income + (if p.income then sum else 0)
      && FlowIn(flows, currency).expense == FlowIn(start, currency).expense + (if p.income then 0 else sum)
  {
    flows := start;
    var k := 0;
    while k < n
      invariant 0 <= k <= n
      invariant
        var sum := if p.currency == currency then k * p.amountMinor else 0;
        && FlowIn(flows, currency).income == FlowIn(start, currency).income + (if p.income then sum else 0)
        && FlowIn(flows, currency).expense == FlowIn(start, currency).expense + (if p.income then 0 else sum)
    {
      flows := AddAmount(flows, p.currency, p.Amount());
      OneMoreTime(k + 1, p.amountMinor);
      k := k + 1;
    }
  }

  method BalanceForecast(balances: Amounts, ps: seq<Planned>, now: int, through: int, currency: string)
    returns (planned: Flow, projected: int)
    requires forall i :: 0 <= i < |ps| ==> ps[i].schedule.Valid()
    ensures planned.income == PlannedSide(ps, true, now, through, currency)
    ensures planned.expense == PlannedSide(ps, false, now, through, currency)
    ensures projected == Get(balances, currency) + PlannedSide(ps, true, now, through, currency) -
                         PlannedSide(ps, false, now, through, currency)
  {
    var flows: Flows := map[];
    var i := 0;
    while i < |ps|
      invariant 0 <= i <= |ps|
      invariant FlowIn(flows, currency).income == PlannedSide(ps[..i], true, now, through, currency)
      invariant FlowIn(flows, currency).expense == PlannedSide(ps[..i], false, now, through, currency)
    {
      var p := ps[i];
      var dates := Occurrences(p.nextDueAt, p.schedule, now, through);
      flows := AddPlanned(flows, p, |dates|, currency);
      PlannedSideSnoc(ps[..i], p, true, now, through, currency);
      PlannedSideSnoc(ps[..i], p, false, now, through, currency);
      assert ps[..i + 1] == ps[..i] + [p];
      i := i + 1;
    }
    assert ps[..|ps|] == ps;
    planned := FlowIn(flows, currency);
    projected := Get(balances, currency) + planned.income - planned.expense;
  }

  /** The planned payment after the scheduler advanced it at `ran`, when it was due. */
  function Advanced(p: Planned, ran: int): Planned
    requires p.schedule.Valid()
  {
    if p.nextDueAt <= ran then p.(nextDueAt := FirstFrom(Next(p.nextDueAt, p.schedule), p.schedule, ran + 1)) else p
  }

  ghost predicate MayHaveAdvanced(ps: seq<Planned>, qs: seq<Planned>, ran: int) {
    |ps| == |qs| && forall i :: 0 <= i < |ps| ==>
      ps[i].schedule.Valid() && (qs[i] == ps[i] || qs[i] == Advanced(ps[i], ran))
  }

  /** Whether or not the scheduler has already run, in full or in part, at or before some earlier
      instant, either side of the forecast of any later window is the same. */
  lemma {:induction false} SchedulerDoesNotMoveTheForecast(ps: seq<Planned>, qs: seq<Planned>, ran: int, income: bool,
      start: int, end: int, currency: string)
    requires MayHaveAdvanced(ps, qs, ran) && ran < start
    ensures PlannedSide(ps, income, start, end, currency) == PlannedSide(qs, income, start, end, currency)
  {
    if ps != [] {
      var m := |ps| - 1;
      SchedulerDoesNotMoveTheForecast(ps[..m], qs[..m], ran, income, start, end, currency);
      assert ps[m].schedule.Valid();
      AdvancingKeepsForecasts(ps[m].nextDueAt, ps[m].schedule, ran);
      assert OccurrencesOf(ps[m].nextDueAt, ps[m].schedule, start, end) ==
             OccurrencesOf(qs[m].nextDueAt, qs[m].schedule, start, end);
    }
  }
}
