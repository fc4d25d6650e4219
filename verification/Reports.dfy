/** The expense statistics and the monthly summary: two independent folds over the same ledger rows. */
module Reports {
  import opened Basics
  import opened Sums
  import opened Ledger
  import opened LedgerRuns
  import opened LedgerTheorems

  const DAY_MS: int := 86_400_000

  type Amounts = map<string, int>

  function Get(a: Amounts, currency: string): int {
    if currency in a then a[currency] else 0
  }

  function Add(a: Amounts, currency: string, x: int): Amounts {
    a[currency := Get(a, currency) + x]
  }

  /** Half-open interval of instants, either end possibly open. */
  datatype Range = Range(from: Option<int>, before: Option<int>) {
    predicate Has(t: int) {
      (from.Some? ==> from.value <= t) && (before.Some? ==> t < before.value)
    }
  }

  const EVER: Range := Range(None, None)

  /** Inclusive UTC calendar days, given as the instants at which they start. */
  function QueryRange(dateFrom: Option<int>, dateTo: Option<int>): Result<Range, Error> {
    if dateFrom.Some? && dateTo.Some? && dateFrom.value > dateTo.value then Err(BadRequest)
    else Ok(Range(dateFrom, if dateTo.Some? then Some(dateTo.value + DAY_MS) else None))
  }

  /** The range holds exactly the instants of the days asked for, first and last included; it is refused
      exactly when the last comes before the first. */
  lemma QueryRangeIsDays(dateFrom: Option<int>, dateTo: Option<int>, t: int)
    ensures
      var r := QueryRange(AtDay(dateFrom), AtDay(dateTo));
      && (r == Err(BadRequest) <==> dateFrom.Some? && dateTo.Some? && dateTo.value < dateFrom.value)
      && (r.Err? ==> r == Err(BadRequest))
      && (r.Ok? ==>
            (r.value.Has(t) <==>
             (dateFrom.Some? ==> dateFrom.value <= t / 86_400_000) &&
             (dateTo.Some? ==> t / 86_400_000 <= dateTo.value)))
  {
  }

  function AtDay(day: Option<int>): Option<int> {
    if day.Some? then Some(day.value * 86_400_000) else None
  }

  // ----- what one ledger row contributes to the statistics -----

  datatype Posting = Posting(ownerId: Id, categoryId: Option<Id>, currency: string, amount: int, postedBy: Id)

  function KeyOf(categoryId: Option<Id>): string {
    if categoryId.Some? then categoryId.value else UNCATEGORIZED
  }

  /** The row a transaction reverses, when the relation resolves. */
  function Original(s: Store, t: Tx): Option<Tx> {
    if t.reversesId.Some? && t.reversesId.value < |s.txs| then Some(s.txs[t.reversesId.value]) else None
  }

  predicate Selected(t: Tx, familyId: Id, range: Range) {
    t.familyId == familyId && (t.ttype.Expense? || t.ttype.Reversal?) && range.Has(t.occurredAt)
  }

  function PostingOf(s: Store, familyId: Id, range: Range, t: Tx): Option<Posting> {
    var original := Original(s, t);
    if !Selected(t, familyId, range) then None
    else if t.ttype.Reversal? && (original.None? || !original.value.ttype.Expense?) then None
    else
      var amount := -WalletSide(t.entries);
      if amount == 0 then None
      else Some(Posting(
        if original.Some? then original.value.createdById else t.createdById,
        if original.Some? && original.value.categoryId.Some? then original.value.categoryId else t.categoryId,
        t.currency, amount, t.createdById))
  }

  function Postings(s: Store, familyId: Id, range: Range, n: nat): seq<Posting>
    requires n <= |s.txs|
  {
    if n == 0 then []
    else
      var p := PostingOf(s, familyId, range, s.txs[n - 1]);
      var before := Postings(s, familyId, range, n - 1);
      if p.Some? then before + [p.value] else before
  }

  /** Which postings a total counts: any field left open counts every posting. */
  datatype Cell = Cell(ownerId: Option<Id>, key: Option<string>, currency: string) {
    predicate Counts(p: Posting) {
      (ownerId.Some? ==> p.ownerId == ownerId.value) && (key.Some? ==> KeyOf(p.categoryId) == key.value) &&
      p.currency == currency
    }
  }

  function CellTotal(ps: seq<Posting>, cell: Cell): int {
    if ps == [] then 0
    else CellTotal(ps[..|ps| - 1], cell) + (if cell.Counts(ps[|ps| - 1]) then ps[|ps| - 1].amount else 0)
  }

  lemma CellTotalSnoc(ps: seq<Posting>, p: Posting, cell: Cell)
    ensures CellTotal(ps + [p], cell) == CellTotal(ps, cell) + (if cell.Counts(p) then p.amount else 0)
  {
    assert (ps + [p])[..|ps|] == ps;
  }

  // ----- the statistics as the service accumulates them -----

  datatype CategoryTotals = CategoryTotals(id: Option<Id>, totals: Amounts)
  /** `shown` is the user whose name the line carries. */
  datatype MemberTotals = MemberTotals(shown: Id, totals: Amounts, categories: map<string, CategoryTotals>)
  datatype Statistics = Statistics(totals: Amounts, members: map<Id, MemberTotals>) {
    function Of(cell: Cell): int {
      if cell.ownerId.None? then Get(totals, cell.currency)
      else if cell.ownerId.value !in members then 0
      else
        var member := members[cell.ownerId.value];
        if cell.key.None? then Get(member.totals, cell.currency)
        else if cell.key.value !in member.categories then 0
        else Get(member.categories[cell.key.value].totals, cell.currency)
    }

    /** The totals the report has: grand, per member, and per member and category. */
    static predicate Reported(cell: Cell) {
      cell.key.Some? ==> cell.ownerId.Some?
    }
  }

  ghost predicate Owns(ps: seq<Posting>, m: Id, k: string) {
    exists i :: 0 <= i < |ps| && ps[i].ownerId == m && KeyOf(ps[i].categoryId) == k
  }

  ghost predicate Mentions(ps: seq<Posting>, m: Id) {
    exists i :: 0 <= i < |ps| && ps[i].ownerId == m
  }

  ghost predicate ReflectsTotals(r: Statistics, ps: seq<Posting>) {
    forall cell :: Statistics.Reported(cell) ==> r.Of(cell) == CellTotal(ps, cell)
  }

  ghost predicate ReflectsMembers(r: Statistics, ps: seq<Posting>) {
    forall m :: m in r.members <==> Mentions(ps, m)
  }

  ghost predicate ReflectsCategories(r: Statistics, ps: seq<Posting>) {
    forall m, k :: m in r.members ==>
      (k in r.members[m].categories <==> Owns(ps, m, k)) &&
      (k in r.members[m].categories ==> KeyOf(r.members[m].categories[k].id) == k)
  }

  /** Posting `i` is the first of its owner and opens the owner's line. */
  ghost predicate Opens(ps: seq<Posting>, i: int, m: Id) {
    0 <= i < |ps| && ps[i].ownerId == m && forall j :: 0 <= j < i ==> ps[j].ownerId != m
  }

  ghost predicate ReflectsNames(r: Statistics, ps: seq<Posting>) {
    forall i, m :: Opens(ps, i, m) && m in r.members ==> r.members[m].shown == ps[i].postedBy
  }

  /** The report says exactly what the postings add up to, lists exactly their members and categories, and
      a member's line carries the name of whoever posted the row that opens it. */
  ghost predicate Reflects(r: Statistics, ps: seq<Posting>) {
    ReflectsTotals(r, ps) && ReflectsMembers(r, ps) && ReflectsCategories(r, ps) && ReflectsNames(r, ps)
  }

  /** One turn of the service's loop. */
  function Accumulate(r: Statistics, p: Posting): Statistics {
    var member := if p.ownerId in r.members then r.members[p.ownerId] else MemberTotals(p.postedBy, map[], map[]);
    var key := KeyOf(p.categoryId);
    var category := if key in member.categories then member.categories[key] else CategoryTotals(p.categoryId, map[]);
    var member' := MemberTotals(
      member.shown,
      Add(member.totals, p.currency, p.amount),
      member.categories[key := category.(totals := Add(category.totals, p.currency, p.amount))]);
    Statistics(Add(r.totals, p.currency, p.amount), r.members[p.ownerId := member'])
  }

  lemma AccumulateOf(r: Statistics, p: Posting, cell: Cell)
    requires Statistics.Reported(cell)
    ensures Accumulate(r, p).Of(cell) == r.Of(cell) + (if cell.Counts(p) then p.amount else 0)
  {
  }

  lemma MentionsSnoc(ps: seq<Posting>, p: Posting, m: Id, k: string)
    ensures Mentions(ps + [p], m) <==> Mentions(ps, m) || m == p.ownerId
    ensures Owns(ps + [p], m, k) <==> Owns(ps, m, k) || (m == p.ownerId && k == KeyOf(p.categoryId))
    ensures Owns(ps, m, k) ==> Mentions(ps, m)
  {
    var all := ps + [p];
    assert all[|ps|] == p;
    assert forall i :: 0 <= i < |ps| ==> all[i] == ps[i];
  }

  lemma AccumulateReflectsLists(r: Statistics, ps: seq<Posting>, p: Posting)
    requires ReflectsMembers(r, ps) && ReflectsCategories(r, ps)
    ensures ReflectsMembers(Accumulate(r, p), ps + [p]) && ReflectsCategories(Accumulate(r, p), ps + [p])
  {
    forall m
      ensures m in Accumulate(r, p).members <==> Mentions(ps + [p], m)
    {
      MentionsSnoc(ps, p, m, "");
    }
    forall m, k
      ensures Owns(ps + [p], m, k) <==> Owns(ps, m, k) || (m == p.ownerId && k == KeyOf(p.categoryId))
      ensures Owns(ps, m, k) ==> Mentions(ps, m)
    {
      MentionsSnoc(ps, p, m, k);
    }
  }

  lemma AccumulateReflectsNames(r: Statistics, ps: seq<Posting>, p: Posting)
    requires ReflectsMembers(r, ps) && ReflectsNames(r, ps)
    ensures ReflectsNames(Accumulate(r, p), ps + [p])
  {
    var all := ps + [p];
    forall i, m | Opens(all, i, m) && m in Accumulate(r, p).members
      ensures Accumulate(r, p).members[m].shown == all[i].postedBy
    {
      OpensSnoc(ps, p, i, m);
      assert i < |ps| ==> Mentions(ps, m);
    }
  }

  lemma OpensSnoc(ps: seq<Posting>, p: Posting, i: int, m: Id)
    requires Opens(ps + [p], i, m)
    ensures if i < |ps| then Opens(ps, i, m) else i == |ps| && p.ownerId == m && !Mentions(ps, m)
  {
    assert forall j :: 0 <= j < |ps| ==> (ps + [p])[j] == ps[j];
  }

  lemma AccumulateReflects(r: Statistics, ps: seq<Posting>, p: Posting)
    requires Reflects(r, ps)
    ensures Reflects(Accumulate(r, p), ps + [p])
  {
    forall cell | Statistics.Reported(cell)
      ensures Accumulate(r, p).Of(cell) == CellTotal(ps + [p], cell)
    {
      AccumulateOf(r, p, cell);
      CellTotalSnoc(ps, p, cell);
    }
    AccumulateReflectsLists(r, ps, p);
    AccumulateReflectsNames(r, ps, p);
  }

  function Fold(ps: seq<Posting>): Statistics {
    if ps == [] then Statistics(map[], map[])
    else Accumulate(Fold(ps[..|ps| - 1]), ps[|ps| - 1])
  }

  lemma {:induction false} FoldReflects(ps: seq<Posting>)
    ensures Reflects(Fold(ps), ps)
  {
    if ps != [] {
      FoldReflects(ps[..|ps| - 1]);
      AccumulateReflects(Fold(ps[..|ps| - 1]), ps[..|ps| - 1], ps[|ps| - 1]);
      assert ps == ps[..|ps| - 1] + [ps[|ps| - 1]];
    }
  }

  /** The map updates of one turn: grand total, member total, category total. */
  method Charge(r: Statistics, p: Posting) returns (r': Statistics)
    ensures r' == Accumulate(r, p)
  {
    var total := Add(r.totals, p.currency, p.amount);
    var member := if p.ownerId in r.members then r.members[p.ownerId] else MemberTotals(p.postedBy, map[], map[]);
    member := member.(totals := Add(member.totals, p.currency, p.amount));
    var key := KeyOf(p.categoryId);
    var category := if key in member.categories then member.categories[key] else CategoryTotals(p.categoryId, map[]);
    category := category.(totals := Add(category.totals, p.currency, p.amount));
    member := member.(categories := member.categories[key := category]);
    r' := Statistics(total, r.members[p.ownerId := member]);
  }

  lemma FoldSnoc(ps: seq<Posting>, p: Posting)
    ensures Fold(ps + [p]) == Accumulate(Fold(ps), p)
  {
    assert (ps + [p])[..|ps|] == ps;
  }

  method Collect(s: Store, familyId: Id, range: Range) returns (report: Statistics)
    ensures report == Fold(Postings(s, familyId, range, |s.txs|))
  {
    report := Statistics(map[], map[]);
    var i := 0;
    while i < |s.txs|
      invariant 0 <= i <= |s.txs|
      invariant report == Fold(Postings(s, familyId, range, i))
    {
      var p := PostingOf(s, familyId, range, s.txs[i]);
      if p.Some? {
        report := Charge(report, p.value);
        FoldSnoc(Postings(s, familyId, range, i), p.value);
      }
      i := i + 1;
    }
  }

  method ExpenseStatistics(s: Store, c: Caller, dateFrom: Option<int>, dateTo: Option<int>)
    returns (answer: Result<Statistics, Error>)
    ensures answer.Err? <==> c.role.Child? || QueryRange(dateFrom, dateTo).Err?
    ensures answer.Ok? ==> Reflects(answer.value, Postings(s, c.familyId, QueryRange(dateFrom, dateTo).value, |s.txs|))
  {
    if c.role.Child? {
      return Err(Forbidden);
    }
    var query := QueryRange(dateFrom, dateTo);
    if query.Err? {
      return Err(query.error);
    }
    var report := Collect(s, c.familyId, query.value);
    FoldReflects(Postings(s, c.familyId, query.value, |s.txs|));
    answer := Ok(report);
  }

  // ----- the totals agree with each other -----

  ghost function MemberCell(ps: seq<Posting>, cell: Cell): Id -> int {
    (m: Id) => CellTotal(ps, cell.(ownerId := Some(m)))
  }

  /** Summing a total over any set of members that covers the postings drops the member. */
  lemma {:induction false} SumOverMembers(ps: seq<Posting>, cell: Cell, ids: set<Id>)
    requires cell.ownerId.None?
    requires forall i :: 0 <= i < |ps| ==> ps[i].ownerId in ids
    ensures SumOver(ids, MemberCell(ps, cell)) == CellTotal(ps, cell)
  {
    if ps == [] {
      SumOverZero(ids, MemberCell(ps, cell));
    } else {
      var before, p := ps[..|ps| - 1], ps[|ps| - 1];
      SumOverMembers(before, cell, ids);
      SumOverUpdate(ids, MemberCell(before, cell), MemberCell(ps, cell), p.ownerId);
    }
  }

  ghost function CategoryCell(ps: seq<Posting>, cell: Cell): string -> int {
    (k: string) => CellTotal(ps, cell.(key := Some(k)))
  }

  lemma {:induction false} SumOverCategories(ps: seq<Posting>, cell: Cell, keys: set<string>)
    requires cell.key.None?
    requires forall i :: 0 <= i < |ps| && cell.Counts(ps[i]) ==> KeyOf(ps[i].categoryId) in keys
    ensures SumOver(keys, CategoryCell(ps, cell)) == CellTotal(ps, cell)
  {
    if ps == [] {
      SumOverZero(keys, CategoryCell(ps, cell));
    } else {
      var before, p := ps[..|ps| - 1], ps[|ps| - 1];
      SumOverCategories(before, cell, keys);
      if cell.Counts(p) {
        SumOverUpdate(keys, CategoryCell(before, cell), CategoryCell(ps, cell), KeyOf(p.categoryId));
      } else {
        SumOverSame(keys, CategoryCell(before, cell), CategoryCell(ps, cell));
      }
    }
  }

  ghost function ReportCell(r: Statistics, cell: Cell): Id -> int {
    (m: Id) => r.Of(cell.(ownerId := Some(m)))
  }

  ghost function ReportKey(r: Statistics, m: Id, currency: string): string -> int {
    (k: string) => r.Of(Cell(Some(m), Some(k), currency))
  }

  /** For every range the grand total of the report is the sum of its member totals, and each
      member total is the sum of that member's category totals. */
  lemma TotalsAgree(r: Statistics, ps: seq<Posting>, currency: string)
    requires Reflects(r, ps)
    ensures SumOver(r.members.Keys, ReportCell(r, Cell(None, None, currency))) == r.Of(Cell(None, None, currency))
    ensures forall m :: m in r.members ==>
              SumOver(r.members[m].categories.Keys, ReportKey(r, m, currency)) == r.Of(Cell(Some(m), None, currency))
  {
    var grand := Cell(None, None, currency);
    forall i | 0 <= i < |ps|
      ensures ps[i].ownerId in r.members.Keys
    {
      assert Mentions(ps, ps[i].ownerId);
    }
    SumOverMembers(ps, grand, r.members.Keys);
    SumOverSame(r.members.Keys, MemberCell(ps, grand), ReportCell(r, grand));
    forall m | m in r.members
      ensures SumOver(r.members[m].categories.Keys, ReportKey(r, m, currency)) == r.Of(Cell(Some(m), None, currency))
    {
      var cell, keys := Cell(Some(m), None, currency), r.members[m].categories.Keys;
      forall i | 0 <= i < |ps| && cell.Counts(ps[i])
        ensures KeyOf(ps[i].categoryId) in keys
      {
        assert Owns(ps, m, KeyOf(ps[i].categoryId));
      }
      SumOverCategories(ps, cell, keys);
      SumOverSame(keys, CategoryCell(ps, cell), ReportKey(r, m, currency));
    }
  }

  // ----- the statistics report unreversed expenses -----

  ghost function PostedAt(s: Store, familyId: Id, range: Range, cell: Cell): Tx -> int {
    (t: Tx) =>
      var p := PostingOf(s, familyId, range, t);
      if p.Some? && cell.Counts(p.value) then p.value.amount else 0
  }

  lemma PostingsGrow(s: Store, familyId: Id, range: Range, cell: Cell, n: nat)
    requires 0 < n <= |s.txs|
    ensures CellTotal(Postings(s, familyId, range, n), cell) ==
            CellTotal(Postings(s, familyId, range, n - 1), cell) + PostedAt(s, familyId, range, cell)(s.txs[n - 1])
  {
    var p := PostingOf(s, familyId, range, s.txs[n - 1]);
    if p.Some? {
      CellTotalSnoc(Postings(s, familyId, range, n - 1), p.value, cell);
    }
  }

  lemma {:induction false} PostingsAreAColumn(s: Store, familyId: Id, range: Range, cell: Cell, n: nat)
    requires n <= |s.txs|
    ensures CellTotal(Postings(s, familyId, range, n), cell) ==
            Total(Column(s.txs[..n], PostedAt(s, familyId, range, cell)))
  {
    if n != 0 {
      var f := PostedAt(s, familyId, range, cell);
      PostingsAreAColumn(s, familyId, range, cell, n - 1);
      assert Column(s.txs[..n], f)[..n - 1] == Column(s.txs[..n - 1], f);
      PostingsGrow(s, familyId, range, cell, n);
    }
  }

  /** An expense of the given author, category and currency, counted positively. */
  ghost function Spent(familyId: Id, cell: Cell): Tx -> int {
    (t: Tx) =>
      if t.ttype.Expense? && t.familyId == familyId &&
         cell.Counts(Posting(t.createdById, t.categoryId, t.currency, 0, t.createdById))
      then -WalletSide(t.entries) else 0
  }

  lemma {:induction false} LiveTotalSame(links: seq<Option<nat>>, v: seq<int>, w: seq<int>, n: nat)
    requires |links| == |v| == |w| && n <= |v|
    requires forall i :: 0 <= i < n && Live(links, i) ==> v[i] == w[i]
    ensures LiveTotal(links, v, n) == LiveTotal(links, w, n)
  {
    if n != 0 {
      LiveTotalSame(links, v, w, n - 1);
    }
  }

  lemma ReversalPostsTheInverse(s: Store, familyId: Id, cell: Cell, i: nat)
    requires StoreOk(s) && i < |s.txs| && s.txs[i].reversesId.Some?
    ensures s.txs[i].reversesId.value < i
    ensures PostedAt(s, familyId, EVER, cell)(s.txs[i]) ==
            -PostedAt(s, familyId, EVER, cell)(s.txs[s.txs[i].reversesId.value])
  {
    assert RowOk(s, s.txs[i], i);
    var j := s.txs[i].reversesId.value;
    assert RowOk(s, s.txs[j], j);
    NegatedSide(s.txs[j].entries);
  }

  /** A column in which reversals cancel what they reverse totals its unreversed rows. */
  lemma CancellingColumn(s: Store, f: Tx -> int, g: Tx -> int)
    requires StoreOk(s)
    requires forall i :: 0 <= i < |s.txs| && s.txs[i].reversesId.Some? ==>
               s.txs[i].reversesId.value < i && f(s.txs[i]) == -f(s.txs[s.txs[i].reversesId.value])
    requires forall i :: 0 <= i < |s.txs| && Live(Links(s.txs), i) ==> f(s.txs[i]) == g(s.txs[i])
    ensures Total(Column(s.txs, f)) == LiveColumn(s.txs, g)
  {
    RowsMakeLinks(s);
    UndoCancels(Links(s.txs), Column(s.txs, f));
    LiveTotalSame(Links(s.txs), Column(s.txs, f), Column(s.txs, g), |s.txs|);
  }

  lemma LivePostingIsSpent(s: Store, familyId: Id, cell: Cell, i: nat)
    requires StoreOk(s) && i < |s.txs| && Live(Links(s.txs), i)
    ensures PostedAt(s, familyId, EVER, cell)(s.txs[i]) == Spent(familyId, cell)(s.txs[i])
  {
    assert RowOk(s, s.txs[i], i);
  }

  /** With no date bounds, what the statistics show for an author, category and currency is the sum
      of that author's unreversed expenses, whoever posted the reversals. */
  lemma StatisticsAreUnreversedExpenses(events: seq<Event>, familyId: Id, cell: Cell)
    ensures
      var s := Run(events).store;
      CellTotal(Postings(s, familyId, EVER, |s.txs|), cell) == LiveColumn(s.txs, Spent(familyId, cell))
  {
    RunIsOk(events);
    var s := Run(events).store;
    var f, g := PostedAt(s, familyId, EVER, cell), Spent(familyId, cell);
    assert s.txs[..|s.txs|] == s.txs;
    PostingsAreAColumn(s, familyId, EVER, cell, |s.txs|);
    forall i | 0 <= i < |s.txs| && s.txs[i].reversesId.Some?
      ensures s.txs[i].reversesId.value < i && f(s.txs[i]) == -f(s.txs[s.txs[i].reversesId.value])
    {
      ReversalPostsTheInverse(s, familyId, cell, i);
    }
    forall i | 0 <= i < |s.txs| && Live(Links(s.txs), i)
      ensures f(s.txs[i]) == g(s.txs[i])
    {
      LivePostingIsSpent(s, familyId, cell, i);
    }
    CancellingColumn(s, f, g);
  }

  // ----- whose name a member's line carries -----

  /** The line of a member carries the member's own name exactly when the row that opens it was posted by
      the member. */
  lemma NameIsAuthorsExactly(r: Statistics, ps: seq<Posting>, i: int, m: Id)
    requires Reflects(r, ps) && Opens(ps, i, m)
    ensures m in r.members && (r.members[m].shown == m <==> ps[i].postedBy == m)
  {
    assert Mentions(ps, m);
  }

  lemma RowIsMentioned(s: Store, familyId: Id, range: Range, j: nat, n: nat)
    requires j < n <= |s.txs| && PostingOf(s, familyId, range, s.txs[j]).Some?
    ensures Mentions(Postings(s, familyId, range, n), PostingOf(s, familyId, range, s.txs[j]).value.ownerId)
    decreases n
  {
    var before, p := Postings(s, familyId, range, n - 1), PostingOf(s, familyId, range, s.txs[n - 1]);
    if j == n - 1 {
      assert Postings(s, familyId, range, n)[|before|] == p.value;
    } else {
      RowIsMentioned(s, familyId, range, j, n - 1);
      if p.Some? {
        MentionsSnoc(before, p.value, PostingOf(s, familyId, range, s.txs[j]).value.ownerId, "");
      }
    }
  }

  /** A reversal's posting has the owner of the reversed expense, whose own posting came before. */
  lemma ReversalFollows(s: Store, familyId: Id, i: nat)
    requires StoreOk(s) && i < |s.txs| && s.txs[i].ttype.Reversal? && PostingOf(s, familyId, EVER, s.txs[i]).Some?
    ensures s.txs[i].reversesId.Some? && s.txs[i].reversesId.value < i
    ensures
      var j := s.txs[i].reversesId.value;
      PostingOf(s, familyId, EVER, s.txs[j]).Some? &&
      PostingOf(s, familyId, EVER, s.txs[j]).value.ownerId == PostingOf(s, familyId, EVER, s.txs[i]).value.ownerId
  {
    assert RowOk(s, s.txs[i], i);
    var j := s.txs[i].reversesId.value;
    assert RowOk(s, s.txs[j], j);
    NegatedSide(s.txs[j].entries);
  }

  lemma {:induction false} OpenersAreAuthors(s: Store, familyId: Id, n: nat, i: int, m: Id)
    requires StoreOk(s) && 0 < n <= |s.txs| && Opens(Postings(s, familyId, EVER, n), i, m)
    ensures Postings(s, familyId, EVER, n)[i].postedBy == m
    decreases n
  {
    var before, p := Postings(s, familyId, EVER, n - 1), PostingOf(s, familyId, EVER, s.txs[n - 1]);
    if p.Some? {
      OpensSnoc(before, p.value, i, m);
    }
    if i < |before| {
      OpenersAreAuthors(s, familyId, n - 1, i, m);
    } else {
      LastOpenerIsAuthor(s, familyId, n, m);
    }
  }

  lemma LastOpenerIsAuthor(s: Store, familyId: Id, n: nat, m: Id)
    requires StoreOk(s) && 0 < n <= |s.txs| && PostingOf(s, familyId, EVER, s.txs[n - 1]).Some?
    requires PostingOf(s, familyId, EVER, s.txs[n - 1]).value.ownerId == m
    requires !Mentions(Postings(s, familyId, EVER, n - 1), m)
    ensures PostingOf(s, familyId, EVER, s.txs[n - 1]).value.postedBy == m
  {
    if s.txs[n - 1].ttype.Reversal? {
      ReversalFollows(s, familyId, n - 1);
      RowIsMentioned(s, familyId, EVER, s.txs[n - 1].reversesId.value, n - 1);
      assert false;
    } else {
      assert RowOk(s, s.txs[n - 1], n - 1);
    }
  }

  /** In every run a report without date bounds names every line rightly: an expense precedes its
      reversals. */
  lemma UnboundedNamesAreRight(events: seq<Event>, familyId: Id, m: Id)
    ensures
      var s := Run(events).store;
      var r := Fold(Postings(s, familyId, EVER, |s.txs|));
      m in r.members ==> r.members[m].shown == m
  {
    RunIsOk(events);
    var s := Run(events).store;
    var ps := Postings(s, familyId, EVER, |s.txs|);
    FoldReflects(ps);
    if m in Fold(ps).members {
      var i := FirstOf(ps, m);
      OpenersAreAuthors(s, familyId, |s.txs|, i, m);
    }
  }

  lemma {:induction false} FirstOf(ps: seq<Posting>, m: Id) returns (i: int)
    requires Mentions(ps, m)
    ensures Opens(ps, i, m)
    decreases |ps|
  {
    var before := ps[..|ps| - 1];
    if Mentions(before, m) {
      i := FirstOf(before, m);
    } else {
      i := |ps| - 1;
      forall j | 0 <= j < i
        ensures ps[j].ownerId != m
      {
        assert before[j] == ps[j];
      }
    }
  }

  /** When the period starts between an expense and its reversal by somebody else, the author's line carries
      the other's name. */
  lemma ReversalNamesTheLine(s: Store, spent: Tx, undone: Tx, day: int)
    requires spent == Tx("home", "ann", Expense, "EUR", 0, None, None, [Entry(Some("w"), -5), Entry(None, 5)])
    requires undone == Tx("home", "bob", Reversal, "EUR", day, Some(0), None, [Entry(Some("w"), 5), Entry(None, -5)])
    requires s.txs == [spent, undone] && day > 0
    ensures
      var r := Fold(Postings(s, "home", Range(Some(day), None), 2));
      r.members.Keys == {"ann"} && r.members["ann"].shown == "bob"
  {
    var range := Range(Some(day), None);
    var p := Posting("ann", None, "EUR", -5, "bob");
    assert WalletSide(undone.entries[1..]) == 0;
    assert PostingOf(s, "home", range, undone) == Some(p);
    assert Postings(s, "home", range, 1) == [];
    assert Postings(s, "home", range, 2) == [p];
    FoldSnoc([], p);
    assert [] + [p] == [p];
  }

  // ----- the monthly summary -----

  predicate Summarised(s: Store, c: Caller, range: Range, t: Tx) {
    VisibleTx(s, c, t, None) && t.categoryId.Some? && !t.ttype.Transfer? && range.Has(t.occurredAt) &&
    t.categoryId.value in s.categories && s.categories[t.categoryId.value].familyId == c.familyId
  }

  function Signed(s: Store, t: Tx): int
    requires t.categoryId.Some? && t.categoryId.value in s.categories
  {
    if s.categories[t.categoryId.value].kind.ExpenseKind? then -WalletSide(t.entries) else WalletSide(t.entries)
  }

  /** What one row adds to the summary's amount of a category and currency. */
  function SummaryRow(s: Store, c: Caller, range: Range, category: Id, currency: string, t: Tx): int {
    if Summarised(s, c, range, t) && t.categoryId.value == category && t.currency == currency then Signed(s, t) else 0
  }

  function SummaryTotal(s: Store, c: Caller, range: Range, category: Id, currency: string, n: nat): int
    requires n <= |s.txs|
  {
    if n == 0 then 0
    else
      SummaryTotal(s, c, range, category, currency, n - 1) +
      SummaryRow(s, c, range, category, currency, s.txs[n - 1])
  }

  datatype BudgetLine = BudgetLine(limit: int, actual: int, remaining: int)

  method FinancialSummary(s: Store, c: Caller, start: int, end: int, defaultCurrency: string, budgets: map<Id, int>)
    returns (amounts: map<Id, Amounts>, lines: map<Id, BudgetLine>)
    ensures forall k, cur :: Get(if k in amounts then amounts[k] else map[], cur) ==
              SummaryTotal(s, c, Range(Some(start), Some(end)), k, cur, |s.txs|)
    ensures lines.Keys == budgets.Keys
    ensures forall k :: k in budgets ==>
              lines[k].actual == SummaryTotal(s, c, Range(Some(start), Some(end)), k, defaultCurrency, |s.txs|) &&
              lines[k].actual + lines[k].remaining == lines[k].limit == budgets[k]
  {
    var range := Range(Some(start), Some(end));
    amounts := map[];
    var i := 0;
    while i < |s.txs|
      invariant 0 <= i <= |s.txs|
      invariant forall k, cur ::
                  Get(if k in amounts then amounts[k] else map[], cur) == SummaryTotal(s, c, range, k, cur, i)
    {
      var t := s.txs[i];
      if Summarised(s, c, range, t) {
        var k := t.categoryId.value;
        var byCurrency := if k in amounts then amounts[k] else map[];
        byCurrency := byCurrency[t.currency := Get(byCurrency, t.currency) + Signed(s, t)];
        amounts := amounts[k := byCurrency];
      }
      i := i + 1;
    }
    lines := map k | k in budgets ::
      var actual := Get(if k in amounts then amounts[k] else map[], defaultCurrency);
      BudgetLine(budgets[k], actual, budgets[k] - actual);
  }

  // ----- the two folds agree -----

  /** What the statistics count of a row the summary hides from this caller. */
  function HiddenRow(s: Store, c: Caller, range: Range, category: Id, currency: string, t: Tx): int {
    if t.familyId == c.familyId && !VisibleTx(s, c, t, None) && t.categoryId == Some(category) &&
      t.currency == currency &&
       range.Has(t.occurredAt)
    then -WalletSide(t.entries) else 0
  }

  function HiddenTotal(s: Store, c: Caller, range: Range, category: Id, currency: string, n: nat): int
    requires n <= |s.txs|
  {
    if n == 0 then 0
    else HiddenTotal(s, c, range, category, currency, n - 1) + HiddenRow(s, c, range, category, currency, s.txs[n - 1])
  }

  ghost predicate ExpenseCategoryOf(s: Store, c: Caller, category: Id) {
    category in s.categories && s.categories[category].familyId == c.familyId &&
      s.categories[category].kind.ExpenseKind?
  }

  ghost predicate RowAlike(s: Store, c: Caller, range: Range, category: Id, currency: string, t: Tx) {
    PostedAt(s, c.familyId, range, Cell(None, Some(category), currency))(t) ==
    SummaryRow(s, c, range, category, currency, t) + HiddenRow(s, c, range, category, currency, t)
  }

  /** A row counts the same in both reports, up to visibility. */
  lemma RowCountsAlike(s: Store, c: Caller, range: Range, category: Id, currency: string, i: nat)
    requires StoreOk(s) && i < |s.txs| && ExpenseCategoryOf(s, c, category)
    ensures RowAlike(s, c, range, category, currency, s.txs[i])
  {
    var t := s.txs[i];
    assert RowOk(s, t, i);
    if t.ttype.Reversal? {
      assert RowOk(s, s.txs[t.reversesId.value], t.reversesId.value);
    }
  }

  lemma {:induction false} PrefixCountsAlike(s: Store, c: Caller, range: Range, category: Id, currency: string, n: nat)
    requires n <= |s.txs| && forall i :: 0 <= i < |s.txs| ==> RowAlike(s, c, range, category, currency, s.txs[i])
    ensures CellTotal(Postings(s, c.familyId, range, n), Cell(None, Some(category), currency)) ==
            SummaryTotal(s, c, range, category, currency, n) + HiddenTotal(s, c, range, category, currency, n)
    decreases n
  {
    if n != 0 {
      PrefixCountsAlike(s, c, range, category, currency, n - 1);
      PostingsGrow(s, c.familyId, range, Cell(None, Some(category), currency), n);
      assert RowAlike(s, c, range, category, currency, s.txs[n - 1]);
    }
  }

  ghost predicate SeesEveryWallet(s: Store, c: Caller) {
    forall id :: id in s.wallets && s.wallets[id].familyId == c.familyId ==> VisibleTo(s.wallets[id], c)
  }

  lemma {:induction false} NothingHidden(s: Store, c: Caller, range: Range, category: Id, currency: string, n: nat)
    requires StoreOk(s) && SeesEveryWallet(s, c) && n <= |s.txs|
    ensures HiddenTotal(s, c, range, category, currency, n) == 0
  {
    if n != 0 {
      NothingHidden(s, c, range, category, currency, n - 1);
      var t := s.txs[n - 1];
      assert RowOk(s, t, n - 1);
      forall k | 0 <= k < |t.entries| && t.entries[k].walletId.Some?
        ensures KnownWallet(s, t.entries[k].walletId.value, t.familyId, t.currency)
      {
      }
    }
  }

  /** In every run, for every expense category, currency and range: the statistics' category totals
      summed over all members are the summary's actual plus what the summary hides from this
      caller, and nothing is hidden from a caller who can see every wallet. */
  lemma StatisticsMatchSummary(events: seq<Event>, c: Caller, range: Range, category: Id, currency: string,
      r: Statistics)
    requires
      var s := Run(events).store;
      ExpenseCategoryOf(s, c, category) && Reflects(r, Postings(s, c.familyId, range, |s.txs|))
    ensures
      var s := Run(events).store;
      SumOver(r.members.Keys, ReportCell(r, Cell(None, Some(category), currency))) ==
        SummaryTotal(s, c, range, category, currency, |s.txs|) + HiddenTotal(s, c, range, category, currency, |s.txs|)
    ensures
      var s := Run(events).store;
      SeesEveryWallet(s, c) ==> HiddenTotal(s, c, range, category, currency, |s.txs|) == 0
  {
    RunIsOk(events);
    var s := Run(events).store;
    var ps, cell := Postings(s, c.familyId, range, |s.txs|), Cell(None, Some(category), currency);
    forall i | 0 <= i < |ps|
      ensures ps[i].ownerId in r.members.Keys
    {
      assert Mentions(ps, ps[i].ownerId);
    }
    SumOverMembers(ps, cell, r.members.Keys);
    SumOverSame(r.members.Keys, MemberCell(ps, cell), ReportCell(r, cell));
    forall i | 0 <= i < |s.txs|
      ensures RowAlike(s, c, range, category, currency, s.txs[i])
    {
      RowCountsAlike(s, c, range, category, currency, i);
    }
    PrefixCountsAlike(s, c, range, category, currency, |s.txs|);
    if SeesEveryWallet(s, c) {
      NothingHidden(s, c, range, category, currency, |s.txs|);
    }
  }

  // ----- both reports count what was asked for -----

  /** The amount a row of two entries moves. */
  function Size(t: Tx): int {
    if t.entries == [] then 0
    else if t.entries[0].amountMinor < 0 then -t.entries[0].amountMinor else t.entries[0].amountMinor
  }

  /** An income or expense counts its amount, a reversal takes off the amount of what it reverses. */
  function Counted(s: Store, t: Tx): int {
    match t.ttype
    case Income => Size(t)
    case Expense => Size(t)
    case Transfer => 0
    case Reversal =>
      if t.reversesId.Some? && t.reversesId.value < |s.txs| then -Size(s.txs[t.reversesId.value]) else 0
  }

  lemma PairSide(e: seq<Entry>)
    requires |e| == 2
    ensures WalletSide(e) == (if e[0].walletId.Some? then e[0].amountMinor else 0) +
                             (if e[1].walletId.Some? then e[1].amountMinor else 0)
  {
    assert e[1..][1..] == [] && e[1..][0] == e[1];
    assert WalletSide(e[1..][1..]) == 0;
  }

  /** What an income or expense or its reversal puts into wallets. */
  lemma RowSide(s: Store, i: nat)
    requires StoreOk(s) && i < |s.txs|
    ensures
      var t := s.txs[i];
      WalletSide(t.entries) ==
        match t.ttype
        case Income => Size(t)
        case Expense => -Size(t)
        case Transfer => 0
        case Reversal =>
          (match s.txs[t.reversesId.value].ttype
           case Income => -Size(s.txs[t.reversesId.value])
           case Expense => Size(s.txs[t.reversesId.value])
           case _ => 0)
  {
    var t := s.txs[i];
    assert RowOk(s, t, i);
    PairSide(t.entries);
    if t.ttype.Reversal? {
      assert RowOk(s, s.txs[t.reversesId.value], t.reversesId.value);
    }
  }

  /** A visible row of the category, currency and range, counted as it was asked for. */
  ghost function InCategory(s: Store, c: Caller, range: Range, category: Id, currency: string): Tx -> int {
    (t: Tx) =>
      if VisibleTx(s, c, t, None) && t.categoryId == Some(category) && t.currency == currency && range.Has(t.occurredAt)
      then Counted(s, t) else 0
  }

  lemma SummaryRowIsCounted(s: Store, c: Caller, range: Range, category: Id, currency: string, i: nat)
    requires StoreOk(s) && i < |s.txs| && category in s.categories && s.categories[category].familyId == c.familyId
    ensures SummaryRow(s, c, range, category, currency, s.txs[i]) ==
            InCategory(s, c, range, category, currency)(s.txs[i])
  {
    var t := s.txs[i];
    assert RowOk(s, t, i);
    RowSide(s, i);
    if t.ttype.Reversal? {
      assert RowOk(s, s.txs[t.reversesId.value], t.reversesId.value);
    }
  }

  lemma {:induction false} SummaryIsAColumn(s: Store, c: Caller, range: Range, category: Id, currency: string,
      f: Tx -> int, n: nat)
    requires n <= |s.txs|
    requires forall i :: 0 <= i < |s.txs| ==> SummaryRow(s, c, range, category, currency, s.txs[i]) == f(s.txs[i])
    ensures SummaryTotal(s, c, range, category, currency, n) == Total(Column(s.txs[..n], f))
    decreases n
  {
    if n != 0 {
      SummaryIsAColumn(s, c, range, category, currency, f, n - 1);
      assert Column(s.txs[..n], f)[..n - 1] == Column(s.txs[..n - 1], f);
    }
  }

  /** In every run, for every category of either kind, currency and range: the summary's amount is the sum of
      the amounts of the visible incomes or expenses less the amounts that visible reversals took back. */
  lemma SummaryIsCounted(events: seq<Event>, c: Caller, range: Range, category: Id, currency: string)
    requires
      var s := Run(events).store;
      category in s.categories && s.categories[category].familyId == c.familyId
    ensures
      var s := Run(events).store;
      SummaryTotal(s, c, range, category, currency, |s.txs|) ==
        Total(Column(s.txs, InCategory(s, c, range, category, currency)))
  {
    RunIsOk(events);
    var s := Run(events).store;
    forall i | 0 <= i < |s.txs|
      ensures SummaryRow(s, c, range, category, currency, s.txs[i]) ==
              InCategory(s, c, range, category, currency)(s.txs[i])
    {
      SummaryRowIsCounted(s, c, range, category, currency, i);
    }
    SummaryIsAColumn(s, c, range, category, currency, InCategory(s, c, range, category, currency), |s.txs|);
    assert s.txs[..|s.txs|] == s.txs;
  }

  lemma ReversalCountsBack(s: Store, c: Caller, category: Id, currency: string, i: nat)
    requires StoreOk(s) && i < |s.txs| && s.txs[i].reversesId.Some?
    ensures s.txs[i].reversesId.value < i
    ensures
      var f := InCategory(s, c, EVER, category, currency);
      f(s.txs[i]) == -f(s.txs[s.txs[i].reversesId.value])
  {
    var t := s.txs[i];
    assert RowOk(s, t, i);
    var original := s.txs[t.reversesId.value];
    assert RowOk(s, original, t.reversesId.value);
    InverseIsAsVisible(s, c, t, original, None);
  }

  /** Without bounds the amount is the sum of the unreversed ones, hence never negative. */
  lemma UnboundedSummaryIsLive(events: seq<Event>, c: Caller, category: Id, currency: string)
    requires
      var s := Run(events).store;
      category in s.categories && s.categories[category].familyId == c.familyId
    ensures
      var s := Run(events).store;
      SummaryTotal(s, c, EVER, category, currency, |s.txs|) ==
        LiveColumn(s.txs, InCategory(s, c, EVER, category, currency)) >= 0
  {
    RunIsOk(events);
    SummaryIsCounted(events, c, EVER, category, currency);
    var s := Run(events).store;
    var f := InCategory(s, c, EVER, category, currency);
    forall i | 0 <= i < |s.txs| && s.txs[i].reversesId.Some?
      ensures s.txs[i].reversesId.value < i && f(s.txs[i]) == -f(s.txs[s.txs[i].reversesId.value])
    {
      ReversalCountsBack(s, c, category, currency, i);
    }
    CancellingColumn(s, f, f);
    LiveIsNotNegative(Links(s.txs), Column(s.txs, f), |s.txs|);
  }

  lemma {:induction false} LiveIsNotNegative(links: seq<Option<nat>>, v: seq<int>, n: nat)
    requires |links| == |v| && n <= |v|
    requires forall i :: 0 <= i < n && Live(links, i) ==> v[i] >= 0
    ensures LiveTotal(links, v, n) >= 0
  {
    if n != 0 {
      LiveIsNotNegative(links, v, n - 1);
    }
  }

  /** An expense of the author, category and currency dated in the range, or a reversal of one, dated in it,
      counted as it was asked for. */
  ghost function SpentIn(s: Store, familyId: Id, range: Range, cell: Cell): Tx -> int {
    (t: Tx) =>
      var of := if t.ttype == Reversal && t.reversesId.Some? && t.reversesId.value < |s.txs|
                then s.txs[t.reversesId.value] else t;
      if t.familyId == familyId && t.currency == cell.currency && range.Has(t.occurredAt) && of.ttype == Expense &&
         (cell.ownerId.Some? ==> of.createdById == cell.ownerId.value) &&
         (cell.key.Some? ==> cell.key.value == if of.categoryId.Some? then of.categoryId.value else "uncategorized")
      then Counted(s, t) else 0
  }

  lemma PostingIsCounted(s: Store, familyId: Id, range: Range, cell: Cell, i: nat)
    requires StoreOk(s) && i < |s.txs|
    ensures PostedAt(s, familyId, range, cell)(s.txs[i]) == SpentIn(s, familyId, range, cell)(s.txs[i])
  {
    var t := s.txs[i];
    assert RowOk(s, t, i);
    RowSide(s, i);
    if t.ttype.Reversal? {
      assert RowOk(s, s.txs[t.reversesId.value], t.reversesId.value);
    }
  }

  /** In every run and for every range, author, category and currency: the statistics' figure is the sum of
      the amounts of that author's expenses less the amounts that reversals of them took back. */
  lemma StatisticsAreCounted(events: seq<Event>, familyId: Id, range: Range, cell: Cell)
    ensures
      var s := Run(events).store;
      CellTotal(Postings(s, familyId, range, |s.txs|), cell) ==
        Total(Column(s.txs, SpentIn(s, familyId, range, cell)))
  {
    RunIsOk(events);
    var s := Run(events).store;
    PostingsAreAColumn(s, familyId, range, cell, |s.txs|);
    assert s.txs[..|s.txs|] == s.txs;
    forall i | 0 <= i < |s.txs|
      ensures PostedAt(s, familyId, range, cell)(s.txs[i]) == SpentIn(s, familyId, range, cell)(s.txs[i])
    {
      PostingIsCounted(s, familyId, range, cell, i);
    }
    assert Column(s.txs, PostedAt(s, familyId, range, cell)) == Column(s.txs, SpentIn(s, familyId, range, cell));
  }
}
