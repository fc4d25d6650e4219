/** The calendar projection: three sources, each cut off after the limit, merged and cut again. */
module CalendarMerge {
  import opened Basics
  import opened Sorting
  import opened Zones
  import CivilCalendar
  import LocalDate

  // ----- the projection -----

  datatype Kind = FamilyEvent | Task | TaskReminder

  datatype Entry = Entry(id: string, sourceId: string, kind: Kind, title: string, startsAt: int, status: string)

  const MAX_RANGE_DAYS: int := 93
  const MAX_ENTRIES: nat := 500

  /** The comparator: by start, then by the given comparison of ids. */
  function ByStart(idLe: Order<string>): Order<Entry> {
    (l: Entry, r: Entry) => if l.startsAt == r.startsAt then idLe(l.id, r.id) else l.startsAt < r.startsAt
  }

  function Within(s: seq<Entry>, from: int, to: int): seq<Entry> {
    Filter((e: Entry) => from <= e.startsAt < to, s)
  }

  function Drop(s: seq<Entry>, n: nat): seq<Entry> {
    if n < |s| then s[n..] else []
  }

  /** The rows of the caller's family that the three queries range over, each in database order. */
  datatype Sources = Sources(events: seq<Entry>, tasks: seq<Entry>, reminders: seq<Entry>) {
    function In(from: int, to: int): Sources {
      Sources(Within(events, from, to), Within(tasks, from, to), Within(reminders, from, to))
    }

    function First(n: nat): Sources {
      Sources(Take(events, n), Take(tasks, n), Take(reminders, n))
    }

    /** What taking the first `n` leaves behind. */
    function Rest(n: nat): Sources {
      Sources(Drop(events, n), Drop(tasks, n), Drop(reminders, n))
    }

    function All(): seq<Entry> {
      events + tasks + reminders
    }
  }

  datatype Projection = Projection(data: seq<Entry>, truncated: bool)

  function Project(z: Zone, idLe: Order<string>, s: Sources, dateFrom: int, dateTo: int): Result<Projection, string> {
    if dateTo - dateFrom <= 0 || dateTo - dateFrom > MAX_RANGE_DAYS
      then Err("Calendar range must be between 1 and 93 days")
    else
      var fetched := s.In(LocalDate.StartUtc(z, dateFrom), LocalDate.StartUtc(z, dateTo)).First(MAX_ENTRIES + 1);
      var entries := Sort(ByStart(idLe), fetched.All());
      Ok(Projection(
           Take(entries, MAX_ENTRIES),
           |entries| > MAX_ENTRIES || |fetched.events| > MAX_ENTRIES || |fetched.tasks| > MAX_ENTRIES ||
           |fetched.reminders| > MAX_ENTRIES))
  }

  lemma ByStartIsPreorder(idLe: Order<string>)
    requires TotalPreorder(idLe)
    ensures TotalPreorder(ByStart(idLe))
  {
    var le := ByStart(idLe);
    forall x: Entry, y: Entry
      ensures le(x, y) || le(y, x)
    {
      assert idLe(x.id, y.id) || idLe(y.id, x.id);
    }
    forall x: Entry, y: Entry, w: Entry | le(x, y) && le(y, w)
      ensures le(x, w)
    {
      assert idLe(x.id, y.id) && idLe(y.id, w.id) ==> idLe(x.id, w.id);
    }
  }

  function Times(s: seq<Entry>): seq<int> {
    seq(|s|, i requires 0 <= i < |s| => s[i].startsAt)
  }

  function AtMost(): Order<int> {
    (x: int, y: int) => x <= y
  }

  /** The database returns the rows by start time, and where it cuts them off no tie is broken differently
      from the comparator: it orders ties alike, there is nothing to cut, or the cut is not in a tie. */
  ghost predicate CutInOrder(idLe: Order<string>, s: seq<Entry>) {
    Sorted(AtMost(), Times(s)) &&
    (Sorted(ByStart(idLe), s) || |s| <= MAX_ENTRIES + 1 || s[MAX_ENTRIES].startsAt < s[MAX_ENTRIES + 1].startsAt)
  }

  lemma CutInOrderIsClean(idLe: Order<string>, s: seq<Entry>)
    requires TotalPreorder(idLe) && CutInOrder(idLe, s)
    ensures CutsCleanly(ByStart(idLe), s, MAX_ENTRIES + 1)
  {
    var le, n := ByStart(idLe), MAX_ENTRIES + 1;
    ByStartIsPreorder(idLe);
    if Sorted(le, s) {
      SortedCutsCleanly(le, s, n);
    } else if |s| <= n {
      SortIsPermutation(le, s);
      assert |multiset(Sort(le, s))| == |multiset(s)|;
    } else {
      forall x, y | x in s[..n] && y in s[n..]
        ensures le(x, y)
      {
        var i :| 0 <= i < n && s[i] == x;
        var j :| n <= j < |s| && s[j] == y;
        StartsInOrder(s, i, n - 1);
        StartsInOrder(s, n, j);
      }
      ApartCutsCleanly(le, s, n);
    }
  }

  lemma StartsInOrder(s: seq<Entry>, i: nat, j: nat)
    requires Sorted(AtMost(), Times(s)) && i <= j < |s|
    ensures s[i].startsAt <= s[j].startsAt
  {
    assert i < j ==> AtMost()(Times(s)[i], Times(s)[j]);
  }

  /** The projection is the first 500 of everything in the range, and says so exactly when there is
      more. */
  lemma ProjectionIsFirst500(z: Zone, idLe: Order<string>, s: Sources, dateFrom: int, dateTo: int)
    requires TotalPreorder(idLe) && 0 < dateTo - dateFrom <= MAX_RANGE_DAYS
    requires
      var rows := s.In(LocalDate.StartUtc(z, dateFrom), LocalDate.StartUtc(z, dateTo));
      CutInOrder(idLe, rows.events) && CutInOrder(idLe, rows.tasks) && CutInOrder(idLe, rows.reminders)
    ensures
      var complete := s.In(LocalDate.StartUtc(z, dateFrom), LocalDate.StartUtc(z, dateTo)).All();
      Project(z, idLe, s, dateFrom, dateTo) ==
      Ok(Projection(Take(Sort(ByStart(idLe), complete), MAX_ENTRIES), |complete| > MAX_ENTRIES))
  {
    var rows := s.In(LocalDate.StartUtc(z, dateFrom), LocalDate.StartUtc(z, dateTo));
    ByStartIsPreorder(idLe);
    CutInOrderIsClean(idLe, rows.events);
    CutInOrderIsClean(idLe, rows.tasks);
    CutInOrderIsClean(idLe, rows.reminders);
    CutAtLimit(ByStart(idLe), rows);
  }

  lemma CutAtLimit(le: Order<Entry>, s: Sources)
    requires TotalPreorder(le)
    requires CutsCleanly(le, s.events, MAX_ENTRIES + 1) && CutsCleanly(le, s.tasks, MAX_ENTRIES + 1) &&
             CutsCleanly(le, s.reminders, MAX_ENTRIES + 1)
    ensures
      var entries := Sort(le, s.First(MAX_ENTRIES + 1).All());
      Take(entries, MAX_ENTRIES) == Take(Sort(le, s.All()), MAX_ENTRIES) &&
        |entries| == |s.First(MAX_ENTRIES + 1).All()|
  {
    var entries := Sort(le, s.First(MAX_ENTRIES + 1).All());
    CutSourcesAgree(le, s.events, s.tasks, s.reminders, MAX_ENTRIES + 1);
    TakeTwice(entries, MAX_ENTRIES, MAX_ENTRIES + 1);
    TakeTwice(Sort(le, s.All()), MAX_ENTRIES, MAX_ENTRIES + 1);
    SortIsPermutation(le, s.First(MAX_ENTRIES + 1).All());
    assert |multiset(entries)| == |entries|;
  }

  lemma CutParts(s: seq<Entry>, n: nat)
    ensures Take(s, n) + Drop(s, n) == s
    ensures Drop(s, n) != [] ==> |Take(s, n)| == n
  {
  }

  lemma Regroup(a: seq<Entry>, a': seq<Entry>, b: seq<Entry>, b': seq<Entry>, c: seq<Entry>, c': seq<Entry>)
    ensures multiset((a + a') + (b + b') + (c + c')) == multiset((a + b + c) + (a' + b' + c'))
  {
  }

  lemma CutSources(s: Sources, n: nat)
    ensures multiset(s.All()) == multiset(s.First(n).All() + s.Rest(n).All())
    ensures s.Rest(n).All() != [] ==> |s.First(n).All()| >= n
    ensures |s.All()| == |s.First(n).All()| + |s.Rest(n).All()|
  {
    CutParts(s.events, n);
    CutParts(s.tasks, n);
    CutParts(s.reminders, n);
    var f, r := s.First(n), s.Rest(n);
    Regroup(f.events, r.events, f.tasks, r.tasks, f.reminders, r.reminders);
  }

  lemma NothingCut(s: Sources, n: nat)
    requires s.Rest(n).All() == []
    ensures s.First(n) == s
  {
    CutParts(s.events, n);
    CutParts(s.tasks, n);
    CutParts(s.reminders, n);
  }

  /** No row that the queries left out ranks before the 500th of those they returned. */
  ghost predicate NothingBetterLeftOut(idLe: Order<string>, rows: Sources) {
    var fetched := Sort(ByStart(idLe), rows.First(501).All());
    var left := rows.Rest(501).All();
    forall i :: 0 <= i < |left| ==> |fetched| >= 500 && ByStart(idLe)(fetched[499], left[i])
  }

  lemma CutShows(idLe: Order<string>, rows: Sources)
    requires TotalPreorder(idLe) && NoTies(ByStart(idLe), rows.All())
    ensures
      var shown := Take(Sort(ByStart(idLe), rows.First(MAX_ENTRIES + 1).All()), MAX_ENTRIES);
      shown == Take(Sort(ByStart(idLe), rows.All()), MAX_ENTRIES) <==> NothingBetterLeftOut(idLe, rows)
  {
    ByStartIsPreorder(idLe);
    CutSources(rows, MAX_ENTRIES + 1);
    var left := rows.Rest(MAX_ENTRIES + 1).All();
    if left != [] {
      LeavingOutShows(ByStart(idLe), rows.All(), rows.First(MAX_ENTRIES + 1).All(), left, MAX_ENTRIES);
      assert forall i :: 0 <= i < |left| ==> left[i] in left;
    } else {
      NothingCut(rows, MAX_ENTRIES + 1);
    }
  }

  /** However the database orders its rows: a range of 1 to 93 days is answered, the projection is the first
      500 of everything in the range exactly when no row the queries left out ranks before the 500th of
      those they returned, and the flag is always right. */
  lemma ProjectionIsFirst500Exactly(z: Zone, idLe: Order<string>, s: Sources, dateFrom: int, dateTo: int)
    requires TotalPreorder(idLe)
    requires NoTies(ByStart(idLe), s.In(LocalDate.StartUtc(z, dateFrom), LocalDate.StartUtc(z, dateTo)).All())
    ensures Project(z, idLe, s, dateFrom, dateTo).Ok? <==> 1 <= dateTo - dateFrom <= 93
    ensures
      var rows := s.In(LocalDate.StartUtc(z, dateFrom), LocalDate.StartUtc(z, dateTo));
      var answer := Project(z, idLe, s, dateFrom, dateTo);
      answer.Ok? ==>
        answer.value.truncated == (|rows.All()| > 500) &&
        (answer.value.data == Take(Sort(ByStart(idLe), rows.All()), 500) <==> NothingBetterLeftOut(idLe, rows))
  {
    var rows := s.In(LocalDate.StartUtc(z, dateFrom), LocalDate.StartUtc(z, dateTo));
    CutSources(rows, MAX_ENTRIES + 1);
    SortIsPermutation(ByStart(idLe), rows.First(MAX_ENTRIES + 1).All());
    var entries := Sort(ByStart(idLe), rows.First(MAX_ENTRIES + 1).All());
    assert |multiset(entries)| == |entries|;
    CutShows(idLe, rows);
  }

  function OnDates(z: Zone, s: seq<Entry>, dateFrom: int, dateTo: int): seq<Entry> {
    Filter((e: Entry) => dateFrom <= CivilCalendar.DayOf(Local(z, e.startsAt)) < dateTo, s)
  }

  /** In zones whose change is clear of both midnights, the queries range over exactly the entries
      whose local date is from `dateFrom` up to but not including `dateTo`. */
  lemma RangeIsDates(z: Zone, s: seq<Entry>, dateFrom: int, dateTo: int)
    requires z.Whole(CivilCalendar.SECOND) && LocalDate.MidnightClear(z, dateFrom) && LocalDate.MidnightClear(z, dateTo)
    ensures Within(s, LocalDate.StartUtc(z, dateFrom), LocalDate.StartUtc(z, dateTo)) == OnDates(z, s, dateFrom, dateTo)
  {
    var from, to := LocalDate.StartUtc(z, dateFrom), LocalDate.StartUtc(z, dateTo);
    forall e | e in s
      ensures (from <= e.startsAt < to) == (dateFrom <= CivilCalendar.DayOf(Local(z, e.startsAt)) < dateTo)
    {
      LocalDate.RangeHoldsItsDates(z, dateFrom, dateTo, e.startsAt);
    }
    FiltersAgree((e: Entry) => from <= e.startsAt < to,
                 (e: Entry) => dateFrom <= CivilCalendar.DayOf(Local(z, e.startsAt)) < dateTo, s);
  }

  // ----- ties ordered differently by the database -----

  lemma {:induction false} InsertFirst(x: int, s: seq<int>)
    requires Sorted(AtMost(), [x] + s)
    ensures Insert(AtMost(), x, s) == [x] + s
  {
    assert s != [] ==> AtMost()(([x] + s)[0], ([x] + s)[1]);
  }

  lemma {:induction false} InsertTimes(idLe: Order<string>, x: Entry, s: seq<Entry>)
    requires Sorted(AtMost(), Times(s))
    ensures Times(Insert(ByStart(idLe), x, s)) == Insert(AtMost(), x.startsAt, Times(s))
    decreases |s|
  {
    if s == [] {
    } else {
      assert Times(s) == [s[0].startsAt] + Times(s[1..]);
      assert Sorted(AtMost(), Times(s[1..])) by {
        assert forall i :: 0 <= i < |s| - 1 ==> Times(s[1..])[i] == Times(s)[i + 1];
      }
      InsertTimes(idLe, x, s[1..]);
      if ByStart(idLe)(x, s[0]) {
        assert Times([x] + s) == [x.startsAt] + Times(s);
      } else {
        var rest := Insert(ByStart(idLe), x, s[1..]);
        assert Times([s[0]] + rest) == [s[0].startsAt] + Times(rest);
        if x.startsAt == s[0].startsAt {
          assert Sorted(AtMost(), [x.startsAt] + Times(s[1..]));
          InsertFirst(x.startsAt, Times(s[1..]));
        }
      }
    }
  }

  lemma {:induction false} SortTimes(idLe: Order<string>, s: seq<Entry>)
    ensures Times(Sort(ByStart(idLe), s)) == Sort(AtMost(), Times(s))
    decreases |s|
  {
    if s != [] {
      SortTimes(idLe, s[1..]);
      SortSorts(AtMost(), Times(s[1..]));
      SortIsPermutation(AtMost(), Times(s[1..]));
      InsertTimes(idLe, s[0], Sort(ByStart(idLe), s[1..]));
      assert Times(s)[1..] == Times(s[1..]) && Times(s)[0] == s[0].startsAt;
    }
  }

  lemma TimesOfTake(s: seq<Entry>, n: nat)
    ensures Times(Take(s, n)) == Take(Times(s), n)
  {
  }

  lemma TimesOfAll(s: Sources)
    ensures Times(s.All()) == Times(s.events) + Times(s.tasks) + Times(s.reminders)
  {
  }

  /** Even when the database breaks ties differently from the comparator, the start times shown are
      those of the first 500. */
  lemma TimesAreRightWhateverTheTies(idLe: Order<string>, s: Sources)
    requires Sorted(AtMost(), Times(s.events)) && Sorted(AtMost(), Times(s.tasks)) &&
             Sorted(AtMost(), Times(s.reminders))
    ensures Times(Take(Sort(ByStart(idLe), s.First(MAX_ENTRIES + 1).All()), MAX_ENTRIES)) ==
            Take(Sort(AtMost(), Times(s.All())), MAX_ENTRIES)
  {
    var n := MAX_ENTRIES + 1;
    var f := s.First(n);
    var e, t, r := Times(s.events), Times(s.tasks), Times(s.reminders);
    SortTimes(idLe, f.All());
    TimesOfAll(s);
    TimesOfAll(f);
    TimesOfTake(s.events, n);
    TimesOfTake(s.tasks, n);
    TimesOfTake(s.reminders, n);
    SortedCutsCleanly(AtMost(), e, n);
    SortedCutsCleanly(AtMost(), t, n);
    SortedCutsCleanly(AtMost(), r, n);
    CutSourcesAgree(AtMost(), e, t, r, n);
    TakeTwice(Sort(AtMost(), Times(f.All())), MAX_ENTRIES, n);
    TakeTwice(Sort(AtMost(), e + t + r), MAX_ENTRIES, n);
    TimesOfTake(Sort(ByStart(idLe), f.All()), MAX_ENTRIES);
  }
}
