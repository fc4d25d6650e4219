/** Message history by keyset pages, and the unread counter. */
module Messenger {
  import opened Basics
  import opened Sorting

  type Id = string

  datatype Message = Message(id: Id, conversation: Id, sender: Id, createdAt: int, deleted: bool)

  datatype Query = Query(limit: nat, beforeId: Option<Id>, afterId: Option<Id>)

  datatype Page = Page(items: seq<Message>, hasMore: bool, nextCursor: Option<Id>)

  datatype Refusal = BadRequest | NotFound

  predicate Precedes(a: Message, b: Message) {
    a.createdAt < b.createdAt || (a.createdAt == b.createdAt && Less(a.id, b.id))
  }

  function Ascending(): Order<Message> {
    (a: Message, b: Message) => a.createdAt < b.createdAt || (a.createdAt == b.createdAt && LessOrEqual(a.id, b.id))
  }

  function Descending(): Order<Message> {
    (a: Message, b: Message) => Ascending()(b, a)
  }

  function Reverse<T>(s: seq<T>): seq<T> {
    seq(|s|, i requires 0 <= i < |s| => s[|s| - 1 - i])
  }

  /** findMany: filter, order, take. */
  function FindMany(table: seq<Message>, where_: Message -> bool, order: Order<Message>, take: nat): seq<Message> {
    Take(Sort(order, Filter(where_, table)), take)
  }

  function FindFirst(table: seq<Message>, conversation: Id, id: Id): Option<Message> {
    var found := Filter((m: Message) => m.conversation == conversation && m.id == id, table);
    if found == [] then None else Some(found[0])
  }

  function InConversation(conversation: Id): Message -> bool {
    (m: Message) => m.conversation == conversation
  }

  function OlderThan(conversation: Id, cursor: Message): Message -> bool {
    (m: Message) => m.conversation == conversation && Precedes(m, cursor)
  }

  function NewerThan(conversation: Id, cursor: Message): Message -> bool {
    (m: Message) => m.conversation == conversation && Precedes(cursor, m)
  }

  function FirstId(items: seq<Message>): Option<Id> {
    if items == [] then None else Some(items[0].id)
  }

  /** A page is returned oldest first, and its cursor is its oldest item. */
  function PageOf(messages: seq<Message>, limit: nat, after: bool): Page {
    var pageItems := if after then messages else Reverse(messages);
    Page(pageItems, |messages| == limit, FirstId(pageItems))
  }

  function GetMessages(table: seq<Message>, conversation: Id, q: Query): Result<Page, Refusal> {
    if q.beforeId.Some? && q.afterId.Some? then Err(BadRequest)
    else
      var cursorId := if q.beforeId.Some? then q.beforeId else q.afterId;
      var cursor := if cursorId.Some? then FindFirst(table, conversation, cursorId.value) else None;
      if cursorId.Some? && cursor.None? then Err(NotFound)
      else
        var filter := if cursor.None? then InConversation(conversation)
                      else if q.afterId.Some? then NewerThan(conversation, cursor.value)
                      else OlderThan(conversation, cursor.value);
        var messages := FindMany(table, filter, if q.afterId.Some? then Ascending() else Descending(), q.limit);
        Ok(PageOf(messages, q.limit, q.afterId.Some?))
  }

  // ----- the history -----

  /** The primary key: one row per id. */
  ghost predicate Keyed(table: seq<Message>) {
    && (forall x, y :: x in table && y in table && x.id == y.id ==> x == y)
    && (forall x :: multiset(table)[x] <= 1)
  }

  /** All messages of a conversation, oldest first. */
  function History(table: seq<Message>, conversation: Id): seq<Message> {
    Sort(Ascending(), Filter(InConversation(conversation), table))
  }

  lemma OrdersArePreorders()
    ensures TotalPreorder(Ascending()) && TotalPreorder(Descending())
  {
    var le := Ascending();
    forall a: Message, b: Message
      ensures le(a, b) || le(b, a)
    {
      LexIsTotal(CharOrder(), a.id, b.id);
    }
    forall a: Message, b: Message, c: Message | le(a, b) && le(b, c)
      ensures le(a, c)
    {
      if Less(a.id, b.id) && Less(b.id, c.id) {
        LexIsTransitive(CharOrder(), a.id, b.id, c.id);
      }
    }
    DescendingIsPreorder();
  }

  lemma DescendingIsPreorder()
    requires TotalPreorder(Ascending())
    ensures TotalPreorder(Descending())
  {
    var le, ge := Ascending(), Descending();
    forall a: Message, b: Message
      ensures ge(a, b) || ge(b, a)
    {
      assert le(b, a) || le(a, b);
    }
    forall a: Message, b: Message, c: Message | ge(a, b) && ge(b, c)
      ensures ge(a, c)
    {
      assert le(c, b) && le(b, a);
    }
  }

  lemma SamePlaceSameRow(table: seq<Message>, a: Message, b: Message)
    requires Keyed(table) && a in table && b in table
    ensures Ascending()(a, b) && Ascending()(b, a) ==> a == b
    ensures a != b && Ascending()(a, b) ==> Precedes(a, b)
  {
    LexIsTotal(CharOrder(), a.id, b.id);
  }

  lemma HistoryCounts(table: seq<Message>, conversation: Id, x: Message)
    ensures multiset(History(table, conversation))[x] == if x.conversation == conversation then multiset(table)[x]
            else 0
    ensures x in History(table, conversation) <==> x in table && x.conversation == conversation
  {
    OrdersArePreorders();
    var rows := Filter(InConversation(conversation), table);
    SortSorts(Ascending(), rows);
    SortIsPermutation(Ascending(), rows);
    FilterCounts(InConversation(conversation), table, x);
    assert x in History(table, conversation) <==> x in multiset(History(table, conversation));
    assert x in table <==> x in multiset(table);
  }

  /** The history holds every message of the conversation once, in strict (createdAt, id) order. */
  lemma HistoryIsStrict(table: seq<Message>, conversation: Id, i: nat, j: nat)
    requires Keyed(table) && i < j < |History(table, conversation)|
    ensures Precedes(History(table, conversation)[i], History(table, conversation)[j])
  {
    var h := History(table, conversation);
    OrdersArePreorders();
    SortSorts(Ascending(), Filter(InConversation(conversation), table));
    SortIsPermutation(Ascending(), Filter(InConversation(conversation), table));
    HistoryCounts(table, conversation, h[i]);
    HistoryCounts(table, conversation, h[j]);
    TwiceCounts(h, i, j);
    SamePlaceSameRow(table, h[i], h[j]);
  }

  lemma TwiceCounts<T>(s: seq<T>, i: nat, j: nat)
    requires i < j < |s|
    ensures s[i] == s[j] ==> multiset(s)[s[i]] >= 2
  {
    assert s == s[..j] + [s[j]] + s[j + 1..];
    assert s[i] in s[..j];
    assert s[i] in multiset(s[..j]);
  }

  // ----- queries are cuts of the history -----

  lemma QueryCounts(table: seq<Message>, conversation: Id, p: Message -> bool)
    requires forall m :: p(m) ==> m.conversation == conversation
    ensures multiset(Filter(p, table)) == multiset(Filter(p, History(table, conversation)))
  {
    forall x: Message
      ensures multiset(Filter(p, table))[x] == multiset(Filter(p, History(table, conversation)))[x]
    {
      FilterCounts(p, table, x);
      FilterCounts(p, History(table, conversation), x);
      HistoryCounts(table, conversation, x);
    }
  }

  lemma ReverseKeeps<T>(s: seq<T>)
    ensures multiset(Reverse(s)) == multiset(s)
    decreases |s|
  {
    if s != [] {
      var n := |s| - 1;
      ReverseKeeps(s[..n]);
      assert s == s[..n] + [s[n]];
      assert Reverse(s) == [s[n]] + Reverse(s[..n]);
    }
  }

  lemma ReverseSorts(s: seq<Message>)
    requires Sorted(Ascending(), s)
    ensures Sorted(Descending(), Reverse(s))
  {
    var r := Reverse(s);
    forall i, j | 0 <= i < j < |r|
      ensures Descending()(r[i], r[j])
    {
      assert Ascending()(s[|s| - 1 - j], s[|s| - 1 - i]);
    }
  }

  /** Ordered ascending a query is the matching part of the history, descending its reverse. */
  lemma QueryIsFilteredHistory(table: seq<Message>, conversation: Id, p: Message -> bool)
    requires Keyed(table) && forall m :: p(m) ==> m.conversation == conversation
    ensures Sort(Ascending(), Filter(p, table)) == Filter(p, History(table, conversation))
    ensures Sort(Descending(), Filter(p, table)) == Reverse(Filter(p, History(table, conversation)))
  {
    var rows, cut := Filter(p, table), Filter(p, History(table, conversation));
    OrdersArePreorders();
    SortSorts(Ascending(), rows);
    SortIsPermutation(Ascending(), rows);
    SortSorts(Descending(), rows);
    SortIsPermutation(Descending(), rows);
    SortSorts(Ascending(), Filter(InConversation(conversation), table));
    SortIsPermutation(Ascending(), Filter(InConversation(conversation), table));
    FilterKeepsSorted(Ascending(), p, History(table, conversation));
    QueryCounts(table, conversation, p);
    ReverseKeeps(cut);
    ReverseSorts(cut);
    var up, down := Sort(Ascending(), rows), Sort(Descending(), rows);
    forall x, y | x in rows && y in rows && Ascending()(x, y) && Ascending()(y, x)
      ensures x == y
    {
      FilterMembers(p, table, x);
      FilterMembers(p, table, y);
      SamePlaceSameRow(table, x, y);
    }
    forall x
      ensures (x in up ==> x in rows) && (x in down ==> x in rows)
    {
      SameElements(up, rows, x);
      SameElements(down, rows, x);
    }
    SortedIsUnique(Ascending(), up, cut);
    SortedIsUnique(Descending(), down, Reverse(cut));
  }

  lemma {:induction false} FilterAll<T>(p: T -> bool, s: seq<T>)
    requires forall x :: x in s ==> p(x)
    ensures Filter(p, s) == s
    decreases |s|
  {
    if s != [] {
      FilterAll(p, s[1..]);
      assert s == [s[0]] + s[1..];
    }
  }

  lemma {:induction false} FilterNone<T>(p: T -> bool, s: seq<T>)
    requires forall x :: x in s ==> !p(x)
    ensures Filter(p, s) == []
    decreases |s|
  {
    if s != [] {
      FilterNone(p, s[1..]);
    }
  }

  lemma CutAt<T>(p: T -> bool, s: seq<T>, i: nat)
    requires i <= |s| && (forall k :: 0 <= k < i ==> p(s[k])) && (forall k :: i <= k < |s| ==> !p(s[k]))
    ensures Filter(p, s) == s[..i]
  {
    assert s == s[..i] + s[i..];
    FilterSplits(p, s[..i], s[i..]);
    FilterAll(p, s[..i]);
    FilterNone(p, s[i..]);
  }

  lemma CutAfter<T>(p: T -> bool, s: seq<T>, i: nat)
    requires i <= |s| && (forall k :: 0 <= k < i ==> !p(s[k])) && (forall k :: i <= k < |s| ==> p(s[k]))
    ensures Filter(p, s) == s[i..]
  {
    assert s == s[..i] + s[i..];
    FilterSplits(p, s[..i], s[i..]);
    FilterNone(p, s[..i]);
    FilterAll(p, s[i..]);
  }

  /** The cursors cut the history before and after the cursor's message. */
  lemma CursorsCut(table: seq<Message>, conversation: Id, i: nat)
    requires Keyed(table) && i < |History(table, conversation)|
    ensures Filter(OlderThan(conversation, History(table, conversation)[i]), History(table, conversation)) ==
            History(table, conversation)[..i]
    ensures Filter(NewerThan(conversation, History(table, conversation)[i]), History(table, conversation)) ==
            History(table, conversation)[i + 1..]
  {
    var h := History(table, conversation);
    forall k | 0 <= k < |h|
      ensures h[k].conversation == conversation
      ensures Precedes(h[k], h[i]) <==> k < i
      ensures Precedes(h[i], h[k]) <==> i < k
    {
      HistoryCounts(table, conversation, h[k]);
      LexIsTotal(CharOrder(), h[k].id, h[i].id);
      if k < i {
        HistoryIsStrict(table, conversation, k, i);
      } else {
        if i < k {
          HistoryIsStrict(table, conversation, i, k);
        }
      }
    }
    CutAt(OlderThan(conversation, h[i]), h, i);
    CutAfter(NewerThan(conversation, h[i]), h, i + 1);
  }

  lemma CursorIsFound(table: seq<Message>, conversation: Id, i: nat)
    requires Keyed(table) && i < |History(table, conversation)|
    ensures FindFirst(table, conversation, History(table, conversation)[i].id) == Some(History(table, conversation)[i])
  {
    var m := History(table, conversation)[i];
    var p := (x: Message) => x.conversation == conversation && x.id == m.id;
    HistoryCounts(table, conversation, m);
    FilterMembers(p, table, m);
    FilterMembers(p, table, Filter(p, table)[0]);
  }

  // ----- pages -----

  function Low(i: nat, limit: nat): nat {
    if i < limit then 0 else i - limit
  }

  function High(i: nat, limit: nat, n: nat): nat {
    if n - i < limit then n else i + limit
  }

  /** The page of up to `limit` messages that ends before position `i`. */
  function OlderPage(h: seq<Message>, i: nat, limit: nat): Page
    requires i <= |h|
  {
    Page(h[Low(i, limit)..i], limit <= i, FirstId(h[Low(i, limit)..i]))
  }

  /** The page of up to `limit` messages from position `i`. */
  function NewerPage(h: seq<Message>, i: nat, limit: nat): Page
    requires i <= |h|
  {
    Page(h[i..High(i, limit, |h|)], i + limit <= |h|, FirstId(h[i..High(i, limit, |h|)]))
  }

  lemma LastOfReverse<T>(s: seq<T>, n: nat)
    ensures |Take(Reverse(s), n)| == n <==> n <= |s|
    ensures Reverse(Take(Reverse(s), n)) == s[Low(|s|, n)..]
  {
  }

  lemma OlderSlice(h: seq<Message>, i: nat, limit: nat)
    requires i <= |h|
    ensures PageOf(Take(Reverse(h[..i]), limit), limit, false) == OlderPage(h, i, limit)
  {
    LastOfReverse(h[..i], limit);
    assert h[..i][Low(i, limit)..] == h[Low(i, limit)..i];
  }

  lemma NewerSlice(h: seq<Message>, i: nat, limit: nat)
    requires i <= |h|
    ensures PageOf(Take(h[i..], limit), limit, true) == NewerPage(h, i, limit)
  {
    assert Take(h[i..], limit) == h[i..High(i, limit, |h|)];
  }

  lemma HistoryIsOneConversation(table: seq<Message>, conversation: Id)
    ensures forall x :: x in History(table, conversation) ==> x.conversation == conversation
  {
    forall x | x in History(table, conversation)
      ensures x.conversation == conversation
    {
      HistoryCounts(table, conversation, x);
    }
  }

  lemma NewestPage(table: seq<Message>, conversation: Id, limit: nat)
    requires Keyed(table)
    ensures
      var h := History(table, conversation);
      GetMessages(table, conversation, Query(limit, None, None)) == Ok(OlderPage(h, |h|, limit))
  {
    var h := History(table, conversation);
    QueryIsFilteredHistory(table, conversation, InConversation(conversation));
    HistoryIsOneConversation(table, conversation);
    FilterAll(InConversation(conversation), h);
    assert h[..|h|] == h;
    OlderSlice(h, |h|, limit);
  }

  lemma PageBefore(table: seq<Message>, conversation: Id, limit: nat, i: nat)
    requires Keyed(table) && i < |History(table, conversation)|
    ensures
      var h := History(table, conversation);
      GetMessages(table, conversation, Query(limit, Some(h[i].id), None)) == Ok(OlderPage(h, i, limit))
  {
    var h := History(table, conversation);
    var p := OlderThan(conversation, h[i]);
    CursorIsFound(table, conversation, i);
    assert FindMany(table, p, Descending(), limit) == Take(Reverse(h[..i]), limit) by {
      CursorsCut(table, conversation, i);
      QueryIsFilteredHistory(table, conversation, p);
    }
    OlderSlice(h, i, limit);
  }

  lemma PageAfter(table: seq<Message>, conversation: Id, limit: nat, i: nat)
    requires Keyed(table) && i < |History(table, conversation)|
    ensures
      var h := History(table, conversation);
      GetMessages(table, conversation, Query(limit, None, Some(h[i].id))) == Ok(NewerPage(h, i + 1, limit))
  {
    var h := History(table, conversation);
    var p := NewerThan(conversation, h[i]);
    CursorIsFound(table, conversation, i);
    assert FindMany(table, p, Ascending(), limit) == Take(h[i + 1..], limit) by {
      CursorsCut(table, conversation, i);
      QueryIsFilteredHistory(table, conversation, p);
    }
    NewerSlice(h, i + 1, limit);
  }

  /** The cursor that stands for position `i`; the end of the history needs none. */
  function CursorAt(h: seq<Message>, i: nat): Option<Id> {
    if i < |h| then Some(h[i].id) else None
  }

  lemma PagesAreSlices(table: seq<Message>, conversation: Id, limit: nat, i: nat)
    requires Keyed(table) && i <= |History(table, conversation)|
    ensures
      var h := History(table, conversation);
      GetMessages(table, conversation, Query(limit, CursorAt(h, i), None)) == Ok(OlderPage(h, i, limit))
  {
    if i < |History(table, conversation)| {
      PageBefore(table, conversation, limit, i);
    } else {
      NewestPage(table, conversation, limit);
    }
  }

  /** A cursor that is not a message of the conversation, or two cursors, are refused. */
  lemma BadCursorsAreRefused(table: seq<Message>, conversation: Id, limit: nat, id: Id, other: Id)
    requires forall m :: m in table && m.conversation == conversation ==> m.id != id
    ensures GetMessages(table, conversation, Query(limit, Some(id), None)) == Err(NotFound)
    ensures GetMessages(table, conversation, Query(limit, None, Some(id))) == Err(NotFound)
    ensures GetMessages(table, conversation, Query(limit, Some(id), Some(other))) == Err(BadRequest)
  {
    FilterNone((x: Message) => x.conversation == conversation && x.id == id, table);
  }

  // ----- walking back through the history -----

  type Ask = Option<Id> -> Result<Page, Refusal>

  function AskBefore(table: seq<Message>, conversation: Id, limit: nat): Ask {
    cursor => GetMessages(table, conversation, Query(limit, cursor, None))
  }

  /** The pages a reader gets by following `beforeId = nextCursor` until there is no more. */
  ghost predicate Walk(ask: Ask, beforeId: Option<Id>, pages: seq<Page>)
    decreases |pages|
  {
    pages != [] && ask(beforeId) == Ok(pages[0]) &&
    if pages[0].hasMore then Walk(ask, pages[0].nextCursor, pages[1..]) else |pages| == 1
  }

  /** The pages put back in order, the last one fetched first. */
  function Joined(pages: seq<Page>): seq<Message> {
    if pages == [] then [] else Joined(pages[1..]) + pages[0].items
  }

  /** The same walk read off the history. */
  ghost predicate SliceWalk(h: seq<Message>, limit: nat, i: nat, pages: seq<Page>)
    requires i <= |h| && limit > 0
    decreases i
  {
    pages != [] && pages[0] == OlderPage(h, i, limit) &&
    if limit <= i then SliceWalk(h, limit, i - limit, pages[1..]) else |pages| == 1
  }

  ghost predicate AnswersOlder(ask: Ask, h: seq<Message>, limit: nat) {
    forall k :: 0 <= k <= |h| ==> ask(CursorAt(h, k)) == Ok(OlderPage(h, k, limit))
  }

  lemma {:induction false} WalkIsSliceWalk(ask: Ask, h: seq<Message>, limit: nat, i: nat, pages: seq<Page>)
    requires limit > 0 && i <= |h| && AnswersOlder(ask, h, limit)
    ensures Walk(ask, CursorAt(h, i), pages) <==> SliceWalk(h, limit, i, pages)
    decreases i
  {
    assert ask(CursorAt(h, i)) == Ok(OlderPage(h, i, limit));
    if limit <= i {
      assert OlderPage(h, i, limit).nextCursor == CursorAt(h, i - limit);
      if pages != [] {
        WalkIsSliceWalk(ask, h, limit, i - limit, pages[1..]);
      }
    }
  }

  lemma {:induction false} SliceWalkJoins(h: seq<Message>, limit: nat, i: nat, pages: seq<Page>)
    requires limit > 0 && i <= |h| && SliceWalk(h, limit, i, pages)
    ensures Joined(pages) == h[..i]
    decreases i
  {
    if limit <= i {
      SliceWalkJoins(h, limit, i - limit, pages[1..]);
      assert h[..i] == h[..i - limit] + h[i - limit..i];
    } else {
      assert pages[1..] == [] && Joined(pages[1..]) == [];
    }
  }

  /** One page more than `n` holds full pages. */
  predicate PageCount(pages: int, limit: nat, n: nat) {
    (pages - 1) * limit <= n < pages * limit
  }

  lemma {:induction false} SliceWalkEnds(h: seq<Message>, limit: nat, i: nat) returns (pages: seq<Page>)
    requires limit > 0 && i <= |h|
    ensures SliceWalk(h, limit, i, pages) && PageCount(|pages|, limit, i)
    decreases i
  {
    if limit <= i {
      var rest := SliceWalkEnds(h, limit, i - limit);
      pages := [OlderPage(h, i, limit)] + rest;
      assert pages[1..] == rest;
      assert |rest| * limit == (|rest| - 1) * limit + limit && |pages| * limit == |rest| * limit + limit;
    } else {
      pages := [OlderPage(h, i, limit)];
    }
  }

  /** Following `nextCursor` back from the newest page ends, after one page more than the history
      holds full pages, and whatever it returned is the whole history, each message once. */
  lemma WalkVisitsHistoryOnce(table: seq<Message>, conversation: Id, limit: nat, pages: seq<Page>)
    requires Keyed(table) && limit > 0
    ensures
      var ask, h := AskBefore(table, conversation, limit), History(table, conversation);
      (exists walk :: Walk(ask, None, walk) && PageCount(|walk|, limit, |h|)) &&
      (Walk(ask, None, pages) ==> Joined(pages) == h)
  {
    var ask, h := AskBefore(table, conversation, limit), History(table, conversation);
    forall k | 0 <= k <= |h|
      ensures ask(CursorAt(h, k)) == Ok(OlderPage(h, k, limit))
    {
      PagesAreSlices(table, conversation, limit, k);
    }
    var walk := SliceWalkEnds(h, limit, |h|);
    WalkIsSliceWalk(ask, h, limit, |h|, walk);
    WalkIsSliceWalk(ask, h, limit, |h|, pages);
    if SliceWalk(h, limit, |h|, pages) {
      SliceWalkJoins(h, limit, |h|, pages);
      assert h[..|h|] == h;
    }
  }

  // ----- walking forward -----

  function AskAfter(table: seq<Message>, conversation: Id, limit: nat): Ask {
    cursor => GetMessages(table, conversation, Query(limit, None, cursor))
  }

  /** The pages past a message, each continued from the last item of the one before. */
  ghost predicate ForwardWalk(ask: Ask, afterId: Id, pages: seq<Page>)
    decreases |pages|
  {
    pages != [] && ask(Some(afterId)) == Ok(pages[0]) &&
    if pages[0].hasMore then
      pages[0].items != [] && ForwardWalk(ask, pages[0].items[|pages[0].items| - 1].id, pages[1..])
    else |pages| == 1
  }

  function Appended(pages: seq<Page>): seq<Message> {
    if pages == [] then [] else pages[0].items + Appended(pages[1..])
  }

  ghost predicate ForwardSlices(h: seq<Message>, limit: nat, i: nat, pages: seq<Page>)
    requires i <= |h| && limit > 0
    decreases |h| - i
  {
    pages != [] && pages[0] == NewerPage(h, i, limit) &&
    if i + limit <= |h| then ForwardSlices(h, limit, i + limit, pages[1..]) else |pages| == 1
  }

  lemma LastOfPage(h: seq<Message>, i: nat, limit: nat)
    requires limit > 0 && i + limit <= |h|
    ensures
      var items := NewerPage(h, i, limit).items;
      |items| == limit && items[|items| - 1] == h[i + limit - 1]
  {
  }

  ghost predicate AnswersNewer(ask: Ask, h: seq<Message>, limit: nat) {
    forall k :: 0 <= k < |h| ==> ask(Some(h[k].id)) == Ok(NewerPage(h, k + 1, limit))
  }

  lemma ForwardStep(ask: Ask, h: seq<Message>, limit: nat, i: nat, pages: seq<Page>)
    requires limit > 0 && i < |h| && ask(Some(h[i].id)) == Ok(NewerPage(h, i + 1, limit))
    ensures ForwardWalk(ask, h[i].id, pages) <==>
            (pages != [] && pages[0] == NewerPage(h, i + 1, limit) &&
             if i + 1 + limit <= |h| then ForwardWalk(ask, h[i + limit].id, pages[1..]) else |pages| == 1)
  {
    if i + 1 + limit <= |h| {
      LastOfPage(h, i + 1, limit);
    }
  }

  lemma {:induction false} ForwardWalkIsSlices(ask: Ask, h: seq<Message>, limit: nat, i: nat, pages: seq<Page>)
    requires limit > 0 && i < |h| && AnswersNewer(ask, h, limit)
    ensures ForwardWalk(ask, h[i].id, pages) <==> ForwardSlices(h, limit, i + 1, pages)
    decreases |pages|
  {
    assert ask(Some(h[i].id)) == Ok(NewerPage(h, i + 1, limit));
    ForwardStep(ask, h, limit, i, pages);
    if i + 1 + limit <= |h| && pages != [] {
      ForwardWalkIsSlices(ask, h, limit, i + limit, pages[1..]);
    }
  }

  lemma {:induction false} ForwardSlicesEnd(h: seq<Message>, limit: nat, i: nat) returns (pages: seq<Page>)
    requires limit > 0 && i <= |h|
    ensures ForwardSlices(h, limit, i, pages) && PageCount(|pages|, limit, |h| - i)
    decreases |h| - i
  {
    if i + limit <= |h| {
      var rest := ForwardSlicesEnd(h, limit, i + limit);
      pages := [NewerPage(h, i, limit)] + rest;
      assert pages[1..] == rest;
      assert |rest| * limit == (|rest| - 1) * limit + limit && |pages| * limit == |rest| * limit + limit;
    } else {
      pages := [NewerPage(h, i, limit)];
    }
  }

  lemma {:induction false} SlicesAppend(h: seq<Message>, limit: nat, i: nat, pages: seq<Page>)
    requires limit > 0 && i <= |h| && ForwardSlices(h, limit, i, pages)
    ensures Appended(pages) == h[i..]
    decreases |h| - i
  {
    if i + limit <= |h| {
      SlicesAppend(h, limit, i + limit, pages[1..]);
      assert h[i..] == h[i..i + limit] + h[i + limit..];
    } else {
      assert pages[1..] == [] && Appended(pages[1..]) == [];
    }
  }

  lemma AfterAnswersNewer(table: seq<Message>, conversation: Id, limit: nat)
    requires Keyed(table)
    ensures AnswersNewer(AskAfter(table, conversation, limit), History(table, conversation), limit)
  {
    var ask, h := AskAfter(table, conversation, limit), History(table, conversation);
    forall k | 0 <= k < |h|
      ensures ask(Some(h[k].id)) == Ok(NewerPage(h, k + 1, limit))
    {
      PageAfter(table, conversation, limit, k);
    }
  }

  /** Walking forward from a message this way ends, after one page more than what follows fills, and
      returns all that follows the message, each message once. */
  lemma ForwardWalkVisitsRest(table: seq<Message>, conversation: Id, limit: nat, i: nat, pages: seq<Page>)
    requires Keyed(table) && limit > 0 && i < |History(table, conversation)|
    ensures
      var ask, h := AskAfter(table, conversation, limit), History(table, conversation);
      (exists walk :: ForwardWalk(ask, h[i].id, walk) && PageCount(|walk|, limit, |h| - i - 1)) &&
      (ForwardWalk(ask, h[i].id, pages) ==> Appended(pages) == h[i + 1..])
  {
    var ask, h := AskAfter(table, conversation, limit), History(table, conversation);
    AfterAnswersNewer(table, conversation, limit);
    var walk := ForwardSlicesEnd(h, limit, i + 1);
    ForwardWalkIsSlices(ask, h, limit, i, walk);
    ForwardWalkIsSlices(ask, h, limit, i, pages);
    if ForwardSlices(h, limit, i + 1, pages) {
      SlicesAppend(h, limit, i + 1, pages);
    }
  }

  lemma NextSliceOverlaps(h: seq<Message>, limit: nat, i: nat)
    requires limit > 0 && i + limit <= |h|
    ensures NewerPage(h, i, limit).nextCursor == Some(h[i].id)
    ensures NewerPage(h, i, limit).items[1..] <= NewerPage(h, i + 1, limit).items
  {
    assert h[i..i + limit][1..] == h[i + 1..High(i + 1, limit, |h|)][..limit - 1];
  }

  /** Continuing forward from `nextCursor` instead reads again all but the first message of the page
      it came with: the cursor of a page is its oldest item in both directions. */
  lemma ForwardCursorReadsAgain(table: seq<Message>, conversation: Id, limit: nat, i: nat)
    requires Keyed(table) && limit > 0 && i + 1 + limit <= |History(table, conversation)|
    ensures
      var h := History(table, conversation);
      var page, next := NewerPage(h, i + 1, limit), NewerPage(h, i + 2, limit);
      GetMessages(table, conversation, Query(limit, None, Some(h[i].id))) == Ok(page) &&
      GetMessages(table, conversation, Query(limit, None, page.nextCursor)) == Ok(next) &&
      page.items[1..] <= next.items
  {
    PageAfter(table, conversation, limit, i);
    PageAfter(table, conversation, limit, i + 1);
    NextSliceOverlaps(History(table, conversation), limit, i + 1);
  }

  /** The pages past a message when each is continued from the page's own cursor. */
  ghost predicate CursorWalk(ask: Ask, afterId: Id, pages: seq<Page>)
    decreases |pages|
  {
    pages != [] && ask(Some(afterId)) == Ok(pages[0]) &&
    if pages[0].hasMore then pages[0].nextCursor.Some? && CursorWalk(ask, pages[0].nextCursor.value, pages[1..])
    else |pages| == 1
  }

  ghost predicate CursorSlices(h: seq<Message>, limit: nat, i: nat, pages: seq<Page>)
    requires i <= |h| && limit > 0
    decreases |h| - i
  {
    pages != [] && pages[0] == NewerPage(h, i, limit) &&
    if i + limit <= |h| then CursorSlices(h, limit, i + 1, pages[1..]) else |pages| == 1
  }

  lemma CursorStep(ask: Ask, h: seq<Message>, limit: nat, i: nat, pages: seq<Page>)
    requires limit > 0 && i < |h| && ask(Some(h[i].id)) == Ok(NewerPage(h, i + 1, limit))
    ensures CursorWalk(ask, h[i].id, pages) <==>
            (pages != [] && pages[0] == NewerPage(h, i + 1, limit) &&
             if i + 1 + limit <= |h| then CursorWalk(ask, h[i + 1].id, pages[1..]) else |pages| == 1)
  {
  }

  lemma {:induction false} CursorWalkIsSlices(ask: Ask, h: seq<Message>, limit: nat, i: nat, pages: seq<Page>)
    requires limit > 0 && i < |h| && AnswersNewer(ask, h, limit)
    ensures CursorWalk(ask, h[i].id, pages) <==> CursorSlices(h, limit, i + 1, pages)
    decreases |pages|
  {
    CursorStep(ask, h, limit, i, pages);
    if i + 1 + limit <= |h| && pages != [] {
      CursorWalkIsSlices(ask, h, limit, i + 1, pages[1..]);
    }
  }

  lemma {:induction false} CursorSlicesEnd(h: seq<Message>, limit: nat, i: nat) returns (pages: seq<Page>)
    requires limit > 0 && i <= |h|
    ensures CursorSlices(h, limit, i, pages)
    decreases |h| - i
  {
    pages := [NewerPage(h, i, limit)];
    if i + limit <= |h| {
      var rest := CursorSlicesEnd(h, limit, i + 1);
      pages := pages + rest;
      assert pages[1..] == rest;
    }
  }

  /** Each full page but the last adds all its items although only one of them is new. */
  lemma {:induction false} CursorSlicesAppend(h: seq<Message>, limit: nat, i: nat, pages: seq<Page>)
    requires limit > 0 && i <= |h| && CursorSlices(h, limit, i, pages)
    ensures |Appended(pages)| >= |h| - i && (limit > 1 && i + limit <= |h| ==> |Appended(pages)| > |h| - i)
    ensures limit == 1 || i + limit > |h| ==> Appended(pages) == h[i..]
    decreases |h| - i
  {
    if i + limit <= |h| {
      CursorSlicesAppend(h, limit, i + 1, pages[1..]);
      assert h[i..] == h[i..i + 1] + h[i + 1..];
    } else {
      assert pages[1..] == [] && Appended(pages[1..]) == [];
    }
  }

  /** Walking forward by `nextCursor` ends too, and returns exactly what follows the message if and only if
      the page size is one or nothing fills a page; otherwise it returns more messages than follow. */
  lemma NextCursorForwardExactly(table: seq<Message>, conversation: Id, limit: nat, i: nat, pages: seq<Page>)
    requires Keyed(table) && limit > 0 && i < |History(table, conversation)|
    ensures
      var ask, h := AskAfter(table, conversation, limit), History(table, conversation);
      (exists walk :: CursorWalk(ask, h[i].id, walk)) &&
      (CursorWalk(ask, h[i].id, pages) ==>
         (Appended(pages) == h[i + 1..] <==> limit == 1 || i + 1 + limit > |h|))
  {
    var ask, h := AskAfter(table, conversation, limit), History(table, conversation);
    AfterAnswersNewer(table, conversation, limit);
    var walk := CursorSlicesEnd(h, limit, i + 1);
    CursorWalkIsSlices(ask, h, limit, i, walk);
    CursorWalkIsSlices(ask, h, limit, i, pages);
    if CursorSlices(h, limit, i + 1, pages) {
      CursorSlicesAppend(h, limit, i + 1, pages);
    }
  }

  // ----- the unread counter -----

  datatype Mark = Mark(lastReadAt: int, lastReadMessageId: Option<Id>)

  function Unread(user: Id): Message -> bool {
    (m: Message) => m.sender != user && !m.deleted
  }

  function PastMark(conversation: Id, user: Id, mark: Option<Mark>): Message -> bool {
    (m: Message) =>
      m.conversation == conversation && m.sender != user && !m.deleted &&
      (mark.Some? ==>
         var lastId := if mark.value.lastReadMessageId.Some? then mark.value.lastReadMessageId.value else "";
         m.createdAt > mark.value.lastReadAt || (m.createdAt == mark.value.lastReadAt && Less(lastId, m.id)))
  }

  function UnreadCount(table: seq<Message>, conversation: Id, user: Id, mark: Option<Mark>): nat {
    |Filter(PastMark(conversation, user, mark), table)|
  }

  lemma {:induction false} FilterTwice<T>(p: T -> bool, q: T -> bool, r: T -> bool, s: seq<T>)
    requires forall x :: x in s ==> r(x) == (p(x) && q(x))
    ensures Filter(r, s) == Filter(q, Filter(p, s))
    decreases |s|
  {
    if s != [] {
      var rest := Filter(p, s[1..]);
      FilterTwice(p, q, r, s[1..]);
      assert s[0] in s && r(s[0]) == (p(s[0]) && q(s[0]));
      assert Filter(p, s) == if p(s[0]) then [s[0]] + rest else rest;
      assert ([s[0]] + rest)[1..] == rest;
    }
  }

  /** With a mark on the message at position `i`, what is unread is exactly what others sent after it
      and nobody deleted; with no mark, the whole history counts. */
  lemma UnreadIsTheRest(table: seq<Message>, conversation: Id, user: Id, i: nat)
    requires Keyed(table) && i <= |History(table, conversation)|
    ensures UnreadCount(table, conversation, user, None) == |Filter(Unread(user), History(table, conversation))|
    ensures
      var h := History(table, conversation);
      var mark := if i < |h| then Some(Mark(h[i].createdAt, Some(h[i].id))) else None;
      i < |h| ==> UnreadCount(table, conversation, user, mark) == |Filter(Unread(user), h[i + 1..])|
  {
    var h := History(table, conversation);
    forall x | x in h
      ensures x.conversation == conversation
    {
      HistoryCounts(table, conversation, x);
    }
    var all := PastMark(conversation, user, None);
    QueryCounts(table, conversation, all);
    SameSize(Filter(all, table), Filter(all, h));
    FiltersAgree(all, Unread(user), h);
    if i < |h| {
      var past := PastMark(conversation, user, Some(Mark(h[i].createdAt, Some(h[i].id))));
      QueryCounts(table, conversation, past);
      SameSize(Filter(past, table), Filter(past, h));
      FilterTwice(NewerThan(conversation, h[i]), Unread(user), past, h);
      CursorsCut(table, conversation, i);
    }
  }

  lemma SameSize<T>(a: seq<T>, b: seq<T>)
    requires multiset(a) == multiset(b)
    ensures |a| == |b|
  {
    assert |multiset(a)| == |multiset(b)|;
  }

  /** After reading up to a message, the counter equals the number of undeleted messages from others
      on the pages past it; those pages exist, for every page size. */
  lemma UnreadMatchesPages(table: seq<Message>, conversation: Id, user: Id, m: Message, limit: nat, pages: seq<Page>)
    requires Keyed(table) && m in table && m.conversation == conversation && limit > 0
    ensures exists walk :: ForwardWalk(AskAfter(table, conversation, limit), m.id, walk)
    ensures ForwardWalk(AskAfter(table, conversation, limit), m.id, pages) ==>
              UnreadCount(table, conversation, user, Some(Mark(m.createdAt, Some(m.id)))) ==
              |Filter(Unread(user), Appended(pages))|
  {
    HistoryCounts(table, conversation, m);
    var h := History(table, conversation);
    var i :| 0 <= i < |h| && h[i] == m;
    UnreadIsTheRest(table, conversation, user, i);
    ForwardWalkVisitsRest(table, conversation, limit, i, pages);
  }

  class ConversationStore {
    var messages: seq<Message>
    var marks: map<(Id, Id), Mark>

    ghost predicate Valid()
      reads this
    {
      Keyed(messages)
    }

    constructor ()
      ensures Valid() && messages == [] && marks == map[]
    {
      messages, marks := [], map[];
    }

    function Counter(conversation: Id, user: Id): nat
      reads this
    {
      UnreadCount(messages, conversation, user,
                  if (conversation, user) in marks then Some(marks[(conversation, user)]) else None)
    }

    /** Moves the caller's mark, forward or back, to the message. */
    method MarkRead(user: Id, conversation: Id, messageId: Id) returns (r: Option<Refusal>)
      requires Valid()
      modifies this
      ensures Valid() && messages == old(messages)
      ensures r.Some? <==> forall m :: m in messages && m.conversation == conversation ==> m.id != messageId
      ensures r.Some? ==> r.value == NotFound && marks == old(marks)
      ensures r.None? ==> forall m :: m in messages && m.id == messageId ==>
                marks == old(marks)[(conversation, user) := Mark(m.createdAt, Some(m.id))] &&
                Counter(conversation, user) ==
                  UnreadCount(messages, conversation, user, Some(Mark(m.createdAt, Some(m.id))))
    {
      var p := (m: Message) => m.conversation == conversation && m.id == messageId;
      var message := FindFirst(messages, conversation, messageId);
      if message.None? {
        forall m | m in messages && m.conversation == conversation
          ensures m.id != messageId
        {
          FilterMembers(p, messages, m);
        }
        return Some(NotFound);
      }
      FilterMembers(p, messages, message.value);
      marks := marks[(conversation, user) := Mark(message.value.createdAt, Some(message.value.id))];
      r := None;
    }
  }
}
