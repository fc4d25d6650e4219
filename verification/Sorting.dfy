/** Stable sorting, merging and cutting of sequences, and the order of strings. */
module Sorting {
  type Order<!T> = (T, T) -> bool

  ghost predicate TotalPreorder<T(!new)>(le: Order<T>) {
    && (forall x, y :: le(x, y) || le(y, x))
    && (forall x, y, z :: le(x, y) && le(y, z) ==> le(x, z))
  }

  ghost predicate Sorted<T>(le: Order<T>, s: seq<T>) {
    forall i, j :: 0 <= i < j < |s| ==> le(s[i], s[j])
  }

  function Insert<T>(le: Order<T>, x: T, s: seq<T>): seq<T> {
    if s == [] || le(x, s[0]) then [x] + s else [s[0]] + Insert(le, x, s[1..])
  }

  /** The stable sort: an element stays before the equals that follow it. */
  function Sort<T>(le: Order<T>, s: seq<T>): seq<T> {
    if s == [] then [] else Insert(le, s[0], Sort(le, s[1..]))
  }

  /** Merging prefers the left sequence among equals. */
  function Merge<T>(le: Order<T>, a: seq<T>, b: seq<T>): seq<T>
    decreases |a| + |b|
  {
    if a == [] then b
    else if b == [] then a
    else if le(a[0], b[0]) then [a[0]] + Merge(le, a[1..], b)
    else [b[0]] + Merge(le, a, b[1..])
  }

  function Take<T>(s: seq<T>, n: nat): seq<T> {
    if n < |s| then s[..n] else s
  }

  lemma PrependKeepsSorted<T>(le: Order<T>, x: T, s: seq<T>)
    requires Sorted(le, s) && forall y :: y in s ==> le(x, y)
    ensures Sorted(le, [x] + s)
  {
  }

  lemma TailIsSorted<T>(le: Order<T>, s: seq<T>)
    requires Sorted(le, s) && s != []
    ensures Sorted(le, s[1..]) && forall y :: y in s[1..] ==> le(s[0], y)
  {
  }

  lemma {:induction false} InsertAdds<T>(le: Order<T>, x: T, s: seq<T>)
    ensures multiset(Insert(le, x, s)) == multiset{x} + multiset(s)
    decreases |s|
  {
    if s != [] {
      assert s == [s[0]] + s[1..];
      if !le(x, s[0]) {
        InsertAdds(le, x, s[1..]);
      }
    }
  }

  /** Sorting keeps all elements, whatever the comparison. */
  lemma {:induction false} SortIsPermutation<T>(le: Order<T>, s: seq<T>)
    ensures multiset(Sort(le, s)) == multiset(s)
    decreases |s|
  {
    if s != [] {
      SortIsPermutation(le, s[1..]);
      InsertAdds(le, s[0], Sort(le, s[1..]));
      assert s == [s[0]] + s[1..];
    }
  }

  lemma SameElements<T>(a: seq<T>, b: seq<T>, x: T)
    requires multiset(a) == multiset(b)
    ensures x in a <==> x in b
  {
    assert x in multiset(a) <==> x in multiset(b);
  }

  lemma InsertedElements<T>(le: Order<T>, x: T, s: seq<T>, y: T)
    ensures y in Insert(le, x, s) <==> y == x || y in s
  {
    InsertAdds(le, x, s);
    SameElements(Insert(le, x, s), [x] + s, y);
  }

  lemma {:induction false} InsertKeepsSorted<T(!new)>(le: Order<T>, x: T, s: seq<T>)
    requires TotalPreorder(le) && Sorted(le, s)
    ensures Sorted(le, Insert(le, x, s))
    decreases |s|
  {
    if s != [] {
      TailIsSorted(le, s);
      if le(x, s[0]) {
        PrependKeepsSorted(le, x, s);
      } else {
        InsertKeepsSorted(le, x, s[1..]);
        forall y | y in Insert(le, x, s[1..])
          ensures le(s[0], y)
        {
          InsertedElements(le, x, s[1..], y);
        }
        PrependKeepsSorted(le, s[0], Insert(le, x, s[1..]));
      }
    }
  }

  /** Under a total preorder the sort orders the elements. */
  lemma {:induction false} SortSorts<T(!new)>(le: Order<T>, s: seq<T>)
    requires TotalPreorder(le)
    ensures Sorted(le, Sort(le, s))
    decreases |s|
  {
    if s != [] {
      SortSorts(le, s[1..]);
      InsertKeepsSorted(le, s[0], Sort(le, s[1..]));
    }
  }

  lemma {:induction false} SortedIsFixed<T(!new)>(le: Order<T>, s: seq<T>)
    requires Sorted(le, s)
    ensures Sort(le, s) == s
    decreases |s|
  {
    if s != [] {
      SortedIsFixed(le, s[1..]);
      assert s == [s[0]] + s[1..];
    }
  }

  lemma MergeLeft<T>(le: Order<T>, x: T, a: seq<T>, b: seq<T>)
    requires b != [] && le(x, b[0])
    ensures Merge(le, [x] + a, b) == [x] + Merge(le, a, b)
  {
    assert ([x] + a)[1..] == a;
  }

  lemma InsertBehind<T>(le: Order<T>, x: T, y: T, s: seq<T>)
    requires !le(x, y)
    ensures Insert(le, x, [y] + s) == [y] + Insert(le, x, s)
  {
    assert ([y] + s)[1..] == s;
  }

  lemma {:induction false} InsertIntoMerge<T(!new)>(le: Order<T>, x: T, a: seq<T>, b: seq<T>)
    requires TotalPreorder(le)
    ensures Insert(le, x, Merge(le, a, b)) == Merge(le, Insert(le, x, a), b)
    decreases |a| + |b|
  {
    if a == [] {
      InsertIsMerge(le, x, b);
      assert Insert(le, x, a) == [x];
    } else if b == [] {
      assert Insert(le, x, a) != [];
    } else if le(a[0], b[0]) {
      if le(x, a[0]) {
        assert le(x, b[0]);
        MergeLeft(le, x, a, b);
      } else {
        InsertBehind(le, x, a[0], Merge(le, a[1..], b));
        InsertIntoMerge(le, x, a[1..], b);
        MergeLeft(le, a[0], Insert(le, x, a[1..]), b);
      }
    } else if le(x, b[0]) {
      assert le(b[0], a[0]) && le(x, a[0]);
      MergeLeft(le, x, a, b);
    } else {
      InsertBehind(le, x, b[0], Merge(le, a, b[1..]));
      InsertIntoMerge(le, x, a, b[1..]);
      assert !le(Insert(le, x, a)[0], b[0]);
    }
  }

  lemma {:induction false} InsertIsMerge<T(!new)>(le: Order<T>, x: T, b: seq<T>)
    ensures Insert(le, x, b) == Merge(le, [x], b)
    decreases |b|
  {
    if b != [] && !le(x, b[0]) {
      InsertIsMerge(le, x, b[1..]);
    }
  }

  /** Stably sorting a concatenation merges the sorted parts. */
  lemma {:induction false} SortOfConcatenation<T(!new)>(le: Order<T>, a: seq<T>, b: seq<T>)
    requires TotalPreorder(le)
    ensures Sort(le, a + b) == Merge(le, Sort(le, a), Sort(le, b))
    decreases |a|
  {
    if a == [] {
      assert a + b == b;
    } else {
      SortOfConcatenation(le, a[1..], b);
      assert (a + b)[1..] == a[1..] + b;
      InsertIntoMerge(le, a[0], Sort(le, a[1..]), Sort(le, b));
    }
  }

  lemma TakeLeft<T>(le: Order<T>, a: seq<T>, b: seq<T>, n: nat)
    requires n > 0 && a != [] && b != [] && le(a[0], b[0])
    ensures Take(Merge(le, a, b), n) == [a[0]] + Take(Merge(le, a[1..], b), n - 1)
  {
    var m := Merge(le, a[1..], b);
    assert Take([a[0]] + m, n) == [a[0]] + Take(m, n - 1);
  }

  lemma TakeRight<T>(le: Order<T>, a: seq<T>, b: seq<T>, n: nat)
    requires n > 0 && a != [] && b != [] && !le(a[0], b[0])
    ensures Take(Merge(le, a, b), n) == [b[0]] + Take(Merge(le, a, b[1..]), n - 1)
  {
    var m := Merge(le, a, b[1..]);
    assert Take([b[0]] + m, n) == [b[0]] + Take(m, n - 1);
  }

  lemma TakeTwice<T>(s: seq<T>, m: nat, n: nat)
    requires m <= n
    ensures Take(Take(s, n), m) == Take(s, m)
  {
  }

  lemma TakeRest<T>(s: seq<T>, n: nat)
    requires n > 0 && s != []
    ensures Take(s, n) != [] && Take(s, n)[0] == s[0] && Take(s, n)[1..] == Take(s[1..], n - 1)
  {
  }

  /** Cut and uncut merges agree on their first `n`. */
  ghost predicate CutAgrees<T>(le: Order<T>, a: seq<T>, b: seq<T>, n: nat) {
    Take(Merge(le, a, b), n) == Take(Merge(le, Take(a, n), Take(b, n)), n)
  }

  lemma CutLeft<T>(le: Order<T>, a: seq<T>, b: seq<T>, n: nat)
    requires n > 0 && a != [] && b != [] && le(a[0], b[0])
    requires CutAgrees(le, a[1..], b, n - 1) && CutAgrees(le, Take(a, n)[1..], Take(b, n), n - 1)
    ensures CutAgrees(le, a, b, n)
  {
    TakeRest(a, n);
    TakeRest(b, n);
    TakeLeft(le, a, b, n);
    TakeLeft(le, Take(a, n), Take(b, n), n);
    TakeTwice(b, n - 1, n);
    TakeTwice(a[1..], n - 1, n - 1);
  }

  lemma CutRight<T>(le: Order<T>, a: seq<T>, b: seq<T>, n: nat)
    requires n > 0 && a != [] && b != [] && !le(a[0], b[0])
    requires CutAgrees(le, a, b[1..], n - 1) && CutAgrees(le, Take(a, n), Take(b, n)[1..], n - 1)
    ensures CutAgrees(le, a, b, n)
  {
    TakeRest(a, n);
    TakeRest(b, n);
    TakeRight(le, a, b, n);
    TakeRight(le, Take(a, n), Take(b, n), n);
    TakeTwice(a, n - 1, n);
    TakeTwice(b[1..], n - 1, n - 1);
  }

  /** The first `n` of a merge depend only on the first `n` of each side. */
  lemma {:induction false} TakeOfMerge<T>(le: Order<T>, a: seq<T>, b: seq<T>, n: nat)
    ensures CutAgrees(le, a, b, n)
    decreases |a| + |b|
  {
    if n > 0 && a != [] && b != [] {
      if le(a[0], b[0]) {
        TakeOfMerge(le, a[1..], b, n - 1);
        TakeOfMerge(le, Take(a, n)[1..], Take(b, n), n - 1);
        CutLeft(le, a, b, n);
      } else {
        TakeOfMerge(le, a, b[1..], n - 1);
        TakeOfMerge(le, Take(a, n), Take(b, n)[1..], n - 1);
        CutRight(le, a, b, n);
      }
    } else {
      TakeTwice(a, n, n);
      TakeTwice(b, n, n);
    }
  }

  lemma SortOfThree<T(!new)>(le: Order<T>, a: seq<T>, b: seq<T>, c: seq<T>)
    requires TotalPreorder(le)
    ensures Sort(le, a + b + c) == Merge(le, Merge(le, Sort(le, a), Sort(le, b)), Sort(le, c))
  {
    SortOfConcatenation(le, a + b, c);
    SortOfConcatenation(le, a, b);
  }

  lemma TakeKeepsSorted<T>(le: Order<T>, s: seq<T>, n: nat)
    requires Sorted(le, s)
    ensures Sorted(le, Take(s, n))
  {
  }

  /** Cutting the source at `n` keeps its first `n`. */
  ghost predicate CutsCleanly<T>(le: Order<T>, s: seq<T>, n: nat) {
    Sort(le, Take(s, n)) == Take(Sort(le, s), n)
  }

  lemma SortedCutsCleanly<T(!new)>(le: Order<T>, s: seq<T>, n: nat)
    requires Sorted(le, s)
    ensures CutsCleanly(le, s, n)
  {
    SortedIsFixed(le, s);
    TakeKeepsSorted(le, s, n);
    SortedIsFixed(le, Take(s, n));
  }

  lemma {:induction false} MergeOfApart<T>(le: Order<T>, a: seq<T>, b: seq<T>)
    requires forall x, y :: x in a && y in b ==> le(x, y)
    ensures Merge(le, a, b) == a + b
    decreases |a|
  {
    if a != [] && b != [] {
      assert a[0] in a && b[0] in b;
      MergeOfApart(le, a[1..], b);
      assert a + b == [a[0]] + (a[1..] + b);
    }
  }

  /** A source whose first `n` all come before the rest is cut cleanly, whatever its own order. */
  lemma ApartCutsCleanly<T(!new)>(le: Order<T>, s: seq<T>, n: nat)
    requires TotalPreorder(le) && n <= |s| && forall x, y :: x in s[..n] && y in s[n..] ==> le(x, y)
    ensures CutsCleanly(le, s, n)
  {
    var a, b := s[..n], s[n..];
    assert s == a + b;
    SortOfConcatenation(le, a, b);
    SortIsPermutation(le, a);
    SortIsPermutation(le, b);
    forall x, y | x in Sort(le, a) && y in Sort(le, b)
      ensures le(x, y)
    {
      SameElements(Sort(le, a), a, x);
      SameElements(Sort(le, b), b, y);
    }
    MergeOfApart(le, Sort(le, a), Sort(le, b));
    assert |multiset(Sort(le, a))| == |multiset(a)|;
    assert Take(s, n) == a && (Sort(le, a) + Sort(le, b))[..n] == Sort(le, a);
  }

  /** Cutting three sources cleanly at `n` before sorting them together does not change the first `n`. */
  lemma CutSourcesAgree<T(!new)>(le: Order<T>, a: seq<T>, b: seq<T>, c: seq<T>, n: nat)
    requires TotalPreorder(le) && CutsCleanly(le, a, n) && CutsCleanly(le, b, n) && CutsCleanly(le, c, n)
    ensures Take(Sort(le, Take(a, n) + Take(b, n) + Take(c, n)), n) == Take(Sort(le, a + b + c), n)
  {
    var x, y, z := Sort(le, a), Sort(le, b), Sort(le, c);
    var p, q, r := Take(x, n), Take(y, n), Take(z, n);
    SortOfThree(le, a, b, c);
    SortOfThree(le, Take(a, n), Take(b, n), Take(c, n));
    TakeOfMerge(le, x, y, n);
    TakeOfMerge(le, Merge(le, x, y), z, n);
    TakeOfMerge(le, Merge(le, p, q), r, n);
    TakeTwice(z, n, n);
  }

  // ----- stability -----

  ghost predicate Ahead<T>(s: seq<T>, x: T, y: T) {
    exists i, j :: 0 <= i < j < |s| && s[i] == x && s[j] == y
  }

  lemma PrependKeepsAhead<T>(z: T, s: seq<T>, x: T, y: T)
    ensures Ahead(s, x, y) ==> Ahead([z] + s, x, y)
    ensures y in s ==> Ahead([z] + s, z, y)
  {
    var r := [z] + s;
    if Ahead(s, x, y) {
      var i, j :| 0 <= i < j < |s| && s[i] == x && s[j] == y;
      assert r[i + 1] == x && r[j + 1] == y;
    }
    if y in s {
      var j :| 0 <= j < |s| && s[j] == y;
      assert r[0] == z && r[j + 1] == y;
    }
  }

  lemma {:induction false} InsertAhead<T>(le: Order<T>, x: T, s: seq<T>, y: T)
    requires y in s && le(x, y)
    ensures Ahead(Insert(le, x, s), x, y)
    decreases |s|
  {
    if le(x, s[0]) {
      PrependKeepsAhead(x, s, x, y);
    } else {
      InsertAhead(le, x, s[1..], y);
      PrependKeepsAhead(s[0], Insert(le, x, s[1..]), x, y);
    }
  }

  lemma {:induction false} InsertKeepsAhead<T>(le: Order<T>, z: T, s: seq<T>, x: T, y: T)
    requires Ahead(s, x, y)
    ensures Ahead(Insert(le, z, s), x, y)
    decreases |s|
  {
    if le(z, s[0]) {
      PrependKeepsAhead(z, s, x, y);
    } else {
      var rest := Insert(le, z, s[1..]);
      var i, j :| 0 <= i < j < |s| && s[i] == x && s[j] == y;
      assert s[1..][j - 1] == y;
      if i > 0 {
        assert s[1..][i - 1] == x;
        InsertKeepsAhead(le, z, s[1..], x, y);
      } else {
        InsertedElements(le, z, s[1..], y);
      }
      PrependKeepsAhead(s[0], rest, x, y);
    }
  }

  /** An element stays ahead of a later one that is not strictly before it, whatever the comparison. */
  lemma {:induction false} SortIsStable<T>(le: Order<T>, s: seq<T>, i: nat, j: nat)
    requires i < j < |s| && le(s[i], s[j])
    ensures Ahead(Sort(le, s), s[i], s[j])
    decreases |s|
  {
    assert s[1..][j - 1] == s[j];
    if i == 0 {
      SortIsPermutation(le, s[1..]);
      SameElements(Sort(le, s[1..]), s[1..], s[j]);
      InsertAhead(le, s[0], Sort(le, s[1..]), s[j]);
    } else {
      assert s[1..][i - 1] == s[i];
      SortIsStable(le, s[1..], i - 1, j - 1);
      InsertKeepsAhead(le, s[0], Sort(le, s[1..]), s[i], s[j]);
    }
  }

  // ----- uniqueness -----

  lemma LeastIsFirst<T>(le: Order<T>, s: seq<T>, x: T)
    requires Sorted(le, s) && x in s
    ensures x == s[0] || le(s[0], x)
  {
  }

  lemma DropFirst<T>(a: seq<T>)
    requires a != []
    ensures multiset(a[1..]) == multiset(a) - multiset{a[0]}
  {
    assert a == [a[0]] + a[1..];
  }

  lemma FirstsAgree<T>(le: Order<T>, a: seq<T>, b: seq<T>)
    requires Sorted(le, a) && Sorted(le, b) && multiset(a) == multiset(b) && a != [] && b != []
    requires forall x, y :: x in a && y in a && le(x, y) && le(y, x) ==> x == y
    ensures a[0] == b[0] && multiset(a[1..]) == multiset(b[1..])
  {
    SameElements(a, b, a[0]);
    SameElements(a, b, b[0]);
    LeastIsFirst(le, a, b[0]);
    LeastIsFirst(le, b, a[0]);
    DropFirst(a);
    DropFirst(b);
  }

  /** Under an order that is antisymmetric on the elements there is only one sorted arrangement. */
  lemma {:induction false} SortedIsUnique<T>(le: Order<T>, a: seq<T>, b: seq<T>)
    requires Sorted(le, a) && Sorted(le, b) && multiset(a) == multiset(b)
    requires forall x, y :: x in a && y in a && le(x, y) && le(y, x) ==> x == y
    ensures a == b
    decreases |a|
  {
    assert |multiset(a)| == |multiset(b)|;
    if a != [] {
      FirstsAgree(le, a, b);
      SortedIsUnique(le, a[1..], b[1..]);
      assert a == [a[0]] + a[1..] && b == [b[0]] + b[1..];
    }
  }

  lemma MergeShowsOther<T(!new)>(le: Order<T>, a: seq<T>, b: seq<T>, n: nat)
    requires TotalPreorder(le) && Sorted(le, a) && 0 < n <= |a| && b != [] && !le(a[0], b[0])
    ensures Take(Merge(le, a, b), n) != Take(a, n) && !le(a[n - 1], b[0])
  {
    TakeRight(le, a, b, n);
    TakeRest(a, n);
    assert le(a[0], a[0]) && (n > 1 ==> le(a[0], a[n - 1]));
  }

  /** Merging leaves the first `n` of `a` alone exactly when they come before everything merged in. */
  lemma {:induction false} MergeKeepsFirst<T(!new)>(le: Order<T>, a: seq<T>, b: seq<T>, n: nat)
    requires TotalPreorder(le) && Sorted(le, a) && 0 < n <= |a| && b != []
    ensures Take(Merge(le, a, b), n) == Take(a, n) <==> le(a[n - 1], b[0])
    decreases n
  {
    if !le(a[0], b[0]) {
      MergeShowsOther(le, a, b, n);
    } else {
      TakeLeft(le, a, b, n);
      TakeRest(a, n);
      var x, y := Take(Merge(le, a[1..], b), n - 1), Take(a[1..], n - 1);
      assert Take(a, n) == [a[0]] + y;
      assert [a[0]] + x == [a[0]] + y <==> x == y by {
        assert ([a[0]] + x)[1..] == x && ([a[0]] + y)[1..] == y;
      }
      if n > 1 {
        TailIsSorted(le, a);
        MergeKeepsFirst(le, a[1..], b, n - 1);
      }
    }
  }

  ghost predicate NoTies<T(!new)>(le: Order<T>, s: seq<T>) {
    forall x, y :: x in s && y in s && le(x, y) && le(y, x) ==> x == y
  }

  /** Where no two elements are tied, the arrangement before sorting does not matter. */
  lemma ArrangementsSortAlike<T(!new)>(le: Order<T>, a: seq<T>, b: seq<T>)
    requires TotalPreorder(le) && NoTies(le, a) && multiset(a) == multiset(b)
    ensures Sort(le, a) == Sort(le, b)
  {
    SortSorts(le, a);
    SortSorts(le, b);
    SortIsPermutation(le, a);
    SortIsPermutation(le, b);
    forall x | x in Sort(le, a)
      ensures x in a
    {
      SameElements(Sort(le, a), a, x);
    }
    SortedIsUnique(le, Sort(le, a), Sort(le, b));
  }

  lemma AllOrFirst<T(!new)>(le: Order<T>, s: seq<T>, x: T)
    requires TotalPreorder(le) && s != []
    ensures le(x, Sort(le, s)[0]) <==> forall y :: y in s ==> le(x, y)
  {
    var t := Sort(le, s);
    SortIsPermutation(le, s);
    SortSorts(le, s);
    assert |multiset(t)| == |multiset(s)|;
    SameElements(t, s, t[0]);
    forall y | y in s
      ensures le(t[0], y)
    {
      SameElements(t, s, y);
      LeastIsFirst(le, t, y);
    }
  }

  /** Sorting without the elements `rest` shows the same first `n` exactly when the last of them comes before
      every one left out. */
  lemma LeavingOutShows<T(!new)>(le: Order<T>, all: seq<T>, kept: seq<T>, rest: seq<T>, n: nat)
    requires TotalPreorder(le) && NoTies(le, all) && multiset(all) == multiset(kept + rest) && 0 < n <= |kept|
    ensures |Sort(le, kept)| == |kept|
    ensures Take(Sort(le, kept), n) == Take(Sort(le, all), n) <==>
            forall d :: d in rest ==> le(Sort(le, kept)[n - 1], d)
  {
    var a, b := Sort(le, kept), Sort(le, rest);
    SortIsPermutation(le, kept);
    assert |multiset(a)| == |multiset(kept)|;
    ArrangementsSortAlike(le, all, kept + rest);
    SortOfConcatenation(le, kept, rest);
    if rest == [] {
      assert kept + rest == kept;
    } else {
      SortSorts(le, kept);
      SortSorts(le, rest);
      SortIsPermutation(le, rest);
      assert |multiset(b)| == |multiset(rest)|;
      MergeKeepsFirst(le, a, b, n);
      AllOrFirst(le, rest, a[n - 1]);
    }
  }

  // ----- filtering -----

  function Filter<T>(p: T -> bool, s: seq<T>): seq<T> {
    if s == [] then [] else (if p(s[0]) then [s[0]] else []) + Filter(p, s[1..])
  }

  lemma {:induction false} FilterCounts<T>(p: T -> bool, s: seq<T>, x: T)
    ensures multiset(Filter(p, s))[x] == if p(x) then multiset(s)[x] else 0
    decreases |s|
  {
    if s != [] {
      assert s == [s[0]] + s[1..];
      FilterCounts(p, s[1..], x);
    }
  }

  lemma FilterMembers<T>(p: T -> bool, s: seq<T>, x: T)
    ensures x in Filter(p, s) <==> x in s && p(x)
  {
    FilterCounts(p, s, x);
    assert x in s <==> x in multiset(s);
    assert x in Filter(p, s) <==> x in multiset(Filter(p, s));
  }

  lemma {:induction false} FilterKeepsSorted<T>(le: Order<T>, p: T -> bool, s: seq<T>)
    requires Sorted(le, s)
    ensures Sorted(le, Filter(p, s))
    decreases |s|
  {
    if s != [] {
      TailIsSorted(le, s);
      FilterKeepsSorted(le, p, s[1..]);
      if p(s[0]) {
        forall y | y in Filter(p, s[1..])
          ensures le(s[0], y)
        {
          FilterMembers(p, s[1..], y);
        }
        PrependKeepsSorted(le, s[0], Filter(p, s[1..]));
      }
    }
  }

  lemma {:induction false} FiltersAgree<T>(p: T -> bool, q: T -> bool, s: seq<T>)
    requires forall x :: x in s ==> p(x) == q(x)
    ensures Filter(p, s) == Filter(q, s)
    decreases |s|
  {
    if s != [] {
      FiltersAgree(p, q, s[1..]);
    }
  }

  lemma {:induction false} FilterSplits<T>(p: T -> bool, a: seq<T>, b: seq<T>)
    ensures Filter(p, a + b) == Filter(p, a) + Filter(p, b)
    decreases |a|
  {
    if a == [] {
      assert a + b == b;
    } else {
      FilterSplits(p, a[1..], b);
      assert (a + b)[1..] == a[1..] + b;
    }
  }

  // ----- strings -----

  /** Lexicographic comparison of sequences. */
  predicate Lex<T(==)>(less: (T, T) -> bool, a: seq<T>, b: seq<T>) {
    |b| > 0 && (|a| == 0 || less(a[0], b[0]) || (a[0] == b[0] && Lex(less, a[1..], b[1..])))
  }

  ghost predicate StrictOrder<T(!new)>(less: (T, T) -> bool) {
    && (forall x, y :: less(x, y) ==> !less(y, x))
    && (forall x, y, z :: less(x, y) && less(y, z) ==> less(x, z))
    && (forall x, y :: less(x, y) || less(y, x) || x == y)
  }

  lemma {:induction false} LexSplits<T>(less: (T, T) -> bool, a: seq<T>, b: seq<T>, c: seq<T>, d: seq<T>)
    requires |a| == |b|
    ensures Lex(less, a + c, b + d) <==> Lex(less, a, b) || (a == b && Lex(less, c, d))
    ensures a + c == b + d <==> a == b && c == d
    decreases |a|
  {
    if a == [] {
      assert a + c == c && b + d == d;
    } else {
      LexSplits(less, a[1..], b[1..], c, d);
      assert (a + c)[1..] == a[1..] + c && (b + d)[1..] == b[1..] + d;
      assert a == [a[0]] + a[1..] && b == [b[0]] + b[1..];
      assert a + c == b + d ==> (a + c)[..|a|] == (b + d)[..|a|] && (a + c)[|a|..] == (b + d)[|a|..];
      assert (a + c)[..|a|] == a && (b + d)[..|a|] == b && (a + c)[|a|..] == c && (b + d)[|a|..] == d;
    }
  }

  lemma {:induction false} LexIsTotal<T(!new)>(less: (T, T) -> bool, a: seq<T>, b: seq<T>)
    requires StrictOrder(less)
    ensures Lex(less, a, b) || Lex(less, b, a) || a == b
    ensures !(Lex(less, a, b) && Lex(less, b, a)) && !Lex(less, a, a)
    decreases |a|
  {
    if a != [] && b != [] && a[0] == b[0] {
      LexIsTotal(less, a[1..], b[1..]);
      assert a == [a[0]] + a[1..] && b == [b[0]] + b[1..];
    }
    if a != [] {
      LexIsTotal(less, a[1..], a[1..]);
    }
  }

  lemma {:induction false} LexIsTransitive<T(!new)>(less: (T, T) -> bool, a: seq<T>, b: seq<T>, c: seq<T>)
    requires StrictOrder(less) && Lex(less, a, b) && Lex(less, b, c)
    ensures Lex(less, a, c)
    decreases |a|
  {
    if a != [] && a[0] == b[0] && b[0] == c[0] {
      LexIsTransitive(less, a[1..], b[1..], c[1..]);
    }
  }

  function CharOrder(): (char, char) -> bool {
    (x: char, y: char) => x < y
  }

  /** String comparison by code units. */
  predicate Less(a: string, b: string) {
    Lex(CharOrder(), a, b)
  }

  predicate LessOrEqual(a: string, b: string) {
    a == b || Less(a, b)
  }
}
