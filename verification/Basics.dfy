/** Small shared datatypes and the summation lemmas every report rests on. */
module Basics {
  datatype Option<+T> = None | Some(value: T)

  datatype Result<+T, +E> = Ok(value: T) | Err(error: E)
}

module Sums {
  import opened Basics

  function Total(v: seq<int>): int {
    if v == [] then 0 else Total(v[..|v| - 1]) + v[|v| - 1]
  }

  lemma {:induction false} TotalZero(v: seq<int>)
    requires forall i :: 0 <= i < |v| ==> v[i] == 0
    ensures Total(v) == 0
  {
    if v != [] {
      TotalZero(v[..|v| - 1]);
    }
  }

  /** `links[i] == Some(j)` says that row i undoes row j. */
  ghost predicate UndoLinks(links: seq<Option<nat>>) {
    && (forall i :: 0 <= i < |links| && links[i].Some? ==> links[i].value < i && links[links[i].value].None?)
    && (forall i, k :: 0 <= i < k < |links| && links[i].Some? ==> links[i] != links[k])
  }

  ghost predicate Undone(links: seq<Option<nat>>, j: nat) {
    exists i :: 0 <= i < |links| && links[i] == Some(j)
  }

  /** A row is live when it neither undoes another row nor is undone. */
  ghost predicate Live(links: seq<Option<nat>>, j: nat)
    requires j < |links|
  {
    links[j].None? && !Undone(links, j)
  }

  ghost function LiveTotal(links: seq<Option<nat>>, v: seq<int>, n: nat): int
    requires |links| == |v| && n <= |v|
  {
    if n == 0 then 0
    else LiveTotal(links, v, n - 1) + (if Live(links, n - 1) then v[n - 1] else 0)
  }

  /** How appending one row changes the live total of the rows before it. */
  lemma {:induction false} LiveTotalSnoc(links: seq<Option<nat>>, v: seq<int>, link: Option<nat>, x: int, n: nat)
    requires |links| == |v| && n <= |v|
    requires UndoLinks(links + [link])
    ensures LiveTotal(links + [link], v + [x], n) ==
            LiveTotal(links, v, n) - (if link.Some? && link.value < n then v[link.value] else 0)
  {
    if n != 0 {
      LiveTotalSnoc(links, v, link, x, n - 1);
      var all := links + [link];
      var j := n - 1;
      assert all[j] == links[j];
      if link == Some(j) {
        assert all[|links|] == Some(j);
        assert Undone(all, j);
        forall i | 0 <= i < |links|
          ensures links[i] != Some(j)
        {
          assert all[i] == links[i];
        }
      } else {
        assert Undone(all, j) == Undone(links, j) by {
          if Undone(links, j) {
            var i :| 0 <= i < |links| && links[i] == Some(j);
            assert all[i] == Some(j);
          }
        }
      }
    }
  }

  /** When every undoing row carries the negated value of the row it undoes, the plain
      total is the total over the live rows alone. */
  lemma {:induction false} UndoCancels(links: seq<Option<nat>>, v: seq<int>)
    requires |links| == |v| && UndoLinks(links)
    requires forall i :: 0 <= i < |v| && links[i].Some? ==> v[i] == -v[links[i].value]
    ensures Total(v) == LiveTotal(links, v, |v|)
  {
    if v != [] {
      var m := |v| - 1;
      var ls, vs := links[..m], v[..m];
      assert links == ls + [links[m]] && v == vs + [v[m]];
      UndoCancels(ls, vs);
      LiveTotalSnoc(ls, vs, links[m], v[m], m);
      assert LiveTotal(links, v, |v|) == LiveTotal(links, v, m) + (if Live(links, m) then v[m] else 0);
    }
  }

  /** Sum of `f` over a finite set. */
  ghost function SumOver<K>(s: set<K>, f: K -> int): int {
    if s == {} then 0
    else var x :| x in s; f(x) + SumOver(s - {x}, f)
  }

  lemma {:induction false} SumOverPick<K>(s: set<K>, f: K -> int, x: K)
    requires x in s
    ensures SumOver(s, f) == f(x) + SumOver(s - {x}, f)
    decreases |s|
  {
    var y :| y in s && SumOver(s, f) == f(y) + SumOver(s - {y}, f);
    if y != x {
      SumOverPick(s - {y}, f, x);
      SumOverPick(s - {x}, f, y);
      assert s - {y} - {x} == s - {x} - {y};
    }
  }

  lemma {:induction false} SumOverSame<K>(s: set<K>, f: K -> int, g: K -> int)
    requires forall x :: x in s ==> f(x) == g(x)
    ensures SumOver(s, f) == SumOver(s, g)
    decreases |s|
  {
    if s != {} {
      var x :| x in s;
      SumOverPick(s, f, x);
      SumOverPick(s, g, x);
      SumOverSame(s - {x}, f, g);
    }
  }

  /** Two functions that differ at one point only. */
  lemma SumOverUpdate<K>(s: set<K>, f: K -> int, g: K -> int, x: K)
    requires x in s
    requires forall y :: y in s && y != x ==> f(y) == g(y)
    ensures SumOver(s, g) == SumOver(s, f) - f(x) + g(x)
  {
    SumOverPick(s, f, x);
    SumOverPick(s, g, x);
    SumOverSame(s - {x}, f, g);
  }

  lemma {:induction false} SumOverZero<K>(s: set<K>, f: K -> int)
    requires forall x :: x in s ==> f(x) == 0
    ensures SumOver(s, f) == 0
    decreases |s|
  {
    if s != {} {
      var x :| x in s;
      SumOverPick(s, f, x);
      SumOverZero(s - {x}, f);
    }
  }
}
