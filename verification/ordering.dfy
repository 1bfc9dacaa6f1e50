/** Sequence facts shared by the forum's list views: order-preserving
    filtering, sortedness by a timestamp, and the backend's "select the rows
    that match, ordered by a column" query over a keyed table. */
module Ordering {

  /** `xs` is sorted by `key`, ascending; ties in either order. */
  ghost predicate SortedBy<T>(xs: seq<T>, key: T -> int) {
    forall i, j :: 0 <= i < j < |xs| ==> key(xs[i]) <= key(xs[j])
  }

  /** `xs` is sorted by `key`, descending (the backend's `ascending: false`). */
  ghost predicate SortedDescBy<T>(xs: seq<T>, key: T -> int) {
    forall i, j :: 0 <= i < j < |xs| ==> key(xs[i]) >= key(xs[j])
  }

  /** `xs` can be obtained from `ys` by deleting elements: an order-preserving
      sublist. */
  predicate IsSubsequence<T(==)>(xs: seq<T>, ys: seq<T>)
    decreases |ys|
  {
    if |ys| == 0 then |xs| == 0
    else (|xs| > 0 && xs[0] == ys[0] && IsSubsequence(xs[1..], ys[1..]))
         || IsSubsequence(xs, ys[1..])
  }

  lemma {:induction false} SubsequenceMembers<T>(xs: seq<T>, ys: seq<T>)
    requires IsSubsequence(xs, ys)
    ensures forall x :: x in xs ==> x in ys
    decreases |ys|
  {
    if |ys| > 0 {
      if |xs| > 0 && xs[0] == ys[0] && IsSubsequence(xs[1..], ys[1..]) {
        SubsequenceMembers(xs[1..], ys[1..]);
        assert forall x :: x in xs ==> x == xs[0] || x in xs[1..];
      } else {
        SubsequenceMembers(xs, ys[1..]);
      }
    }
  }

  /** An order-preserving sublist of a sorted list is sorted. */
  lemma {:induction false} SubsequenceKeepsDescOrder<T>(xs: seq<T>, ys: seq<T>, key: T -> int)
    requires IsSubsequence(xs, ys)
    requires SortedDescBy(ys, key)
    ensures SortedDescBy(xs, key)
    decreases |ys|
  {
    if |ys| > 0 {
      assert SortedDescBy(ys[1..], key);
      if |xs| > 0 && xs[0] == ys[0] && IsSubsequence(xs[1..], ys[1..]) {
        SubsequenceKeepsDescOrder(xs[1..], ys[1..], key);
        SubsequenceMembers(xs[1..], ys[1..]);
        forall j | 0 < j < |xs|
          ensures key(xs[0]) >= key(xs[j])
        {
          assert xs[j] in xs[1..];
          var k :| 0 <= k < |ys[1..]| && ys[1..][k] == xs[j];
          assert ys[k + 1] == xs[j];
        }
      } else {
        SubsequenceKeepsDescOrder(xs, ys[1..], key);
      }
    }
  }

  lemma DescOrderKept<T>(xs: seq<T>, ys: seq<T>, key: T -> int)
    requires IsSubsequence(xs, ys)
    ensures SortedDescBy(ys, key) ==> SortedDescBy(xs, key)
  {
    if SortedDescBy(ys, key) {
      SubsequenceKeepsDescOrder(xs, ys, key);
    }
  }

  /** `xs.filter(keep)`: exactly the kept elements, each as often as in
      `xs`, in their original order. */
  function Filter<T(==)>(xs: seq<T>, keep: T -> bool): (r: seq<T>)
    ensures IsSubsequence(r, xs)
    ensures forall x :: x in r ==> x in xs && keep(x)
    ensures forall x :: x in xs && keep(x) ==> multiset(r)[x] == multiset(xs)[x]
  {
    if |xs| == 0 then []
    else
      var rest := Filter(xs[1..], keep);
      assert xs == [xs[0]] + xs[1..];
      if keep(xs[0]) then
        assert ([xs[0]] + rest)[1..] == rest;
        [xs[0]] + rest
      else
        rest
  }

  /** Filtering a list extended by one element extends the filtered list
      by that element when it is kept. */
  lemma {:induction false} FilterSnoc<T>(xs: seq<T>, x: T, keep: T -> bool)
    ensures Filter(xs + [x], keep) == Filter(xs, keep) + (if keep(x) then [x] else [])
    decreases |xs|
  {
    if |xs| == 0 {
      assert xs + [x] == [x];
      assert [x][1..] == [];
    } else {
      assert (xs + [x])[0] == xs[0];
      assert (xs + [x])[1..] == xs[1..] + [x];
      FilterSnoc(xs[1..], x, keep);
    }
  }

  /** Filtering keeps everything when every element is kept. */
  lemma {:induction false} FilterAll<T>(xs: seq<T>, keep: T -> bool)
    requires forall x :: x in xs ==> keep(x)
    ensures Filter(xs, keep) == xs
    decreases |xs|
  {
    if |xs| > 0 {
      assert forall x :: x in xs[1..] ==> x in xs;
      FilterAll(xs[1..], keep);
      assert xs == [xs[0]] + xs[1..];
    }
  }

  /** Where `x` goes in the sorted `xs`: after every element whose key is not
      larger, before every element whose key is. */
  function InsertionPoint<T>(xs: seq<T>, x: T, key: T -> int): (p: nat)
    requires SortedBy(xs, key)
    ensures p <= |xs|
    ensures forall i :: 0 <= i < p ==> key(xs[i]) <= key(x)
    ensures forall i :: p <= i < |xs| ==> key(x) < key(xs[i])
  {
    if |xs| == 0 || key(xs[|xs| - 1]) <= key(x) then |xs|
    else InsertionPoint(xs[..|xs| - 1], x, key)
  }

  /** Every row of `table` is stored under its own id. */
  ghost predicate KeyedById<T>(table: map<string, T>, id: T -> string) {
    forall k :: k in table ==> id(table[k]) == k
  }

  /** `rows` lists rows of `table`, each under its own key, no key twice. */
  ghost predicate DistinctRowsOf<T>(rows: seq<T>, table: map<string, T>, id: T -> string) {
    && (forall i :: 0 <= i < |rows| ==> id(rows[i]) in table && table[id(rows[i])] == rows[i])
    && (forall i, j :: 0 <= i < j < |rows| ==> id(rows[i]) != id(rows[j]))
  }

  /** `xs` with `x` placed at index `p`. */
  function Splice<T>(xs: seq<T>, p: nat, x: T): (r: seq<T>)
    requires p <= |xs|
    ensures |r| == |xs| + 1
    ensures forall i :: 0 <= i < p ==> r[i] == xs[i]
    ensures r[p] == x
    ensures forall i :: p < i < |r| ==> r[i] == xs[i - 1]
  {
    xs[..p] + [x] + xs[p..]
  }

  /** `xs` with `x` inserted at its insertion point, still sorted. */
  function InsertSorted<T>(xs: seq<T>, x: T, key: T -> int): (r: seq<T>)
    requires SortedBy(xs, key)
    ensures SortedBy(r, key)
    ensures |r| == |xs| + 1
  {
    Splice(xs, InsertionPoint(xs, x, key), x)
  }

  /** Inserting a row of a new key keeps the listed rows distinct rows of
      the table, and loses none of them. */
  lemma InsertKeepsDistinct<T>(rows: seq<T>, x: T, table: map<string, T>, id: T -> string, key: T -> int)
    requires SortedBy(rows, key)
    requires DistinctRowsOf(rows, table, id)
    requires id(x) in table && table[id(x)] == x
    requires forall i :: 0 <= i < |rows| ==> id(rows[i]) != id(x)
    ensures DistinctRowsOf(InsertSorted(rows, x, key), table, id)
    ensures forall y :: y in InsertSorted(rows, x, key) <==> y in rows || y == x
  {
    var p := InsertionPoint(rows, x, key);
    var r := InsertSorted(rows, x, key);
    assert r == Splice(rows, p, x);
    forall i | 0 <= i < |r|
      ensures id(r[i]) in table && table[id(r[i])] == r[i]
    {
      if i > p { assert r[i] == rows[i - 1]; }
    }
    forall i, j | 0 <= i < j < |r|
      ensures id(r[i]) != id(r[j])
    {
      if i < p && j > p {
        assert id(rows[i]) != id(rows[j - 1]);
      } else if i > p {
        assert id(rows[i - 1]) != id(rows[j - 1]);
      }
    }
    forall j | 0 <= j < |rows| ensures rows[j] in r {
      if j < p { assert r[j] == rows[j]; } else { assert r[j + 1] == rows[j]; }
    }
    forall y | y in r ensures y in rows || y == x {
      var i :| 0 <= i < |r| && r[i] == y;
      if i > p { assert r[i] == rows[i - 1]; }
    }
  }

  /** A backend select with a row filter and an ascending order on a
      table stored by id: every matching row exactly once, sorted by the
      column. Which of several rows with equal keys comes first is left to
      the backend; this picks one. */
  method SelectSorted<T>(table: map<string, T>, id: T -> string, matches: T -> bool, key: T -> int)
    returns (rows: seq<T>)
    requires KeyedById(table, id)
    ensures DistinctRowsOf(rows, table, id)
    ensures forall i :: 0 <= i < |rows| ==> matches(rows[i])
    ensures forall k :: k in table && matches(table[k]) ==> table[k] in rows
    ensures SortedBy(rows, key)
  {
    var pending := table.Keys;
    rows := [];
    while pending != {}
      invariant pending <= table.Keys
      invariant DistinctRowsOf(rows, table, id)
      invariant forall i :: 0 <= i < |rows| ==> matches(rows[i]) && id(rows[i]) !in pending
      invariant forall k :: k in table && k !in pending && matches(table[k]) ==> table[k] in rows
      invariant SortedBy(rows, key)
      decreases pending
    {
      var k :| k in pending;
      pending := pending - {k};
      var row := table[k];
      if matches(row) {
        InsertKeepsDistinct(rows, row, table, id, key);
        rows := InsertSorted(rows, row, key);
      }
    }
  }
}
