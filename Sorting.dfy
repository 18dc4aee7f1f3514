/** Ordering vocabulary for the SQL of the search: `ORDER BY key DESC LIMIT n`
    specified relationally (ties may come back in any order), a filter, and
    one concrete sort that is proved to be an admissible answer. */
module Sorting {

  /** Non-increasing by `key`. */
  ghost predicate SortedDesc<T>(s: seq<T>, key: T -> real) {
    forall i, j :: 0 <= i < j < |s| ==> key(s[i]) >= key(s[j])
  }

  /** `top` is a valid answer of `ORDER BY key DESC LIMIT n` over the rows
      `table`: as many rows as the limit allows, taken from the table, in
      non-increasing key order, and no row left out has a larger key than a
      row kept. Rows of equal key may be kept or dropped in any order. */
  ghost predicate IsTopBy<T>(top: seq<T>, table: seq<T>, key: T -> real, n: nat) {
    |top| == (if n < |table| then n else |table|)
    && multiset(top) <= multiset(table)
    && SortedDesc(top, key)
    && forall x, y :: x in multiset(table) - multiset(top) && y in top ==> key(x) <= key(y)
  }

  /** Inserting into a non-increasing sequence before the first smaller key. */
  function Insert<T>(x: T, s: seq<T>, key: T -> real): (r: seq<T>)
    ensures multiset(r) == multiset(s) + multiset{x}
    ensures |r| == |s| + 1
  {
    if s == [] || key(x) >= key(s[0]) then [x] + s
    else
      assert s == [s[0]] + s[1..];
      [s[0]] + Insert(x, s[1..], key)
  }

  lemma {:induction false} InsertSorted<T>(x: T, s: seq<T>, key: T -> real)
    requires SortedDesc(s, key)
    ensures SortedDesc(Insert(x, s, key), key)
    decreases |s|
  {
    if s != [] && key(x) < key(s[0]) {
      InsertSorted(x, s[1..], key);
      InsertBelow(x, s[1..], key, key(s[0]));
      assert Insert(x, s, key) == [s[0]] + Insert(x, s[1..], key);
    }
  }

  /** Inserting below a bound keeps every key below it. */
  lemma InsertBelow<T>(x: T, s: seq<T>, key: T -> real, b: real)
    requires key(x) <= b && forall i :: 0 <= i < |s| ==> key(s[i]) <= b
    ensures forall j :: 0 <= j < |Insert(x, s, key)| ==> key(Insert(x, s, key)[j]) <= b
  {
    var r := Insert(x, s, key);
    forall j | 0 <= j < |r| ensures key(r[j]) <= b {
      assert r[j] in multiset(r);
      if r[j] != x {
        assert r[j] in multiset(s);
        var i :| 0 <= i < |s| && s[i] == r[j];
      }
    }
  }

  /** An insertion sort into non-increasing key order. */
  function SortBy<T>(s: seq<T>, key: T -> real): (r: seq<T>)
    ensures multiset(r) == multiset(s)
    ensures |r| == |s|
  {
    if s == [] then []
    else
      assert s == [s[0]] + s[1..];
      Insert(s[0], SortBy(s[1..], key), key)
  }

  /** The sort returns its input in non-increasing key order. */
  lemma {:induction false} SortBySorted<T>(s: seq<T>, key: T -> real)
    ensures SortedDesc(SortBy(s, key), key)
  {
    if s != [] {
      SortBySorted(s[1..], key);
      InsertSorted(s[0], SortBy(s[1..], key), key);
    }
  }

  /** `LIMIT n`: at most the first `n` rows. */
  function Take<T>(s: seq<T>, n: nat): (r: seq<T>)
    ensures |r| == (if n < |s| then n else |s|)
    ensures r == s[..|r|]
  {
    if n < |s| then s[..n] else s
  }

  /** In a non-increasing sequence, nothing after position `m` has a larger
      key than anything before it, and the part before `m` is itself sorted. */
  lemma SortedSplit<T>(s: seq<T>, key: T -> real, m: nat)
    requires SortedDesc(s, key) && m <= |s|
    ensures SortedDesc(s[..m], key)
    ensures forall x, y :: x in s[m..] && y in s[..m] ==> key(x) <= key(y)
  {
    forall x, y | x in s[m..] && y in s[..m] ensures key(x) <= key(y) {
      var i :| m <= i < |s| && s[i] == x by { assert x in s[m..]; }
      var j :| 0 <= j < m && s[j] == y;
    }
  }

  /** Cutting a sorted arrangement of the table after `n` rows is an
      admissible `ORDER BY ... LIMIT n` answer. */
  lemma TakeSortedIsTop<T>(s: seq<T>, table: seq<T>, key: T -> real, n: nat)
    requires multiset(s) == multiset(table) && SortedDesc(s, key)
    ensures IsTopBy(Take(s, n), table, key, n)
  {
    var top := Take(s, n);
    var m := |top|;
    assert |s| == |table| by {
      assert |multiset(s)| == |multiset(table)|;
    }
    assert top == s[..m];
    assert s == s[..m] + s[m..];
    assert multiset(table) - multiset(top) == multiset(s[m..]);
    SortedSplit(s, key, m);
    forall x, y | x in multiset(table) - multiset(top) && y in top ensures key(x) <= key(y) {
      assert x in s[m..];
    }
  }

  /** The concrete answer of `ORDER BY key DESC LIMIT n` used by the model. */
  function TopBy<T>(table: seq<T>, key: T -> real, n: nat): seq<T> {
    Take(SortBy(table, key), n)
  }

  lemma TopByIsTop<T>(table: seq<T>, key: T -> real, n: nat)
    ensures IsTopBy(TopBy(table, key, n), table, key, n)
  {
    SortBySorted(table, key);
    TakeSortedIsTop(SortBy(table, key), table, key, n);
  }

  /** Every admissible answer respects the limit and keeps only table rows. */
  lemma TopBounds<T>(top: seq<T>, table: seq<T>, key: T -> real, n: nat)
    requires IsTopBy(top, table, key, n)
    ensures |top| <= n && |top| <= |table|
    ensures forall x :: x in top ==> x in table
  {
    forall x | x in top ensures x in table {
      assert x in multiset(top);
    }
  }

  /** `WHERE p`: the rows satisfying `p`, in table order. */
  function Filter<T(!new)>(s: seq<T>, p: T -> bool): (r: seq<T>)
    ensures multiset(r) <= multiset(s)
    ensures forall x :: x in r <==> x in s && p(x)
  {
    if s == [] then []
    else
      assert s == [s[0]] + s[1..];
      (if p(s[0]) then [s[0]] else []) + Filter(s[1..], p)
  }

  /** A condition no row satisfies selects nothing. */
  lemma {:induction false} FilterNone<T(!new)>(s: seq<T>, p: T -> bool)
    requires forall x :: x in s ==> !p(x)
    ensures Filter(s, p) == []
  {
    if s != [] {
      assert s[0] in s;
      FilterNone(s[1..], p);
    }
  }

  /** A condition every row satisfies selects everything. */
  lemma {:induction false} FilterAll<T(!new)>(s: seq<T>, p: T -> bool)
    requires forall x :: x in s ==> p(x)
    ensures Filter(s, p) == s
  {
    if s != [] {
      assert s[0] in s;
      FilterAll(s[1..], p);
      assert s == [s[0]] + s[1..];
    }
  }
}
