/** The store's `ORDER BY` on an integer column (a timestamp in milliseconds, a
    channel position): a stable insertion sort on a key, ascending or
    descending. Rows with equal keys keep their table order, one of the orders
    the store may return for ties. */
module Sorting {
  import opened Common

  predicate SortedBy<T>(s: seq<T>, key: T -> int)
  {
    forall i, j :: 0 <= i < j < |s| ==> key(s[i]) <= key(s[j])
  }

  predicate SortedDescBy<T>(s: seq<T>, key: T -> int)
  {
    forall i, j :: 0 <= i < j < |s| ==> key(s[i]) >= key(s[j])
  }

  /** Inserts `x` into the sorted `s` before the first element whose key is
      not smaller. */
  function InsertBy<T>(x: T, s: seq<T>, key: T -> int): (r: seq<T>)
    requires SortedBy(s, key)
    ensures SortedBy(r, key)
    ensures multiset(r) == multiset(s) + multiset{x}
  {
    InsertSorted(x, s, key);
    InsertMultiset(x, s, key);
    Insert(x, s, key)
  }

  function Insert<T>(x: T, s: seq<T>, key: T -> int): seq<T>
  {
    if s == [] || key(x) <= key(s[0]) then [x] + s
    else [s[0]] + Insert(x, s[1..], key)
  }

  lemma {:induction false} InsertMultiset<T>(x: T, s: seq<T>, key: T -> int)
    ensures multiset(Insert(x, s, key)) == multiset(s) + multiset{x}
  {
    if s != [] && key(x) > key(s[0]) {
      assert s == [s[0]] + s[1..];
      InsertMultiset(x, s[1..], key);
    }
  }

  lemma {:induction false} InsertSorted<T>(x: T, s: seq<T>, key: T -> int)
    requires SortedBy(s, key)
    ensures SortedBy(Insert(x, s, key), key)
  {
    if s != [] && key(x) > key(s[0]) {
      var t := Insert(x, s[1..], key);
      InsertSorted(x, s[1..], key);
      assert key(s[0]) <= key(t[0]) by {
        if s[1..] != [] && key(x) > key(s[1..][0]) {
          assert t[0] == s[1];
        }
      }
      var r := [s[0]] + t;
      forall i, j | 0 <= i < j < |r|
        ensures key(r[i]) <= key(r[j])
      {
        assert r[j] == t[j - 1];
        if i > 0 {
          assert r[i] == t[i - 1];
        } else if j > 1 {
          assert key(t[0]) <= key(t[j - 1]);
        }
      }
    }
  }

  /** `ORDER BY key` ascending. */
  function SortBy<T>(s: seq<T>, key: T -> int): (r: seq<T>)
    ensures SortedBy(r, key)
    ensures multiset(r) == multiset(s)
    ensures |r| == |s|
  {
    if s == [] then []
    else
      assert s == [s[0]] + s[1..];
      var r := InsertBy(s[0], SortBy(s[1..], key), key);
      assert |r| == |multiset(r)|;
      r
  }

  /** `ORDER BY key DESC`. */
  function SortDescBy<T>(s: seq<T>, key: T -> int): (r: seq<T>)
    ensures SortedDescBy(r, key)
    ensures multiset(r) == multiset(s)
    ensures |r| == |s|
  {
    var r := SortBy(s, x => -key(x));
    assert forall i, j :: 0 <= i < j < |r| ==> -key(r[i]) <= -key(r[j]);
    r
  }

  /** The first `n` rows of a list sorted newest-first are the `n` largest:
      no row left out has a larger key than a row kept. */
  lemma TakeOfSortedDescIsTop<T>(d: seq<T>, n: nat, key: T -> int)
    requires SortedDescBy(d, key)
    ensures multiset(Take(d, n)) <= multiset(d)
    ensures forall x, y :: x in Take(d, n) && y in multiset(d) - multiset(Take(d, n)) ==> key(y) <= key(x)
  {
    if n < |d| {
      var t, rest := d[..n], d[n..];
      assert d == t + rest;
      assert multiset(d) == multiset(t) + multiset(rest);
      assert multiset(d) - multiset(t) == multiset(rest);
      forall x, y | x in t && y in multiset(rest)
        ensures key(y) <= key(x)
      {
        var i :| 0 <= i < |t| && t[i] == x;
        assert y in rest;
        var j :| 0 <= j < |rest| && rest[j] == y;
        assert d[i] == x && d[n + j] == y;
      }
    } else {
      assert multiset(d) - multiset(d) == multiset{};
    }
  }

  /** The head of a list sorted newest-first is at least every element of
      any list with the same elements. */
  lemma HeadOfSortedDescIsMax<T>(d: seq<T>, s: seq<T>, key: T -> int)
    requires SortedDescBy(d, key) && multiset(d) == multiset(s) && d != []
    ensures forall x :: x in s ==> key(x) <= key(d[0])
  {
    forall x | x in s
      ensures key(x) <= key(d[0])
    {
      assert x in multiset(d);
      var k :| 0 <= k < |d| && d[k] == x;
    }
  }

  /** A prefix of a sorted list is sorted. */
  lemma TakeKeepsSortedDesc<T>(d: seq<T>, n: nat, key: T -> int)
    requires SortedDescBy(d, key)
    ensures SortedDescBy(Take(d, n), key)
  {
    var t := Take(d, n);
    forall i, j | 0 <= i < j < |t|
      ensures key(t[i]) >= key(t[j])
    {
      assert t[i] == d[i] && t[j] == d[j];
    }
  }

  /** Reversing a newest-first list gives an oldest-first one. */
  lemma ReverseOfDescIsAsc<T>(s: seq<T>, key: T -> int)
    requires SortedDescBy(s, key)
    ensures SortedBy(Reverse(s), key)
  {
    var r := Reverse(s);
    forall i, j | 0 <= i < j < |r|
      ensures key(r[i]) <= key(r[j])
    {
      assert r[i] == s[|s| - 1 - i] && r[j] == s[|s| - 1 - j];
    }
  }
}
