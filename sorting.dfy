/**
  The descending sort used by the dashboards, written as a stable insertion
  sort on a real-valued key. Stable means that elements with equal keys keep
  the order they had in the input. Python's `sorted(..., reverse=True)`
  guarantees that, so for the top drivers stability is part of the promise.
  pandas `sort_values(ascending=False)` sorts with quicksort by default, which is
  not stable: where it is modelled with this sort, only the order by key is
  promised, and the order among equal keys is one admissible outcome.
*/
module Sorting {

  /** Keys never increase from left to right. */
  ghost predicate SortedDesc<T>(s: seq<T>, key: T -> real) {
    forall i, j :: 0 <= i < j < |s| ==> key(s[i]) >= key(s[j])
  }

  /** Elements with equal keys appear in non-decreasing `ord` order. */
  ghost predicate TiesOrdered<T>(s: seq<T>, key: T -> real, ord: T -> real) {
    forall i, j :: 0 <= i < j < |s| && key(s[i]) == key(s[j]) ==> ord(s[i]) <= ord(s[j])
  }

  /** `ord` never decreases from left to right. */
  ghost predicate Ascending<T>(s: seq<T>, ord: T -> real) {
    forall i, j :: 0 <= i < j < |s| ==> ord(s[i]) <= ord(s[j])
  }

  /** Puts `x` in front of the first element whose key is not larger than its own. */
  function Insert<T>(x: T, s: seq<T>, key: T -> real): (r: seq<T>)
    ensures multiset(r) == multiset(s) + multiset{x}
  {
    if s == [] then [x]
    else if key(s[0]) <= key(x) then [x] + s
    else
      assert s == [s[0]] + s[1..];
      [s[0]] + Insert(x, s[1..], key)
  }

  lemma {:induction false} InsertSorted<T>(x: T, s: seq<T>, key: T -> real)
    requires SortedDesc(s, key)
    ensures SortedDesc(Insert(x, s, key), key)
  {
    if s != [] && key(x) < key(s[0]) {
      assert s == [s[0]] + s[1..];
      InsertSorted(x, s[1..], key);
      var rest := Insert(x, s[1..], key);
      var r := [s[0]] + rest;
      forall j | 0 < j < |r| ensures key(r[0]) >= key(r[j]) {
        assert r[j] == rest[j - 1] && rest[j - 1] in multiset(rest);
        if r[j] != x {
          assert r[j] in multiset(s[1..]);
          var m :| 0 <= m < |s[1..]| && s[1..][m] == r[j];
          assert s[m + 1] == r[j];
        }
      }
      assert r == Insert(x, s, key);
    }
  }

  /** Stable sort by non-increasing key. */
  function SortDesc<T>(s: seq<T>, key: T -> real): (r: seq<T>)
    ensures multiset(r) == multiset(s)
    ensures SortedDesc(r, key)
  {
    if s == [] then []
    else
      assert s == [s[0]] + s[1..];
      var rest := SortDesc(s[1..], key);
      InsertSorted(s[0], rest, key);
      Insert(s[0], rest, key)
  }

  /** Every element of `Insert(x, s, key)` is `x` or an element of `s`. */
  lemma InsertMembers<T>(x: T, s: seq<T>, key: T -> real)
    ensures forall y :: y in Insert(x, s, key) ==> y == x || y in s
  {
    var r := Insert(x, s, key);
    forall y | y in r ensures y == x || y in s {
      assert y in multiset(r);
    }
  }

  /** A head placed in front of a tie-ordered list keeps ties ordered when no later tie ranks below it. */
  lemma ConsKeepsTies<T>(h: T, s: seq<T>, key: T -> real, ord: T -> real)
    requires TiesOrdered(s, key, ord)
    requires forall y :: y in s && key(y) == key(h) ==> ord(h) <= ord(y)
    ensures TiesOrdered([h] + s, key, ord)
  {
    var r := [h] + s;
    forall i, j | 0 <= i < j < |r| && key(r[i]) == key(r[j])
      ensures ord(r[i]) <= ord(r[j])
    {
      assert r[j] == s[j - 1];
      if i > 0 {
        assert r[i] == s[i - 1];
      }
    }
  }

  /** Among the tail of a tie-ordered list, no element tied with the head ranks below it. */
  lemma HeadLeadsTies<T>(s: seq<T>, key: T -> real, ord: T -> real)
    requires s != [] && TiesOrdered(s, key, ord)
    ensures forall y :: y in s[1..] && key(y) == key(s[0]) ==> ord(s[0]) <= ord(y)
  {
    forall y | y in s[1..] && key(y) == key(s[0]) ensures ord(s[0]) <= ord(y) {
      var m :| 0 <= m < |s[1..]| && s[1..][m] == y;
      assert s[m + 1] == y;
    }
  }

  lemma {:induction false} InsertKeepsTies<T>(x: T, s: seq<T>, key: T -> real, ord: T -> real)
    requires SortedDesc(s, key) && TiesOrdered(s, key, ord)
    requires forall y :: y in s ==> ord(x) <= ord(y)
    ensures TiesOrdered(Insert(x, s, key), key, ord)
  {
    if s == [] {
    } else if key(s[0]) <= key(x) {
      ConsKeepsTies(x, s, key, ord);
    } else {
      var tail := s[1..];
      assert s == [s[0]] + tail;
      assert forall y :: y in tail ==> y in s;
      InsertKeepsTies(x, tail, key, ord);
      InsertMembers(x, tail, key);
      HeadLeadsTies(s, key, ord);
      ConsKeepsTies(s[0], Insert(x, tail, key), key, ord);
    }
  }

  /**
    Stability: if the input is ascending in `ord`, then among equal keys the
    output is still ascending in `ord`.
  */
  lemma {:induction false} SortDescIsStable<T>(s: seq<T>, key: T -> real, ord: T -> real)
    requires Ascending(s, ord)
    ensures TiesOrdered(SortDesc(s, key), key, ord)
  {
    if s != [] {
      assert s == [s[0]] + s[1..];
      SortDescIsStable(s[1..], key, ord);
      var rest := SortDesc(s[1..], key);
      forall y | y in rest ensures ord(s[0]) <= ord(y) {
        assert y in multiset(s[1..]);
        var m :| 0 <= m < |s[1..]| && s[1..][m] == y;
        assert s[m + 1] == y;
      }
      InsertKeepsTies(s[0], rest, key, ord);
    }
  }
}
