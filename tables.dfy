/** Generic operations over the rows of a table, held as a sequence: the
    WHERE, ORDER BY, LIMIT and primary-key lookups that every query of the
    repository is built from. */
module Tables {
  import opened Wrappers

  /** The rows of `s` that satisfy `p`, in table order (SQL `WHERE`).
      The result holds each satisfying row exactly as often as `s` does and
      nothing else. */
  function Filter<T(!new)>(s: seq<T>, p: T -> bool): (r: seq<T>)
    ensures |r| <= |s|
    ensures forall x :: multiset(r)[x] == if p(x) then multiset(s)[x] else 0
    ensures forall x :: x in r <==> x in s && p(x)
  {
    if s == [] then []
    else
      var init, last := s[..|s| - 1], s[|s| - 1];
      assert s == init + [last];
      Filter(init, p) + (if p(last) then [last] else [])
  }

  /** The keys of `s` never decrease from left to right. */
  predicate SortedBy<T>(s: seq<T>, key: T -> int) {
    forall i, j :: 0 <= i < j < |s| ==> key(s[i]) <= key(s[j])
  }

  /** A row no greater than every row of a sorted sequence can lead it. */
  lemma ConsSorted<T>(h: T, s: seq<T>, key: T -> int)
    requires SortedBy(s, key)
    requires forall y :: y in s ==> key(h) <= key(y)
    ensures SortedBy([h] + s, key)
  {
    var t := [h] + s;
    forall i, j | 0 <= i < j < |t| ensures key(t[i]) <= key(t[j]) {
      assert t[j] == s[j - 1];
      if i > 0 {
        assert t[i] == s[i - 1];
      }
    }
  }

  /** Inserts `x` into the sorted `s` before the first row whose key is not
      smaller. */
  function Insert<T(!new)>(x: T, s: seq<T>, key: T -> int): (r: seq<T>)
    requires SortedBy(s, key)
    ensures SortedBy(r, key)
    ensures multiset(r) == multiset(s) + multiset{x}
    ensures forall y :: y in r <==> y == x || y in s
  {
    if s == [] then [x]
    else if key(x) <= key(s[0]) then [x] + s
    else
      var rest := Insert(x, s[1..], key);
      assert s == [s[0]] + s[1..];
      forall y | y in rest ensures key(s[0]) <= key(y) {
        assert y == x || y in s[1..];
      }
      ConsSorted(s[0], rest, key);
      [s[0]] + rest
  }

  /** The rows of `s` ordered by ascending key (SQL `ORDER BY key ASC`; to
      order descending, pass the negated key). Rows with equal keys may come
      in any order: SQL leaves it open, and only the order of keys and the
      multiset of rows are promised. */
  function SortBy<T(!new)>(s: seq<T>, key: T -> int): (r: seq<T>)
    ensures SortedBy(r, key)
    ensures multiset(r) == multiset(s)
    ensures forall x :: x in r <==> x in s
  {
    if s == [] then []
    else
      assert s == [s[0]] + s[1..];
      assert forall x :: x in s <==> x == s[0] || x in s[1..];
      Insert(s[0], SortBy(s[1..], key), key)
  }

  /** SQL `LIMIT n`: the first `n` rows, or all of them when there are fewer;
      SQLite reads a negative limit as "no upper bound". */
  function Limit<T>(s: seq<T>, n: int): (r: seq<T>)
    ensures |r| <= |s|
    ensures n < 0 ==> r == s
    ensures 0 <= n ==> |r| == if n < |s| then n else |s|
    ensures r == s[..|r|]
  {
    if n < 0 || n >= |s| then s else s[..n]
  }

  /** The first row satisfying `p` (SQL `WHERE … LIMIT 1` on an unordered
      table), or None when there is none. */
  function FindFirst<T>(s: seq<T>, p: T -> bool): (r: Option<T>)
    ensures r.None? <==> forall x :: x in s ==> !p(x)
    ensures r.Some? ==> r.value in s && p(r.value)
  {
    if s == [] then None
    else if p(s[0]) then Some(s[0])
    else
      assert forall x :: x in s ==> x == s[0] || x in s[1..];
      FindFirst(s[1..], p)
  }

  /** No two rows of `s` share a key (a primary-key constraint). */
  predicate Distinct<T, K(==)>(s: seq<T>, key: T -> K) {
    forall i, j :: 0 <= i < j < |s| ==> key(s[i]) != key(s[j])
  }

  /** Under a primary key, two rows with the same key are the same row. */
  lemma {:induction false} DistinctKeyDetermines<T, K>(s: seq<T>, key: T -> K, x: T, y: T)
    requires Distinct(s, key)
    requires x in s && y in s && key(x) == key(y)
    ensures x == y
  {
    var i :| 0 <= i < |s| && s[i] == x;
    var j :| 0 <= j < |s| && s[j] == y;
    assert i < j ==> key(x) != key(y);
    assert j < i ==> key(y) != key(x);
  }

  /** Appending a row whose key no row has keeps a primary key valid. */
  lemma DistinctAppend<T, K>(s: seq<T>, x: T, key: T -> K)
    requires Distinct(s, key)
    requires forall y :: y in s ==> key(y) != key(x)
    ensures Distinct(s + [x], key)
  {
    var t := s + [x];
    forall i, j | 0 <= i < j < |t| ensures key(t[i]) != key(t[j]) {
      if j == |s| {
        assert t[i] in s;
      } else {
        assert key(s[i]) != key(s[j]);
      }
    }
  }

  /** Deleting rows keeps a primary key valid. */
  lemma {:induction false} FilterDistinct<T(!new), K>(s: seq<T>, p: T -> bool, key: T -> K)
    requires Distinct(s, key)
    ensures Distinct(Filter(s, p), key)
  {
    if s != [] {
      var init, last := s[..|s| - 1], s[|s| - 1];
      FilterDistinct(init, p, key);
      var f := Filter(init, p);
      forall y | y in f ensures key(y) != key(last) {
        var i :| 0 <= i < |init| && init[i] == y;
        assert s[i] == y && i < |s| - 1;
      }
      if p(last) {
        DistinctAppend(f, last, key);
      }
    }
  }
}
