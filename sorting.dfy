// Ordering of query results. The SQL `ORDER BY a, b` clauses and the
// client-side sorts of the CMS are modelled by one stable insertion sort on
// a two-part integer key.

module Sorting {

  /** Lexicographic order on `(a, b)` keys, as `ORDER BY a, b` sorts. */
  predicate KeyLe(x: (int, int), y: (int, int))
  {
    x.0 < y.0 || (x.0 == y.0 && x.1 <= y.1)
  }

  predicate SortedByKey<T>(s: seq<T>, key: T -> (int, int))
  {
    forall i, j :: 0 <= i < j < |s| ==> KeyLe(key(s[i]), key(s[j]))
  }

  /**
   * Puts `x` in front of the first element whose key is not smaller. Sorting
   * inserts each element into the sorted rest behind it, so elements with
   * equal keys keep their original order.
   */
  function Insert<T>(x: T, s: seq<T>, key: T -> (int, int)): (r: seq<T>)
    ensures |r| == |s| + 1
  {
    if s == [] || KeyLe(key(x), key(s[0])) then [x] + s
    else [s[0]] + Insert(x, s[1..], key)
  }

  /** Inserting into a sorted sequence keeps it sorted and adds exactly `x`. */
  lemma {:induction false} InsertSpec<T>(x: T, s: seq<T>, key: T -> (int, int))
    requires SortedByKey(s, key)
    ensures SortedByKey(Insert(x, s, key), key)
    ensures multiset(Insert(x, s, key)) == multiset(s) + multiset{x}
  {
    if s == [] || KeyLe(key(x), key(s[0])) {
      FrontSorted(x, s, key);
    } else {
      SortedTail(s, key);
      InsertSpec(x, s[1..], key);
      assert s == [s[0]] + s[1..];
      BelowRest(s[0], x, s[1..], Insert(x, s[1..], key), key);
      FrontSorted(s[0], Insert(x, s[1..], key), key);
    }
  }

  /** The tail of a sorted sequence is sorted. */
  lemma {:induction false} SortedTail<T>(s: seq<T>, key: T -> (int, int))
    requires s != [] && SortedByKey(s, key)
    ensures SortedByKey(s[1..], key)
  {
    forall i, j | 0 <= i < j < |s[1..]|
      ensures KeyLe(key(s[1..][i]), key(s[1..][j]))
    {
      assert s[1..][i] == s[i + 1] && s[1..][j] == s[j + 1];
    }
  }

  /** An element not above the head of a sorted sequence may go in front of it. */
  lemma {:induction false} FrontSorted<T>(x: T, s: seq<T>, key: T -> (int, int))
    requires SortedByKey(s, key) && (s == [] || KeyLe(key(x), key(s[0])))
    ensures SortedByKey([x] + s, key)
  {
    var r := [x] + s;
    forall i, j | 0 <= i < j < |r|
      ensures KeyLe(key(r[i]), key(r[j]))
    {
      assert r[j] == s[j - 1];
      if i > 0 {
        assert r[i] == s[i - 1];
      } else if j > 1 {
        assert KeyLe(key(s[0]), key(s[j - 1]));
      }
    }
  }

  /** `y`, not above any element of `t` nor above `x`, is not above any element of `t` with `x` added. */
  lemma {:induction false} BelowRest<T>(y: T, x: T, t: seq<T>, rest: seq<T>, key: T -> (int, int))
    requires multiset(rest) == multiset(t) + multiset{x} && !KeyLe(key(x), key(y))
    requires forall k :: 0 <= k < |t| ==> KeyLe(key(y), key(t[k]))
    ensures rest == [] || KeyLe(key(y), key(rest[0]))
  {
    if rest != [] {
      assert rest[0] in multiset(rest);
      if rest[0] != x {
        assert rest[0] in multiset(t);
        var m :| 0 <= m < |t| && t[m] == rest[0];
      }
    }
  }

  /** Stable insertion sort: ascending by key, a permutation of `s` (see `SortBySpec`). */
  function SortBy<T>(s: seq<T>, key: T -> (int, int)): (r: seq<T>)
    ensures |r| == |s|
  {
    if s == [] then []
    else Insert(s[0], SortBy(s[1..], key), key)
  }

  /** The sort is ascending by key and a permutation of its input. */
  lemma {:induction false} SortBySpec<T>(s: seq<T>, key: T -> (int, int))
    ensures SortedByKey(SortBy(s, key), key)
    ensures multiset(SortBy(s, key)) == multiset(s)
  {
    if s != [] {
      SortBySpec(s[1..], key);
      InsertSpec(s[0], SortBy(s[1..], key), key);
      assert s == [s[0]] + s[1..];
    }
  }

  /** Sorting keeps exactly the elements it was given. */
  lemma {:induction false} SortByMembers<T>(s: seq<T>, key: T -> (int, int), x: T)
    ensures x in SortBy(s, key) <==> x in s
  {
    var r := SortBy(s, key);
    SortBySpec(s, key);
    assert x in r <==> x in multiset(r);
    assert x in s <==> x in multiset(s);
  }
}
