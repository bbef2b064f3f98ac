/**
 * Ordering by an integer key, as Kotlin's `sortedBy { ... }` and SQL's
 * `ORDER BY <column> ASC` produce it: a permutation of the input whose keys
 * never decrease. Insertion sort is one such ordering; the properties below
 * are all a caller may rely on.
 */
module Ordering {

  /** Keys never decrease along `s`. */
  predicate SortedBy<T>(s: seq<T>, key: T -> int)
  {
    forall i, j :: 0 <= i < j < |s| ==> key(s[i]) <= key(s[j])
  }

  /** Keys strictly increase along `s`. */
  predicate StrictlySortedBy<T>(s: seq<T>, key: T -> int)
  {
    forall i, j :: 0 <= i < j < |s| ==> key(s[i]) < key(s[j])
  }

  /** No two positions of `s` share a key. */
  predicate KeysDistinct<T>(s: seq<T>, key: T -> int)
  {
    forall i, j :: 0 <= i < j < |s| ==> key(s[i]) != key(s[j])
  }

  /** `x` placed before the first element whose key is not smaller. */
  function Insert<T>(x: T, s: seq<T>, key: T -> int): (r: seq<T>)
    requires SortedBy(s, key)
    ensures SortedBy(r, key)
    ensures multiset(r) == multiset(s) + multiset{x}
  {
    if |s| == 0 then [x]
    else if key(x) <= key(s[0]) then [x] + s
    else
      var rest := Insert(x, s[1..], key);
      assert s == [s[0]] + s[1..];
      KeysAtLeast(key(s[0]), rest, s[1..] + [x], key);
      [s[0]] + rest
  }

  /** A lower bound on the keys of `s` bounds the keys of any reordering of it. */
  lemma KeysAtLeast<T>(lo: int, r: seq<T>, s: seq<T>, key: T -> int)
    requires multiset(r) == multiset(s)
    requires forall k :: 0 <= k < |s| ==> lo <= key(s[k])
    ensures forall k :: 0 <= k < |r| ==> lo <= key(r[k])
  {
    forall k | 0 <= k < |r|
      ensures lo <= key(r[k])
    {
      assert r[k] in multiset(s);
      var j :| 0 <= j < |s| && s[j] == r[k];
    }
  }

  /** `xs.sortedBy(key)`: a permutation of `xs` in non-decreasing key order. */
  function SortBy<T>(xs: seq<T>, key: T -> int): (r: seq<T>)
    ensures SortedBy(r, key)
    ensures multiset(r) == multiset(xs)
  {
    if |xs| == 0 then []
    else
      assert xs == [xs[0]] + xs[1..];
      Insert(xs[0], SortBy(xs[1..], key), key)
  }

  /** Inserting a key not yet present into a strictly sorted sequence keeps it strictly sorted. */
  lemma {:induction false} InsertStrict<T>(x: T, s: seq<T>, key: T -> int)
    requires StrictlySortedBy(s, key)
    requires forall k :: 0 <= k < |s| ==> key(s[k]) != key(x)
    ensures StrictlySortedBy(Insert(x, s, key), key)
  {
    if |s| > 0 && key(x) > key(s[0]) {
      InsertStrict(x, s[1..], key);
      KeysAtLeast(key(s[0]) + 1, Insert(x, s[1..], key), s[1..] + [x], key);
    }
  }

  /** Sorting elements with pairwise distinct keys orders them strictly. */
  lemma {:induction false} SortByStrict<T>(xs: seq<T>, key: T -> int)
    requires KeysDistinct(xs, key)
    ensures StrictlySortedBy(SortBy(xs, key), key)
  {
    if |xs| > 0 {
      SortByStrict(xs[1..], key);
      var s := SortBy(xs[1..], key);
      forall k | 0 <= k < |s|
        ensures key(s[k]) != key(xs[0])
      {
        assert s[k] in multiset(xs[1..]);
        var j :| 0 <= j < |xs[1..]| && xs[1..][j] == s[k];
        assert xs[j + 1] == s[k];
      }
      InsertStrict(xs[0], s, key);
    }
  }
}
