/**
 * Stable sorting by a descending integer key: `Array.prototype.sort` with a
 * comparator `(a, b) => key(b) - key(a)`, which keeps equal-key elements in
 * their original order.
 */
module Ordering {
  import opened Sequences

  /** Keys never increase along `s`. */
  ghost predicate SortedDesc<T>(s: seq<T>, key: T -> int) {
    forall i, j :: 0 <= i < j < |s| ==> key(s[i]) >= key(s[j])
  }

  /** Every key in `s` is at most `b`. */
  ghost predicate KeysAtMost<T>(s: seq<T>, key: T -> int, b: int) {
    forall i :: 0 <= i < |s| ==> key(s[i]) <= b
  }

  /** Insert `x` before the first element whose key is smaller than or equal to its own. */
  function InsertDesc<T>(x: T, s: seq<T>, key: T -> int): (r: seq<T>)
    ensures multiset(r) == multiset(s) + multiset{x}
    ensures |r| == |s| + 1
  {
    if s == [] || key(x) >= key(s[0]) then [x] + s
    else
      assert s == [s[0]] + s[1..];
      [s[0]] + InsertDesc(x, s[1..], key)
  }

  /** Inserting an element no larger than a bound keeps every key under it. */
  lemma {:induction false} InsertKeepsBound<T>(x: T, s: seq<T>, key: T -> int, b: int)
    requires key(x) <= b && KeysAtMost(s, key, b)
    ensures KeysAtMost(InsertDesc(x, s, key), key, b)
  {
    if s != [] && key(x) < key(s[0]) {
      InsertKeepsBound(x, s[1..], key, b);
      var r := InsertDesc(x, s, key);
      assert r == [s[0]] + InsertDesc(x, s[1..], key);
    }
  }

  /** An element at least as large as every key of a sorted sequence can go in front of it. */
  lemma ConsSorted<T>(x: T, s: seq<T>, key: T -> int)
    requires SortedDesc(s, key) && KeysAtMost(s, key, key(x))
    ensures SortedDesc([x] + s, key)
  {
    var r := [x] + s;
    forall i, j | 0 <= i < j < |r| ensures key(r[i]) >= key(r[j]) {
      assert r[j] == s[j - 1];
      if i > 0 { assert r[i] == s[i - 1]; }
    }
  }

  /** Insertion into a sorted sequence keeps it sorted. */
  lemma {:induction false} InsertKeepsSorted<T>(x: T, s: seq<T>, key: T -> int)
    requires SortedDesc(s, key)
    ensures SortedDesc(InsertDesc(x, s, key), key)
  {
    if s != [] && key(x) < key(s[0]) {
      var rest := InsertDesc(x, s[1..], key);
      InsertKeepsSorted(x, s[1..], key);
      InsertKeepsBound(x, s[1..], key, key(s[0]));
      ConsSorted(s[0], rest, key);
    } else {
      ConsSorted(x, s, key);
    }
  }

  /** The sorted permutation of `s`; elements with equal keys keep their order. */
  function SortDesc<T>(s: seq<T>, key: T -> int): (r: seq<T>)
    ensures multiset(r) == multiset(s) && |r| == |s|
    ensures SortedDesc(r, key)
  {
    if s == [] then []
    else
      assert s == [s[0]] + s[1..];
      var rest := SortDesc(s[1..], key);
      InsertKeepsSorted(s[0], rest, key);
      InsertDesc(s[0], rest, key)
  }

  /** A single element is already sorted. */
  lemma SortSingleton<T>(x: T, key: T -> int)
    ensures SortDesc([x], key) == [x]
  {
    assert [x][1..] == [];
  }

  /** Holds of the elements whose key is `k`. */
  function SameKey<T>(key: T -> int, k: int): T -> bool {
    (y: T) => key(y) == k
  }

  /**
   * Insertion puts the new element ahead of every element with its key, and
   * no element with its key is skipped over.
   */
  lemma {:induction false} InsertFilterKey<T>(x: T, s: seq<T>, key: T -> int, k: int)
    ensures Filter(InsertDesc(x, s, key), SameKey(key, k))
         == (if key(x) == k then [x] else []) + Filter(s, SameKey(key, k))
    decreases |s|
  {
    var eq := SameKey(key, k);
    if s == [] || key(x) >= key(s[0]) {
      FilterCons(x, s, eq);
    } else {
      var rest := InsertDesc(x, s[1..], key);
      assert InsertDesc(x, s, key) == [s[0]] + rest;
      assert s == [s[0]] + s[1..];
      FilterCons(s[0], rest, eq);
      FilterCons(s[0], s[1..], eq);
      InsertFilterKey(x, s[1..], key, k);
      if eq(x) {
        assert !eq(s[0]);
      }
    }
  }

  /** The sort is stable: the elements of any one key keep their input order. */
  lemma {:induction false} SortDescStable<T>(s: seq<T>, key: T -> int, k: int)
    ensures Filter(SortDesc(s, key), SameKey(key, k)) == Filter(s, SameKey(key, k))
    decreases |s|
  {
    if s != [] {
      SortDescStable(s[1..], key, k);
      InsertFilterKey(s[0], SortDesc(s[1..], key), key, k);
    }
  }

  /** Every element of the sorted sequence comes from the input, and back. */
  lemma SortKeepsElements<T>(s: seq<T>, key: T -> int)
    ensures forall x :: x in SortDesc(s, key) <==> x in s
  {
    var r := SortDesc(s, key);
    forall x ensures x in r <==> x in s {
      assert x in r <==> x in multiset(r);
      assert x in s <==> x in multiset(s);
    }
  }

  /** The first `n` elements, or all of them when there are fewer. */
  function Take<T>(s: seq<T>, n: nat): (r: seq<T>)
    ensures |r| == if |s| < n then |s| else n
    ensures r <= s
  {
    if |s| <= n then s else s[..n]
  }

  /** A prefix of a sorted sequence is sorted. */
  lemma TakeSorted<T>(s: seq<T>, n: nat, key: T -> int)
    requires SortedDesc(s, key)
    ensures SortedDesc(Take(s, n), key)
  {
  }
}
