/**
 * Stable sorting by an integer key. JavaScript's `Array.prototype.sort` is
 * stable, and every comparator the storefront passes to it is of the form
 * `(a, b) => key(a) - key(b)` for an integer key (prices, timestamps, the
 * featured flag), so one stable sort by key stands for all of them.
 */
module Sorting {

  /** Keys never decrease along the sequence. */
  ghost predicate SortedBy<T>(xs: seq<T>, key: T -> int) {
    forall i, j :: 0 <= i < j < |xs| ==> key(xs[i]) <= key(xs[j])
  }

  /** The elements whose key is `k`, in their original order. */
  function WithKey<T>(xs: seq<T>, key: T -> int, k: int): (r: seq<T>)
    ensures |r| <= |xs|
  {
    if xs == [] then []
    else if key(xs[0]) == k then [xs[0]] + WithKey(xs[1..], key, k)
    else WithKey(xs[1..], key, k)
  }

  /** Inserts `x` before the first element whose key is not smaller than its own. */
  function Insert<T>(x: T, xs: seq<T>, key: T -> int): (r: seq<T>)
  {
    if xs == [] || key(x) <= key(xs[0]) then [x] + xs
    else [xs[0]] + Insert(x, xs[1..], key)
  }

  /** Insertion sort: the head is inserted into the sorted tail. */
  function SortBy<T>(xs: seq<T>, key: T -> int): (r: seq<T>)
  {
    if xs == [] then [] else Insert(xs[0], SortBy(xs[1..], key), key)
  }

  lemma {:induction false} InsertPermutes<T>(x: T, xs: seq<T>, key: T -> int)
    ensures multiset(Insert(x, xs, key)) == multiset{x} + multiset(xs)
  {
    if xs != [] && key(x) > key(xs[0]) {
      InsertPermutes(x, xs[1..], key);
      assert xs == [xs[0]] + xs[1..];
    }
  }

  lemma {:induction false} InsertSorted<T>(x: T, xs: seq<T>, key: T -> int)
    requires SortedBy(xs, key)
    ensures SortedBy(Insert(x, xs, key), key)
    ensures Insert(x, xs, key) != []
    ensures key(Insert(x, xs, key)[0]) == key(x) || (xs != [] && Insert(x, xs, key)[0] == xs[0])
  {
    if xs != [] && key(x) > key(xs[0]) {
      InsertSorted(x, xs[1..], key);
      var t := Insert(x, xs[1..], key);
      assert forall j :: 0 <= j < |t| ==> key(xs[0]) <= key(t[j]) by {
        InsertPermutes(x, xs[1..], key);
        forall j | 0 <= j < |t|
          ensures key(xs[0]) <= key(t[j])
        {
          assert t[j] in multiset(t);
          assert t[j] == x || t[j] in multiset(xs[1..]);
          if t[j] != x {
            assert t[j] in xs[1..];
          }
        }
      }
    }
  }

  lemma {:induction false} InsertKeepsKeyClasses<T>(x: T, xs: seq<T>, key: T -> int, k: int)
    requires SortedBy(xs, key)
    ensures WithKey(Insert(x, xs, key), key, k)
         == (if key(x) == k then [x] else []) + WithKey(xs, key, k)
  {
    if xs != [] && key(x) > key(xs[0]) {
      InsertKeepsKeyClasses(x, xs[1..], key, k);
      assert [xs[0]] + Insert(x, xs[1..], key) == Insert(x, xs, key);
      var t := Insert(x, xs[1..], key);
      assert ([xs[0]] + t)[1..] == t;
    }
  }

  /** The sort returns a permutation of its input. */
  lemma {:induction false} SortPermutes<T>(xs: seq<T>, key: T -> int)
    ensures multiset(SortBy(xs, key)) == multiset(xs)
    ensures |SortBy(xs, key)| == |xs|
  {
    if xs != [] {
      SortPermutes(xs[1..], key);
      InsertPermutes(xs[0], SortBy(xs[1..], key), key);
      assert xs == [xs[0]] + xs[1..];
    }
    assert |multiset(SortBy(xs, key))| == |SortBy(xs, key)|;
  }

  /** The sort's output is ordered by key. */
  lemma {:induction false} SortSorted<T>(xs: seq<T>, key: T -> int)
    ensures SortedBy(SortBy(xs, key), key)
  {
    if xs != [] {
      SortSorted(xs[1..], key);
      InsertSorted(xs[0], SortBy(xs[1..], key), key);
    }
  }

  /**
   * Stability: the elements sharing any one key keep their input order.
   */
  lemma {:induction false} SortStable<T>(xs: seq<T>, key: T -> int, k: int)
    ensures WithKey(SortBy(xs, key), key, k) == WithKey(xs, key, k)
  {
    if xs != [] {
      SortStable(xs[1..], key, k);
      SortSorted(xs[1..], key);
      InsertKeepsKeyClasses(xs[0], SortBy(xs[1..], key), key, k);
    }
  }

  /** A sequence already in key order is left exactly as it is. */
  lemma {:induction false} SortOfSortedIsIdentity<T>(xs: seq<T>, key: T -> int)
    requires SortedBy(xs, key)
    ensures SortBy(xs, key) == xs
  {
    if xs != [] {
      var tail := xs[1..];
      assert SortedBy(tail, key);
      SortOfSortedIsIdentity(tail, key);
      assert xs == [xs[0]] + tail;
    }
  }

  /** Sorting twice is sorting once. */
  lemma SortIdempotent<T>(xs: seq<T>, key: T -> int)
    ensures SortBy(SortBy(xs, key), key) == SortBy(xs, key)
  {
    SortSorted(xs, key);
    SortOfSortedIsIdentity(SortBy(xs, key), key);
  }

  /** A head whose key is minimal stays in front: ties with it do not overtake it. */
  lemma SortKeepsMinimalHeadFirst<T>(xs: seq<T>, key: T -> int)
    requires xs != []
    requires forall i :: 0 <= i < |xs| ==> key(xs[0]) <= key(xs[i])
    ensures SortBy(xs, key) != [] && SortBy(xs, key)[0] == xs[0]
  {
    var tail := xs[1..];
    var sorted := SortBy(tail, key);
    SortPermutes(tail, key);
    if sorted != [] {
      assert sorted[0] in multiset(tail);
      var k :| 0 <= k < |tail| && tail[k] == sorted[0];
      assert tail[k] == xs[k + 1];
    }
  }
}
