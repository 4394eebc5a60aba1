/**
 * The array methods the stores are written with — `find`, `some`, `filter`
 * and an id-keyed `map` — as functions over sequences, each with the
 * contract that characterises it.
 */
module Seqs {
  import opened Wrappers

  /** Index of the first element satisfying `matches`, or -1 (`findIndex`). */
  function FirstIndex<T>(xs: seq<T>, matches: T -> bool): (r: int)
    ensures -1 <= r < |xs|
    ensures r >= 0 ==> matches(xs[r])
    ensures r >= 0 ==> forall j :: 0 <= j < r ==> !matches(xs[j])
    ensures r == -1 <==> forall j :: 0 <= j < |xs| ==> !matches(xs[j])
  {
    if xs == [] then -1
    else if matches(xs[0]) then 0
    else
      var r := FirstIndex(xs[1..], matches);
      assert forall j :: 1 <= j < |xs| ==> xs[j] == xs[1..][j - 1];
      if r == -1 then -1 else r + 1
  }

  /** The first element satisfying `matches`, or None (`find`). */
  function Find<T>(xs: seq<T>, matches: T -> bool): (r: Option<T>)
    ensures r.None? <==> forall j :: 0 <= j < |xs| ==> !matches(xs[j])
    ensures r.Some? ==> exists i :: 0 <= i < |xs| && xs[i] == r.value && matches(xs[i])
                          && forall j :: 0 <= j < i ==> !matches(xs[j])
  {
    var i := FirstIndex(xs, matches);
    if i < 0 then None else Some(xs[i])
  }

  /** `find` returns the element at the first matching position. */
  lemma FindFirst<T>(xs: seq<T>, matches: T -> bool, i: int)
    requires 0 <= i < |xs| && matches(xs[i])
    requires forall j :: 0 <= j < i ==> !matches(xs[j])
    ensures Find(xs, matches) == Some(xs[i])
  {
    var k := FirstIndex(xs, matches);
    assert k == i;
  }

  /** Some element satisfies `matches` (`some`). */
  predicate Any<T>(xs: seq<T>, matches: T -> bool) {
    exists i :: 0 <= i < |xs| && matches(xs[i])
  }

  /** `a` is `b` with some elements dropped and the rest kept in order. */
  ghost predicate IsSubsequence<T>(a: seq<T>, b: seq<T>)
    decreases |b|
  {
    a == [] || (b != [] && if a[0] == b[0] then IsSubsequence(a[1..], b[1..]) else IsSubsequence(a, b[1..]))
  }

  /** The elements satisfying `keep`, in order (`filter`). */
  function Filter<T>(xs: seq<T>, keep: T -> bool): (r: seq<T>)
    ensures |r| <= |xs|
    ensures forall i :: 0 <= i < |r| ==> r[i] in xs && keep(r[i])
    ensures forall i :: 0 <= i < |xs| && keep(xs[i]) ==> xs[i] in r
  {
    if xs == [] then []
    else if keep(xs[0]) then [xs[0]] + Filter(xs[1..], keep)
    else Filter(xs[1..], keep)
  }

  /** What `filter` keeps is a subsequence: order is preserved. */
  lemma {:induction false} FilterIsSubsequence<T>(xs: seq<T>, keep: T -> bool)
    ensures IsSubsequence(Filter(xs, keep), xs)
  {
    if xs != [] {
      FilterIsSubsequence(xs[1..], keep);
      var r := Filter(xs, keep);
      if keep(xs[0]) {
        assert r[1..] == Filter(xs[1..], keep);
      } else {
        SubsequenceDropHead(r, xs);
      }
    }
  }

  lemma SubsequenceDropHead<T>(a: seq<T>, b: seq<T>)
    requires b != [] && IsSubsequence(a, b[1..])
    ensures IsSubsequence(a, b)
    decreases |b|, 0
  {
    if a != [] && a[0] == b[0] {
      SubsequenceTail(a, b[1..]);
    }
  }

  lemma SubsequenceTail<T>(a: seq<T>, b: seq<T>)
    requires a != [] && IsSubsequence(a, b)
    ensures IsSubsequence(a[1..], b)
    decreases |b|, 1
  {
    if a[0] != b[0] {
      SubsequenceTail(a, b[1..]);
      SubsequenceDropHead(a[1..], b);
    } else {
      SubsequenceDropHead(a[1..], b);
    }
  }

  /** `filter` distributes over concatenation. */
  lemma {:induction false} FilterAppend<T>(xs: seq<T>, ys: seq<T>, keep: T -> bool)
    ensures Filter(xs + ys, keep) == Filter(xs, keep) + Filter(ys, keep)
  {
    if xs != [] {
      FilterAppend(xs[1..], ys, keep);
      assert (xs + ys)[1..] == xs[1..] + ys;
    } else {
      assert xs + ys == ys;
    }
  }

  /** When `keep` holds everywhere, `filter` returns its input. */
  lemma {:induction false} FilterAll<T>(xs: seq<T>, keep: T -> bool)
    requires forall i :: 0 <= i < |xs| ==> keep(xs[i])
    ensures Filter(xs, keep) == xs
  {
    if xs != [] {
      FilterAll(xs[1..], keep);
    }
  }

  /** Every element of a subsequence occurs in the sequence it was taken from. */
  lemma {:induction false} SubsequenceMembers<T>(a: seq<T>, b: seq<T>)
    requires IsSubsequence(a, b)
    ensures forall i :: 0 <= i < |a| ==> exists k :: 0 <= k < |b| && b[k] == a[i]
    decreases |b|
  {
    if a != [] {
      if a[0] == b[0] {
        SubsequenceMembers(a[1..], b[1..]);
        forall i | 0 <= i < |a| ensures exists k :: 0 <= k < |b| && b[k] == a[i] {
          if i == 0 {
            assert b[0] == a[0];
          } else {
            assert a[1..][i - 1] == a[i];
            var k :| 0 <= k < |b[1..]| && b[1..][k] == a[i];
            assert b[k + 1] == a[i];
          }
        }
      } else {
        SubsequenceMembers(a, b[1..]);
        forall i | 0 <= i < |a| ensures exists k :: 0 <= k < |b| && b[k] == a[i] {
          var k :| 0 <= k < |b[1..]| && b[1..][k] == a[i];
          assert b[k + 1] == a[i];
        }
      }
    }
  }

  /** Filtering drops the one rejected element and keeps everything around it, in order. */
  lemma FilterDropsOne<T>(pre: seq<T>, x: T, post: seq<T>, keep: T -> bool)
    requires forall i :: 0 <= i < |pre| ==> keep(pre[i])
    requires !keep(x)
    requires forall i :: 0 <= i < |post| ==> keep(post[i])
    ensures Filter(pre + [x] + post, keep) == pre + post
  {
    var mid := [x];
    var left := pre + mid;
    FilterAppend(left, post, keep);
    FilterAppend(pre, mid, keep);
    FilterAll(pre, keep);
    FilterAll(post, keep);
    assert mid[1..] == [];
    var e: seq<T> := [];
    assert Filter(mid, keep) == Filter(e, keep) == e;
    assert Filter(left, keep) == pre;
  }

  /** Replaces every element satisfying `matches` by its image under `f` (the stores' `map` updates). */
  function UpdateWhere<T>(xs: seq<T>, matches: T -> bool, f: T -> T): (r: seq<T>)
    ensures |r| == |xs|
    ensures forall i :: 0 <= i < |xs| ==> r[i] == if matches(xs[i]) then f(xs[i]) else xs[i]
  {
    if xs == [] then [] else [if matches(xs[0]) then f(xs[0]) else xs[0]] + UpdateWhere(xs[1..], matches, f)
  }

  /** Sum of an integer measure over the elements (`reduce((t, x) => t + m(x), 0)`). */
  function Sum<T>(xs: seq<T>, m: T -> int): int
  {
    if xs == [] then 0 else m(xs[0]) + Sum(xs[1..], m)
  }

  lemma {:induction false} SumAppend<T>(xs: seq<T>, ys: seq<T>, m: T -> int)
    ensures Sum(xs + ys, m) == Sum(xs, m) + Sum(ys, m)
  {
    if xs == [] {
      assert xs + ys == ys;
    } else {
      SumAppend(xs[1..], ys, m);
      assert (xs + ys)[1..] == xs[1..] + ys;
    }
  }

  /** Non-negative measures give a non-negative sum. */
  lemma {:induction false} SumNonNegative<T>(xs: seq<T>, m: T -> int)
    requires forall i :: 0 <= i < |xs| ==> m(xs[i]) >= 0
    ensures Sum(xs, m) >= 0
  {
    if xs != [] {
      assert forall i :: 0 <= i < |xs| - 1 ==> xs[1..][i] == xs[i + 1];
      SumNonNegative(xs[1..], m);
    }
  }

  /** Bounds on every measure bound the sum. */
  lemma {:induction false} SumBounds<T>(xs: seq<T>, m: T -> int, lo: int, hi: int)
    requires forall i :: 0 <= i < |xs| ==> lo <= m(xs[i]) <= hi
    ensures lo * |xs| <= Sum(xs, m) <= hi * |xs|
  {
    if xs != [] {
      assert forall i :: 0 <= i < |xs| - 1 ==> xs[1..][i] == xs[i + 1];
      SumBounds(xs[1..], m, lo, hi);
    }
  }

  /** A weaker filter keeps at least what a stronger one keeps, in the same order. */
  lemma {:induction false} FilterMonotone<T>(xs: seq<T>, strong: T -> bool, weak: T -> bool)
    requires forall i :: 0 <= i < |xs| && strong(xs[i]) ==> weak(xs[i])
    ensures IsSubsequence(Filter(xs, strong), Filter(xs, weak))
    decreases |xs|
  {
    if xs != [] {
      assert forall i :: 0 <= i < |xs| - 1 ==> xs[1..][i] == xs[i + 1];
      FilterMonotone(xs[1..], strong, weak);
      var a, b := Filter(xs[1..], strong), Filter(xs[1..], weak);
      if strong(xs[0]) {
        assert Filter(xs, strong) == [xs[0]] + a && Filter(xs, weak) == [xs[0]] + b;
        assert ([xs[0]] + a)[1..] == a && ([xs[0]] + b)[1..] == b;
      } else if weak(xs[0]) {
        assert Filter(xs, weak) == [xs[0]] + b;
        assert ([xs[0]] + b)[1..] == b;
        SubsequenceDropHead(a, [xs[0]] + b);
      }
    }
  }
}
