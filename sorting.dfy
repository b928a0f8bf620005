/**
 * Stable sorting of a sequence by a real-valued rank, in ascending or
 * descending order. Both sorts of the inventory listing are of this kind: the
 * driver's `sort({ fecha: -1 })` and the per-month `Array.prototype.sort`
 * on `valor`, which ECMAScript requires to be stable.
 */
module Sorting {

  /** In the order chosen by `desc`, `a` may stand before `b`. */
  predicate Precedes<T>(rank: T -> real, desc: bool, a: T, b: T)
  {
    if desc then rank(a) >= rank(b) else rank(a) <= rank(b)
  }

  predicate Sorted<T>(s: seq<T>, rank: T -> real, desc: bool)
  {
    forall i, j :: 0 <= i < j < |s| ==> Precedes(rank, desc, s[i], s[j])
  }

  /** The elements of `s` whose rank is `v`, in their order in `s`. */
  function WithRank<T>(s: seq<T>, rank: T -> real, v: real): seq<T>
  {
    if s == [] then []
    else WithRank(s[..|s| - 1], rank, v) + (if rank(s[|s| - 1]) == v then [s[|s| - 1]] else [])
  }

  /** Places `x` after every element of `t` that may precede it. */
  function Insert<T>(t: seq<T>, x: T, rank: T -> real, desc: bool): (r: seq<T>)
    ensures multiset(r) == multiset(t) + multiset{x}
  {
    if t == [] then [x]
    else if Precedes(rank, desc, t[|t| - 1], x) then t + [x]
    else
      assert t == t[..|t| - 1] + [t[|t| - 1]];
      Insert(t[..|t| - 1], x, rank, desc) + [t[|t| - 1]]
  }

  /** Insertion sort: the reference for a stable sort by `rank`. */
  function SortBy<T>(s: seq<T>, rank: T -> real, desc: bool): (r: seq<T>)
    ensures multiset(r) == multiset(s)
    ensures |r| == |s|
  {
    if s == [] then []
    else
      assert s == s[..|s| - 1] + [s[|s| - 1]];
      var r := Insert(SortBy(s[..|s| - 1], rank, desc), s[|s| - 1], rank, desc);
      assert |r| == |multiset(r)|;
      r
  }

  lemma {:induction false} InsertSorted<T>(t: seq<T>, x: T, rank: T -> real, desc: bool)
    requires Sorted(t, rank, desc)
    ensures Sorted(Insert(t, x, rank, desc), rank, desc)
    decreases |t|
  {
    if t != [] {
      var last := t[|t| - 1];
      if Precedes(rank, desc, last, x) {
        var r := t + [x];
        forall i, j | 0 <= i < j < |r| ensures Precedes(rank, desc, r[i], r[j]) {
          if j == |t| && i < |t| - 1 {
            assert Precedes(rank, desc, t[i], last);
          }
        }
      } else {
        var init := t[..|t| - 1];
        InsertSorted(init, x, rank, desc);
        var ins := Insert(init, x, rank, desc);
        var r := ins + [last];
        forall i, j | 0 <= i < j < |r| ensures Precedes(rank, desc, r[i], r[j]) {
          if j == |ins| {
            assert r[i] in multiset(ins);
            if r[i] != x {
              assert r[i] in multiset(init);
              var k :| 0 <= k < |init| && init[k] == r[i];
              assert Precedes(rank, desc, t[k], t[|t| - 1]);
            }
          }
        }
      }
    }
  }

  /** The sort orders its input as `desc` asks. */
  lemma {:induction false} SortBySorted<T>(s: seq<T>, rank: T -> real, desc: bool)
    ensures Sorted(SortBy(s, rank, desc), rank, desc)
  {
    if s != [] {
      SortBySorted(s[..|s| - 1], rank, desc);
      InsertSorted(SortBy(s[..|s| - 1], rank, desc), s[|s| - 1], rank, desc);
    }
  }

  /** Appending one element extends the elements of rank `v` by it, if it has that rank. */
  lemma WithRankSnoc<T>(s: seq<T>, x: T, rank: T -> real, v: real)
    ensures WithRank(s + [x], rank, v) == WithRank(s, rank, v) + (if rank(x) == v then [x] else [])
  {
    assert (s + [x])[..|s|] == s;
  }

  lemma {:induction false} InsertStable<T>(t: seq<T>, x: T, rank: T -> real, desc: bool, v: real)
    ensures WithRank(Insert(t, x, rank, desc), rank, v)
         == WithRank(t, rank, v) + (if rank(x) == v then [x] else [])
    decreases |t|
  {
    if t == [] {
      WithRankSnoc([], x, rank, v);
    } else if Precedes(rank, desc, t[|t| - 1], x) {
      WithRankSnoc(t, x, rank, v);
    } else {
      var init, last := t[..|t| - 1], t[|t| - 1];
      var ins := Insert(init, x, rank, desc);
      InsertStable(init, x, rank, desc, v);
      assert init + [last] == t;
      assert Insert(t, x, rank, desc) == ins + [last];
      StableStep(init, ins, last, x, rank, v);
    }
  }

  /** The step of `InsertStable` where `x` moves past a last element of another rank. */
  lemma StableStep<T>(init: seq<T>, ins: seq<T>, last: T, x: T, rank: T -> real, v: real)
    requires rank(last) != rank(x)
    requires WithRank(ins, rank, v) == WithRank(init, rank, v) + (if rank(x) == v then [x] else [])
    ensures WithRank(ins + [last], rank, v)
         == WithRank(init + [last], rank, v) + (if rank(x) == v then [x] else [])
  {
    var xs := if rank(x) == v then [x] else [];
    var ls := if rank(last) == v then [last] else [];
    WithRankSnoc(ins, last, rank, v);
    WithRankSnoc(init, last, rank, v);
    assert xs + ls == ls + xs;
    calc {
      WithRank(ins + [last], rank, v);
      WithRank(init, rank, v) + xs + ls;
      WithRank(init, rank, v) + (xs + ls);
      WithRank(init, rank, v) + (ls + xs);
      WithRank(init, rank, v) + ls + xs;
    }
  }

  /** Stability: elements of equal rank keep their relative order. */
  lemma {:induction false} SortByStable<T>(s: seq<T>, rank: T -> real, desc: bool, v: real)
    ensures WithRank(SortBy(s, rank, desc), rank, v) == WithRank(s, rank, v)
  {
    if s != [] {
      SortByStable(s[..|s| - 1], rank, desc, v);
      InsertStable(SortBy(s[..|s| - 1], rank, desc), s[|s| - 1], rank, desc, v);
    }
  }
}
