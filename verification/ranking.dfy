/**
 * The stable sort the allocator applies to its eligible workers (scheduler.js
 * lines 115-117). ECMAScript requires `Array.prototype.sort` to be stable,
 * so with the comparator `key(a) - key(b)` its output is the stable order by
 * `key`; a stable insertion sort produces exactly that order.
 */
module Ranking {

  predicate Sorted<T>(xs: seq<T>, key: T -> int)
  {
    forall i, j :: 0 <= i < j < |xs| ==> key(xs[i]) <= key(xs[j])
  }

  /**
   * Inserts `x` in front of the first element whose key is not smaller, so
   * `x` stays ahead of the elements it ties with; they came after it.
   */
  function InsertBy<T>(x: T, ys: seq<T>, key: T -> int): (r: seq<T>)
    ensures |r| == |ys| + 1
    ensures multiset(r) == multiset(ys) + multiset{x}
    ensures r[0] == if |ys| == 0 || key(x) <= key(ys[0]) then x else ys[0]
  {
    if |ys| == 0 || key(x) <= key(ys[0]) then [x] + ys
    else
      assert ys == [ys[0]] + ys[1..];
      [ys[0]] + InsertBy(x, ys[1..], key)
  }

  lemma {:induction false} InsertBySorted<T>(x: T, ys: seq<T>, key: T -> int)
    requires Sorted(ys, key)
    ensures Sorted(InsertBy(x, ys, key), key)
  {
    if |ys| == 0 || key(x) <= key(ys[0]) {
    } else {
      var rest := InsertBy(x, ys[1..], key);
      InsertBySorted(x, ys[1..], key);
      assert ys == [ys[0]] + ys[1..];
      forall j | 0 <= j < |rest|
        ensures key(ys[0]) <= key(rest[j])
      {
        assert rest[j] in multiset(rest);
        if rest[j] != x {
          assert rest[j] in multiset(ys[1..]);
          var m :| 0 <= m < |ys[1..]| && ys[1..][m] == rest[j];
          assert ys[m + 1] == rest[j];
        }
      }
      assert InsertBy(x, ys, key) == [ys[0]] + rest;
    }
  }

  /** A stable sort of `xs` by ascending `key`. */
  function SortBy<T>(xs: seq<T>, key: T -> int): (r: seq<T>)
    ensures |r| == |xs|
    ensures multiset(r) == multiset(xs)
    ensures Sorted(r, key)
  {
    if |xs| == 0 then []
    else
      assert xs == [xs[0]] + xs[1..];
      var tail := SortBy(xs[1..], key);
      InsertBySorted(xs[0], tail, key);
      InsertBy(xs[0], tail, key)
  }
}
