/** The stable descending sort the source obtains from
    `array.sort((a, b) => b.amount - a.amount)`, as an insertion sort on
    sequences ordered by an integer key. */
module Sorting {

  /** Each element's key is at least the key of the element after it. */
  ghost predicate SortedDesc<T>(xs: seq<T>, key: T -> int)
  {
    forall a, b :: 0 <= a < b < |xs| ==> key(xs[a]) >= key(xs[b])
  }

  /** Places `x` before the first element whose key does not exceed its own,
      so that `x` stays ahead of the equal keys that followed it. */
  function Insert<T>(x: T, ys: seq<T>, key: T -> int): (r: seq<T>)
    ensures multiset(r) == multiset(ys) + multiset{x}
    ensures |r| == |ys| + 1
  {
    if ys == [] || key(ys[0]) <= key(x) then
      [x] + ys
    else
      assert ys == [ys[0]] + ys[1..];
      [ys[0]] + Insert(x, ys[1..], key)
  }

  /** Inserting into a sorted list keeps it sorted. */
  lemma {:induction false} InsertSorted<T>(x: T, ys: seq<T>, key: T -> int)
    requires SortedDesc(ys, key)
    ensures SortedDesc(Insert(x, ys, key), key)
    decreases |ys|
  {
    if ys == [] || key(ys[0]) <= key(x) {
      forall k | 0 <= k < |ys| ensures key(x) >= key(ys[k]) {
        assert key(ys[0]) >= key(ys[k]);
      }
      ConsSorted(x, ys, key);
    } else {
      var rest := Insert(x, ys[1..], key);
      InsertSorted(x, ys[1..], key);
      forall k | 0 <= k < |rest| ensures key(ys[0]) >= key(rest[k]) {
        assert rest[k] in multiset(rest);
        if rest[k] != x {
          assert rest[k] in multiset(ys[1..]);
          var w :| 0 <= w < |ys[1..]| && ys[1..][w] == rest[k];
          assert ys[1..][w] == ys[w + 1];
        }
      }
      ConsSorted(ys[0], rest, key);
    }
  }

  /** An element at least as large as every element of a sorted list can go
      in front of it. */
  lemma ConsSorted<T>(y: T, rest: seq<T>, key: T -> int)
    requires SortedDesc(rest, key)
    requires forall k :: 0 <= k < |rest| ==> key(y) >= key(rest[k])
    ensures SortedDesc([y] + rest, key)
  {
    var r := [y] + rest;
    forall a, b | 0 <= a < b < |r| ensures key(r[a]) >= key(r[b]) {
      if a == 0 {
        assert r[b] == rest[b - 1];
      } else {
        assert r[a] == rest[a - 1] && r[b] == rest[b - 1];
      }
    }
  }

  /** Sorts by descending key; elements with equal keys keep their input order. */
  function SortDesc<T>(xs: seq<T>, key: T -> int): (r: seq<T>)
    ensures SortedDesc(r, key)
    ensures multiset(r) == multiset(xs)
    ensures |r| == |xs|
  {
    if xs == [] then []
    else
      assert xs == [xs[0]] + xs[1..];
      var sorted := SortDesc(xs[1..], key);
      InsertSorted(xs[0], sorted, key);
      Insert(xs[0], sorted, key)
  }

  /** No two elements share a projected key. */
  ghost predicate DistinctBy<T, K>(xs: seq<T>, f: T -> K)
  {
    forall a, b :: 0 <= a < b < |xs| ==> f(xs[a]) != f(xs[b])
  }

  /** Rearranging a list whose keys are distinct keeps them distinct. */
  lemma PermutationKeepsDistinct<T, K>(xs: seq<T>, ys: seq<T>, f: T -> K)
    requires multiset(xs) == multiset(ys)
    requires DistinctBy(xs, f)
    ensures DistinctBy(ys, f)
  {
    forall a, b | 0 <= a < b < |ys|
      ensures f(ys[a]) != f(ys[b])
    {
      if f(ys[a]) == f(ys[b]) {
        assert ys[a] in multiset(xs) && ys[b] in multiset(xs);
        var p :| 0 <= p < |xs| && xs[p] == ys[a];
        var q :| 0 <= q < |xs| && xs[q] == ys[b];
        if p == q {
          var m := multiset(ys);
          assert ys == ys[..a] + [ys[a]] + ys[a + 1..b] + [ys[b]] + ys[b + 1..];
          assert m[ys[a]] >= 2;
          OnlyOnce(xs, p, f);
          assert false;
        }
      }
    }
  }

  /** In a list with distinct keys each element occurs exactly once. */
  lemma OnlyOnce<T, K>(xs: seq<T>, p: int, f: T -> K)
    requires DistinctBy(xs, f)
    requires 0 <= p < |xs|
    ensures multiset(xs)[xs[p]] == 1
  {
    assert xs == xs[..p] + [xs[p]] + xs[p + 1..];
    assert xs[p] !in multiset(xs[..p]) by {
      forall w | 0 <= w < p ensures xs[..p][w] != xs[p] {
        assert f(xs[w]) != f(xs[p]);
      }
    }
    var tail := xs[p + 1..];
    assert xs[p] !in multiset(tail) by {
      forall w | 0 <= w < |tail| ensures tail[w] != xs[p] {
        assert f(xs[p]) != f(xs[p + 1 + w]);
      }
    }
  }
}
