/** Generic searches and filters over sequences. Predicates are passed as
    function values, so the elements' own definitions are not unfolded
    while these are reasoned about. */
module Seqs {
  import opened Wrappers

  /** The first present value of `ms` from index `q` on. */
  function FirstSome<T>(ms: seq<Option<T>>, q: nat): (r: Option<T>)
    requires q <= |ms|
    ensures r.Some? ==> exists i :: q <= i < |ms| && ms[i] == r && forall i' :: q <= i' < i ==> ms[i'].None?
    ensures r.None? ==> forall i :: q <= i < |ms| ==> ms[i].None?
    decreases |ms| - q
  {
    if q == |ms| then None
    else if ms[q].Some? then ms[q]
    else FirstSome(ms, q + 1)
  }

  /** The search settles on the first present value. */
  lemma {:induction false} FirstSomeAt<T>(ms: seq<Option<T>>, q: nat, i: nat)
    requires q <= i < |ms| && ms[i].Some?
    requires forall i' :: q <= i' < i ==> ms[i'].None?
    ensures FirstSome(ms, q) == ms[i]
    decreases i - q
  {
    if q < i {
      FirstSomeAt(ms, q + 1, i);
    }
  }

  /** The first present value of `f` over `xs`, in order. */
  function FirstOf<T, U>(xs: seq<T>, f: T -> Option<U>): (r: Option<U>)
    ensures r.Some? ==> exists i :: 0 <= i < |xs| && f(xs[i]) == r && forall j :: 0 <= j < i ==> f(xs[j]).None?
    ensures r.None? ==> forall i :: 0 <= i < |xs| ==> f(xs[i]).None?
  {
    if xs == [] then None
    else if f(xs[0]).Some? then f(xs[0])
    else
      var r := FirstOf(xs[1..], f);
      assert forall i :: 1 <= i < |xs| ==> xs[i] == xs[1..][i - 1];
      r
  }

  /** The index of the first element of `xs` that satisfies `p`. */
  function FirstIndex<T>(xs: seq<T>, p: T -> bool): (r: Option<nat>)
    ensures r.Some? ==> r.value < |xs| && p(xs[r.value]) && forall j :: 0 <= j < r.value ==> !p(xs[j])
    ensures r.None? ==> forall i :: 0 <= i < |xs| ==> !p(xs[i])
  {
    if xs == [] then None
    else if p(xs[0]) then Some(0)
    else match FirstIndex(xs[1..], p)
      case None => None
      case Some(i) => Some(i + 1)
  }

  lemma NoneOfThree<T>(p: T -> bool, a: T, b: T, c: T)
    requires !p(a) && !p(b) && !p(c)
    ensures FirstIndex([a, b, c], p).None?
  {
    var xs := [a, b, c];
    assert xs[0] == a && xs[1] == b && xs[2] == c;
  }

  /** The elements of `xs` that satisfy `p`, in order. */
  function Keep<T>(xs: seq<T>, p: T -> bool): (r: seq<T>)
    ensures |r| <= |xs|
    ensures forall x <- r :: x in xs && p(x)
    ensures forall x <- xs :: p(x) ==> x in r
  {
    if xs == [] then []
    else
      var rest := Keep(xs[1..], p);
      assert forall x <- xs :: x == xs[0] || x in xs[1..];
      if p(xs[0]) then [xs[0]] + rest else rest
  }

  lemma {:induction false} KeepAppend<T>(a: seq<T>, b: seq<T>, p: T -> bool)
    ensures Keep(a + b, p) == Keep(a, p) + Keep(b, p)
    decreases |a|
  {
    if a == [] {
      assert a + b == b;
    } else {
      assert (a + b)[1..] == a[1..] + b;
      KeepAppend(a[1..], b, p);
    }
  }

  /** An element that passes is kept at the front. */
  lemma KeepCons<T>(x: T, rest: seq<T>, p: T -> bool)
    requires p(x)
    ensures Keep([x] + rest, p) == [x] + Keep(rest, p)
  {
    assert ([x] + rest)[1..] == rest;
  }

  /** The present results of `f` over `xs`, in order. */
  function Collect<T, U>(xs: seq<T>, f: T -> Option<U>): (r: seq<U>)
    ensures |r| <= |xs|
    ensures forall y <- r :: exists x <- xs :: f(x) == Some(y)
    ensures forall x <- xs :: f(x).Some? ==> f(x).value in r
  {
    if xs == [] then []
    else
      var rest := Collect(xs[1..], f);
      assert forall x <- xs[1..] :: x in xs;
      match f(xs[0])
      case Some(y) => [y] + rest
      case None => rest
  }

  lemma {:induction false} CollectAppend<T, U>(a: seq<T>, b: seq<T>, f: T -> Option<U>)
    ensures Collect(a + b, f) == Collect(a, f) + Collect(b, f)
    decreases |a|
  {
    if a == [] {
      assert a + b == b;
    } else {
      assert (a + b)[1..] == a[1..] + b;
      CollectAppend(a[1..], b, f);
    }
  }

  // Regroupings of short sequence displays.

  lemma ConsTwo<T>(a: T, b: T)
    ensures [a, b] == [a] + [b]
  {
  }

  lemma ConsThree<T>(a: T, b: T, c: T)
    ensures [a, b, c] == [a] + [b, c]
  {
  }

  lemma ConsThreeAppend<T>(a: T, b: T, c: T, rs: seq<T>)
    ensures [a] + ([b] + ([c] + rs)) == [a, b, c] + rs
  {
  }

  lemma ConsFirst<T>(a: seq<T>, t: seq<T>)
    requires a != []
    ensures [a[0]] + (a[1..] + t) == a + t
  {
    assert a == [a[0]] + a[1..];
  }

  lemma RegroupTail<T>(a: seq<T>, b: seq<T>, c: seq<T>, d: seq<T>, e: seq<T>)
    ensures a + b + (c + d + e) == a + b + c + d + e
  {
  }

  lemma Regroup<T>(a: seq<T>, b: seq<T>, c: seq<T>, d: seq<T>, sep: seq<T>)
    ensures a + sep + b + sep + c + sep + d == a + sep + (b + sep + (c + sep + d))
  {
  }

  /** Two lists with the same multiset have the same elements. */
  lemma SameElements<T>(xs: seq<T>, ys: seq<T>)
    requires multiset(xs) == multiset(ys)
    ensures forall y <- ys :: y in xs
    ensures forall x <- xs :: x in ys
  {
    forall y <- ys ensures y in xs {
      assert y in multiset(ys);
    }
    forall x <- xs ensures x in ys {
      assert x in multiset(xs);
    }
  }
}
