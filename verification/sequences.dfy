/** Sums over sequences, and permutations of them. */
module Sequences {
  lemma Assoc<T>(a: seq<T>, b: seq<T>, c: seq<T>)
    ensures a + (b + c) == a + b + c
  {}

  lemma UnCons<T>(x: T, rest: seq<T>)
    ensures multiset(rest) == multiset([x] + rest) - multiset{x}
    ensures multiset([x] + rest) == multiset(rest) + multiset{x}
  {}

  lemma ConsBoth<T>(e: T, x: seq<T>, y: seq<T>, u: seq<T>, v: seq<T>)
    requires multiset(x) + multiset(y) == multiset(u) + multiset(v)
    ensures multiset([e] + x) + multiset(y) == multiset([e] + u) + multiset(v)
  {
    UnCons(e, x);
    UnCons(e, u);
    assert multiset(x) + multiset{e} + multiset(y) == multiset(x) + multiset(y) + multiset{e};
    assert multiset(u) + multiset{e} + multiset(v) == multiset(u) + multiset(v) + multiset{e};
  }

  lemma ChainBalance<T(!new)>(r0: seq<T>, r1: seq<T>, r2: seq<T>, d1: seq<T>, a1: seq<T>, d2: seq<T>, a2: seq<T>)
    requires multiset(r1) + multiset(d1) == multiset(r0) + multiset(a1)
    requires multiset(r2) + multiset(d2) == multiset(r1) + multiset(a2)
    ensures multiset(r2) + multiset(d1 + d2) == multiset(r0) + multiset(a1 + a2)
  {
    assert multiset(d1 + d2) == multiset(d1) + multiset(d2) && multiset(a1 + a2) == multiset(a1) + multiset(a2);
    forall x: T ensures (multiset(r2) + multiset(d1 + d2))[x] == (multiset(r0) + multiset(a1 + a2))[x] {
      assert (multiset(r1) + multiset(d1))[x] == (multiset(r0) + multiset(a1))[x];
      assert (multiset(r2) + multiset(d2))[x] == (multiset(r1) + multiset(a2))[x];
    }
  }

  lemma RemoveAt<T>(list: seq<T>, k: nat)
    requires k < |list|
    ensures multiset(list[..k] + list[k + 1..]) == multiset(list) - multiset{list[k]}
  {
    assert list == list[..k] + ([list[k]] + list[k + 1..]);
  }

  /** Overwriting entry i with the last one removes exactly entry i. */
  lemma SwapOut<T>(list: seq<T>, i: nat)
    requires i < |list|
    ensures multiset(list[i := list[|list| - 1]][..|list| - 1]) == multiset(list) - multiset{list[i]}
  {
    var last := |list| - 1;
    var out := list[i := list[last]][..last];
    assert list == list[..last] + [list[last]];
    if i < last {
      assert out == list[..last][i := list[last]];
    } else {
      assert out == list[..last];
    }
  }

  /** The same in the first n entries of a list, where an index behind them stands for the last of them. */
  lemma SwapOutOf<T>(list: seq<T>, n: nat, i: nat)
    requires 0 < n <= |list| && i < |list|
    ensures var k := if i < n then i else n - 1;
      multiset(list[i := list[n - 1]][..n - 1]) == multiset(list[..n]) - multiset{list[k]}
  {
    var front, k := list[..n], if i < n then i else n - 1;
    SwapOut(front, k);
    assert list[i := list[n - 1]][..n - 1] == front[k := front[n - 1]][..n - 1];
  }

  /** The sum of f over a list. */
  function Total<T>(list: seq<T>, f: T -> nat): nat {
    if list == [] then 0 else f(list[0]) + Total(list[1..], f)
  }

  lemma TotalOne<T>(x: T, f: T -> nat)
    ensures Total([x], f) == f(x)
  {
    assert [x][1..] == [];
  }

  lemma {:induction false} TotalConcat<T>(a: seq<T>, b: seq<T>, f: T -> nat)
    ensures Total(a + b, f) == Total(a, f) + Total(b, f)
  {
    if a == [] {
      assert a + b == b;
    } else {
      assert (a + b)[1..] == a[1..] + b;
      TotalConcat(a[1..], b, f);
    }
  }

  lemma TotalAt<T>(list: seq<T>, k: nat, f: T -> nat)
    requires k < |list|
    ensures Total(list, f) == f(list[k]) + Total(list[..k] + list[k + 1..], f)
  {
    var tail := [list[k]] + list[k + 1..];
    assert Total(tail, f) == f(list[k]) + Total(list[k + 1..], f) by {
      assert tail[1..] == list[k + 1..];
    }
    hide Total;
    assert list == list[..k] + tail;
    TotalConcat(list[..k], tail, f);
    TotalConcat(list[..k], list[k + 1..], f);
  }

  /** a[0] occurs in b, and taking it out of both leaves permutations. */
  lemma Occurrence<T>(a: seq<T>, b: seq<T>) returns (k: nat)
    requires multiset(a) == multiset(b) && a != []
    ensures k < |b| && b[k] == a[0] && multiset(a[1..]) == multiset(b[..k] + b[k + 1..])
  {
    assert a[0] in multiset(a);
    k :| 0 <= k < |b| && b[k] == a[0];
    RemoveAt(b, k);
    assert a == [a[0]] + a[1..];
  }

  /** A sum does not depend on the order. */
  lemma {:induction false} TotalPermutes<T>(a: seq<T>, b: seq<T>, f: T -> nat)
    requires multiset(a) == multiset(b)
    ensures Total(a, f) == Total(b, f)
    decreases |a|
  {
    if a == [] {
      assert |multiset(b)| == 0;
    } else {
      var k := Occurrence(a, b);
      TotalAt(b, k, f);
      TotalPermutes(a[1..], b[..k] + b[k + 1..], f);
    }
  }

  lemma {:induction false} SameLength<T>(a: seq<T>, b: seq<T>)
    requires multiset(a) == multiset(b)
    ensures |a| == |b|
  {
    assert |multiset(a)| == |multiset(b)|;
  }

  // ----- lists without repetition -----

  ghost predicate Distinct<T>(list: seq<T>) {
    forall i, j :: 0 <= i < j < |list| ==> list[i] != list[j]
  }

  lemma {:induction false} DistinctCount<T>(list: seq<T>, x: T)
    requires Distinct(list)
    ensures multiset(list)[x] == if x in list then 1 else 0
  {
    if list != [] {
      var init, last := list[..|list| - 1], list[|list| - 1];
      assert list == init + [last];
      DistinctCount(init, x);
      assert last !in init;
    }
  }

  /** Two lists without repetition that share nothing make up a third. */
  lemma SplitDistinct<T(!new)>(a: seq<T>, b: seq<T>, c: seq<T>)
    requires Distinct(a) && Distinct(b) && Distinct(c)
    requires forall x :: x in c <==> x in a || x in b
    requires forall x :: !(x in a && x in b)
    ensures multiset(a) + multiset(b) == multiset(c)
  {
    forall x: T ensures (multiset(a) + multiset(b))[x] == multiset(c)[x] {
      DistinctCount(a, x);
      DistinctCount(b, x);
      DistinctCount(c, x);
    }
  }
}
