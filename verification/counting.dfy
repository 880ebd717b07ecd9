/** Sizes of finite sets: intervals, products and injective images. */
module Counting {
  predicate Below(i: int, n: nat) { 0 <= i < n }

  function Interval(n: nat): set<int> {
    set i: int | 0 <= i < n && Below(i, n)
  }

  lemma {:induction false} IntervalSize(n: nat)
    ensures |Interval(n)| == n
  {
    if n > 0 {
      IntervalSize(n - 1);
      assert Interval(n) == Interval(n - 1) + {n - 1};
    }
  }

  function Image<A, B>(s: set<A>, f: A -> B): set<B> {
    set x | x in s :: f(x)
  }

  lemma {:induction false} ImageSize<A(!new), B>(s: set<A>, f: A -> B)
    requires forall x, y :: x in s && y in s && f(x) == f(y) ==> x == y
    ensures |Image(s, f)| == |s|
  {
    if s != {} {
      var x :| x in s;
      ImageSize(s - {x}, f);
      assert Image(s, f) == Image(s - {x}, f) + {f(x)};
    }
  }

  function Product<A, B>(a: set<A>, b: set<B>): set<(A, B)> {
    set x, y | x in a && y in b :: (x, y)
  }

  lemma {:induction false} ProductSize<A(!new), B(!new)>(a: set<A>, b: set<B>)
    ensures |Product(a, b)| == |a| * |b|
  {
    if a == {} {
      assert Product(a, b) == {};
    } else {
      var x :| x in a;
      ProductSize(a - {x}, b);
      var row := Image(b, y => (x, y));
      ImageSize(b, y => (x, y));
      assert Product(a, b) == Product(a - {x}, b) + row;
      assert |a| * |b| == |a - {x}| * |b| + |b|;
    }
  }
}
