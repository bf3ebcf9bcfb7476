/** Sizes of finite sets. */
module FiniteSets {

  lemma UnionSize<T>(a: set<T>, b: set<T>)
    ensures |a + b| <= |a| + |b|
  {
    assert |a + b| == |a| + |b| - |a * b|;
  }

  lemma DisjointSize<T>(a: set<T>, b: set<T>)
    requires forall x :: x in a ==> x !in b
    ensures |a + b| == |a| + |b|
  {
    assert a * b == {};
    assert |a + b| == |a| + |b| - |a * b|;
  }

  lemma {:induction false} SubsetSize<T>(a: set<T>, b: set<T>)
    requires a <= b
    ensures |a| <= |b|
  {
    if a != {} {
      var x :| x in a;
      SubsetSize(a - {x}, b - {x});
    }
  }
}
