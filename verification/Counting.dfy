/** Sizes of sets that differ little. */
module Counting {
  /** Sets that agree on everything but one element. */
  lemma SizeMoved<T(!new)>(a: set<T>, b: set<T>, x: T)
    requires forall y :: y != x ==> (y in a <==> y in b)
    ensures |a| - (if x in a then 1 else 0) == |b| - (if x in b then 1 else 0)
  {
    assert a - {x} == b - {x};
    assert a == if x in a then (a - {x}) + {x} else a - {x};
    assert b == if x in b then (b - {x}) + {x} else b - {x};
  }

  lemma SubsetSize<T(!new)>(a: set<T>, b: set<T>)
    requires a <= b
    ensures |a| <= |b|
  {
    assert b == a + (b - a);
  }

  lemma OneIn<T(!new)>(a: set<T>, x: T)
    requires x in a
    ensures |a| >= 1 && (|a| == 1 ==> a == {x})
  {
    assert a == (a - {x}) + {x};
    if |a| == 1 { assert |a - {x}| == 0; }
  }
}
