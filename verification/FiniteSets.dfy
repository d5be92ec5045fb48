/** Sizes of finite sets. */
module FiniteSets {
  lemma SubsetSize(x: set<int>, y: set<int>)
    requires x <= y
    ensures |x| <= |y|
  {
    assert y == x + (y - x);
  }

  /** Two sets that differ at most in `e`. */
  lemma Resized(x: set<int>, y: set<int>, e: int)
    requires x - {e} == y - {e}
    ensures |y| == |x| - (if e in x then 1 else 0) + (if e in y then 1 else 0)
  {
    assert e in x ==> x == (x - {e}) + {e};
    assert e in y ==> y == (y - {e}) + {e};
    assert e !in x ==> x == x - {e};
    assert e !in y ==> y == y - {e};
  }
}
