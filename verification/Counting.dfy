// Small facts about numbers and sizes, shared by the modules of this project.
module Counting {
  function Min(a: nat, b: nat): nat {
    if a < b then a else b
  }

  lemma SubsetIsSmaller<T>(a: set<T>, b: set<T>)
    requires a <= b
    ensures |a| <= |b|
  {
    assert b == a + (b - a);
  }

  lemma {:induction false} DistinctCount<T>(xs: seq<T>)
    requires forall i, j :: 0 <= i < j < |xs| ==> xs[i] != xs[j]
    ensures |set k | 0 <= k < |xs| :: xs[k]| == |xs|
  {
    if xs != [] {
      var init, x := xs[..|xs| - 1], xs[|xs| - 1];
      DistinctCount(init);
      assert (set k | 0 <= k < |xs| :: xs[k]) == (set k | 0 <= k < |init| :: init[k]) + {x};
      assert x !in (set k | 0 <= k < |init| :: init[k]);
    }
  }
}
