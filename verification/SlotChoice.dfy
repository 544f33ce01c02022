// The slot choice shared by the session and the challenge table of main/auth.c: the
// first free slot, or else the first of those with the smallest time stamp.
module SlotChoice {
  ghost predicate IsPick(free: seq<bool>, stamp: seq<int>, n: nat, r: nat) {
    && n <= |free| && n <= |stamp| && r < n
    && (free[r] ==> forall k :: 0 <= k < r ==> !free[k])
    && (!free[r] ==> forall k :: 0 <= k < n ==> !free[k] && stamp[r] <= stamp[k])
    && (!free[r] ==> forall k :: 0 <= k < r ==> stamp[r] < stamp[k])
  }

  function Pick(free: seq<bool>, stamp: seq<int>, n: nat): (r: nat)
    requires 0 < n <= |free| && n <= |stamp|
    ensures IsPick(free, stamp, n, r)
  {
    if n == 1 then 0 else
    var p := Pick(free, stamp, n - 1);
    if free[p] then p
    else if free[n - 1] || stamp[n - 1] < stamp[p] then n - 1
    else p
  }

  lemma PickIsUnique(free: seq<bool>, stamp: seq<int>, n: nat, r: nat, q: nat)
    requires IsPick(free, stamp, n, r) && IsPick(free, stamp, n, q)
    ensures r == q
  {
    assert free[r] == free[q];
  }
}
