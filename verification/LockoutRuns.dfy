// How fast passwords can be guessed at main/auth.c.
module LockoutRuns {
  import opened Auth
  import opened AuthRuns
  import opened Counting

  // The times of the wrong responses evaluated since the last login or password
  // change before step k.
  function Wrong(hmac: Hmac, steps: seq<Step>, k: nat): seq<Micros>
    requires k <= |steps|
  {
    if k == 0 || MintsAny(hmac, steps, k - 1) then []
    else if Fails(hmac, steps, k - 1) then Wrong(hmac, steps, k - 1) + [steps[k - 1].attempt.now]
    else Wrong(hmac, steps, k - 1)
  }

  // The lock after the n-th wrong response in a row.
  function Wait(n: nat): int
    requires n >= LOCKOUT_THRESHOLD
  {
    LockoutSeconds(n) * SECOND
  }

  lemma LongWaits(n: nat)
    requires n >= 9
    ensures LockoutSeconds(n) == LOCKOUT_MAX_S
  {
    assert Pow2(4) == 16;
    Pow2Monotone(4, n - LOCKOUT_THRESHOLD);
  }

  // Past 255 the counter stands still, but so does the wait.
  lemma SaturationIsHarmless(n: nat)
    requires n >= LOCKOUT_THRESHOLD
    ensures LockoutSeconds(Min(FAIL_MAX, n)) == LockoutSeconds(n)
  {
    if n > FAIL_MAX {
      LongWaits(FAIL_MAX);
      LongWaits(n);
    }
  }

  ghost predicate Spaced(w: seq<Micros>) {
    forall n: nat :: LOCKOUT_THRESHOLD <= n < |w| ==> w[n - 1] + Wait(n) <= w[n]
  }

  // The counter and the lock as a function of the wrong responses alone.
  ghost predicate Agrees(s: State, w: seq<Micros>) {
    && s.failCount == Min(FAIL_MAX, |w|)
    && (|w| >= LOCKOUT_THRESHOLD ==> s.lockedUntil == w[|w| - 1] + Wait(|w|))
    && (|w| < LOCKOUT_THRESHOLD ==> s.lockedUntil == 0)
    && Spaced(w)
  }

  lemma OneMoreWrong(hmac: Hmac, s: State, a: Attempt, w: seq<Micros>)
    requires Agrees(s, w) && VerifyLogin(hmac, s, a).1.BadCredentials?
    ensures Agrees(VerifyLogin(hmac, s, a).0, w + [a.now])
  {
    var v := w + [a.now];
    assert s.lockedUntil <= a.now;
    assert Failures(s.failCount) == Min(FAIL_MAX, |v|);
    if |v| >= LOCKOUT_THRESHOLD {
      SaturationIsHarmless(|v|);
    }
    forall n: nat | LOCKOUT_THRESHOLD <= n < |v|
      ensures v[n - 1] + Wait(n) <= v[n]
    {
      if n < |w| {
        assert w[n - 1] + Wait(n) <= w[n];
      }
    }
  }

  // A step without a wrong response leaves counter and lock alone, or clears both.
  lemma OtherStep(hmac: Hmac, steps: seq<Step>, k: nat)
    requires k < |steps| && !Fails(hmac, steps, k)
    ensures var s, after := At(hmac, steps, k), At(hmac, steps, k + 1);
      if MintsAny(hmac, steps, k) then after.failCount == 0 && after.lockedUntil == 0
      else after.failCount == s.failCount && after.lockedUntil == s.lockedUntil
  {
  }

  lemma {:induction false} RunAgrees(hmac: Hmac, steps: seq<Step>, k: nat)
    requires k <= |steps|
    ensures Agrees(At(hmac, steps, k), Wrong(hmac, steps, k))
  {
    if k > 0 {
      RunAgrees(hmac, steps, k - 1);
      if Fails(hmac, steps, k - 1) {
        OneMoreWrong(hmac, At(hmac, steps, k - 1), steps[k - 1].attempt, Wrong(hmac, steps, k - 1));
      } else {
        OtherStep(hmac, steps, k - 1);
      }
    }
  }

  lemma {:induction false} SpacedSum(w: seq<Micros>, n: nat)
    requires Spaced(w) && 9 <= n <= |w|
    ensures w[n - 1] - w[4] >= (450 + 300 * (n - 9)) * SECOND
  {
    if n == 9 {
      assert Pow2(0) == 1 && Pow2(1) == 2 && Pow2(2) == 4 && Pow2(3) == 8;
      assert w[4] + Wait(5) <= w[5] && w[5] + Wait(6) <= w[6] && w[6] + Wait(7) <= w[7] && w[7] + Wait(8) <= w[8];
    } else {
      SpacedSum(w, n - 1);
      LongWaits(n - 1);
      assert w[n - 2] + Wait(n - 1) <= w[n - 1];
    }
  }

  // The n-th wrong response in a row, n >= 9, is evaluated at least 450 + 300(n - 9)
  // seconds after the fifth.
  lemma GuessRate(hmac: Hmac, steps: seq<Step>, k: nat, n: nat)
    requires k <= |steps| && 9 <= n <= |Wrong(hmac, steps, k)|
    ensures Wrong(hmac, steps, k)[n - 1] - Wrong(hmac, steps, k)[4] >= (450 + 300 * (n - 9)) * SECOND
  {
    RunAgrees(hmac, steps, k);
    SpacedSum(Wrong(hmac, steps, k), n);
  }

  // 30 seconds after the fifth wrong response in a row, 60 after the sixth, then 120
  // and 240, and 300 after every further one.
  function Schedule(n: nat): nat {
    if n < 5 then 0
    else if n == 5 then 30
    else if n == 6 then 60
    else if n == 7 then 120
    else if n == 8 then 240
    else 300
  }

  lemma WaitsAsScheduled(n: nat)
    requires n >= 5
    ensures LockoutSeconds(n) == Schedule(n)
  {
    if n >= 9 {
      LongWaits(n);
    } else {
      assert Pow2(0) == 1 && Pow2(1) == 2 && Pow2(2) == 4 && Pow2(3) == 8;
    }
  }

  // The lock is closed exactly while the wait after the last wrong response lasts.
  lemma LockedExactly(hmac: Hmac, steps: seq<Step>, k: nat, now: Micros)
    requires k <= |steps|
    ensures At(hmac, steps, k).lockedUntil > now <==>
      var w := Wrong(hmac, steps, k);
      |w| >= 5 && now < w[|w| - 1] + Schedule(|w|) * SECOND
  {
    RunAgrees(hmac, steps, k);
    if |Wrong(hmac, steps, k)| >= 5 {
      WaitsAsScheduled(|Wrong(hmac, steps, k)|);
    }
  }

  // With a clock that does not run backwards the reported wait is 1 to 300 seconds,
  // and waiting it out opens the lock.
  lemma ReportedWait(hmac: Hmac, steps: seq<Step>, k: nat, now: Micros)
    requires k <= |steps| && At(hmac, steps, k).lockedUntil > now
    requires var w := Wrong(hmac, steps, k); |w| > 0 ==> w[|w| - 1] <= now
    ensures 1 <= RetryAfter(At(hmac, steps, k).lockedUntil, now) <= LOCKOUT_MAX_S
    ensures At(hmac, steps, k).lockedUntil <= now + RetryAfter(At(hmac, steps, k).lockedUntil, now) * SECOND
  {
    RunAgrees(hmac, steps, k);
    WaitingClearsTheLock(At(hmac, steps, k).lockedUntil, now);
  }
}
