// The life of a login challenge over any run of main/auth.c with many clients.
module ChallengeRuns {
  import opened Options
  import opened SlotChoice
  import opened Auth
  import opened AuthRuns
  import Hex

  // The random nonces of a run never repeat.
  ghost predicate FreshNonces(steps: seq<Step>) {
    forall i: nat, j: nat :: i < j < |steps| && steps[i].AskChallenge? && steps[j].AskChallenge?
      ==> steps[i].nonce != steps[j].nonce
  }

  predicate Asks(steps: seq<Step>, k: nat, nonce: string)
    requires k < |steps|
  {
    steps[k].AskChallenge? && steps[k].nonce == nonce
  }

  // Issuing a challenge at step k overwrites this one.
  predicate Overwrites(hmac: Hmac, steps: seq<Step>, k: nat, nonce: string)
    requires k < |steps|
  {
    && steps[k].AskChallenge?
    && var t := At(hmac, steps, k).challenges;
       Carries(t, ChallengeSlot(t, steps[k].now), nonce)
  }

  predicate Carries(t: Challenges, i: nat, nonce: string) {
    i < CHALLENGE_MAX && t[i].active && t[i].nonce == nonce
  }

  // ------------------------------------------------- one nonce, no table

  datatype Life = Gone | Outstanding(issued: Micros)

  function LifeAt(hmac: Hmac, steps: seq<Step>, k: nat, nonce: string): Life
    requires k <= |steps|
  {
    if k == 0 then Gone else NextLife(hmac, steps, k - 1, nonce, LifeAt(hmac, steps, k - 1, nonce))
  }

  function NextLife(hmac: Hmac, steps: seq<Step>, k: nat, nonce: string, life: Life): Life
    requires k < |steps|
  {
    if Asks(steps, k, nonce) then Outstanding(steps[k].now)
    else if Overwrites(hmac, steps, k, nonce) then Gone
    else if Consumes(hmac, steps, k, nonce) then Gone
    else life
  }

  ghost predicate Tracks(t: Challenges, nonce: string, life: Life) {
    match life
    case Gone => forall i: nat :: !Carries(t, i, nonce)
    case Outstanding(issued) =>
      && (exists i: nat :: Carries(t, i, nonce))
      && (forall i: nat, j: nat :: Carries(t, i, nonce) && Carries(t, j, nonce) ==> i == j)
      && (forall i: nat :: Carries(t, i, nonce) ==> t[i].issued == issued)
  }

  lemma IssueTracks(t: Challenges, nonce: string, now: Micros)
    requires Tracks(t, nonce, Gone)
    ensures Tracks(Issued(t, nonce, now), nonce, Outstanding(now))
  {
    assert Carries(Issued(t, nonce, now), ChallengeSlot(t, now), nonce);
    forall i: nat | Carries(Issued(t, nonce, now), i, nonce)
      ensures i == ChallengeSlot(t, now)
    {
      assert !Carries(t, i, nonce);
    }
  }

  lemma IssueOther(t: Challenges, issued: string, now: Micros, nonce: string, life: Life)
    requires issued != nonce && Tracks(t, nonce, life)
    ensures Tracks(Issued(t, issued, now), nonce, if Carries(t, ChallengeSlot(t, now), nonce) then Gone else life)
  {
    var after := Issued(t, issued, now);
    forall i: nat
      ensures Carries(after, i, nonce) <==> i != ChallengeSlot(t, now) && Carries(t, i, nonce)
    {
    }
    if life.Outstanding? && !Carries(t, ChallengeSlot(t, now), nonce) {
      var i: nat :| Carries(t, i, nonce);
      assert Carries(after, i, nonce);
    }
  }

  lemma ConsumeTracks(t: Challenges, i: nat, nonce: string, life: Life)
    requires Carries(t, i, nonce) && Tracks(t, nonce, life)
    ensures Tracks(Consumed(t, i), nonce, Gone)
  {
    forall j: nat
      ensures !Carries(Consumed(t, i), j, nonce)
    {
      assert Carries(Consumed(t, i), j, nonce) ==> Carries(t, j, nonce);
    }
  }

  // Consuming one challenge leaves every other one as it was.
  lemma ConsumingIsPrivate(t: Challenges, i: nat, consumed: string, nonce: string, life: Life)
    requires Carries(t, i, consumed) && consumed != nonce && Tracks(t, nonce, life)
    ensures Tracks(Consumed(t, i), nonce, life)
  {
    var after := Consumed(t, i);
    forall j: nat
      ensures Carries(after, j, nonce) <==> Carries(t, j, nonce)
    {
    }
    if life.Outstanding? {
      var j: nat :| Carries(t, j, nonce);
      assert Carries(after, j, nonce);
    }
  }

  lemma {:induction false} OutstandingWasAsked(hmac: Hmac, steps: seq<Step>, k: nat, nonce: string) returns (m: nat)
    requires k <= |steps| && LifeAt(hmac, steps, k, nonce).Outstanding?
    ensures m < k && steps[m] == AskChallenge(nonce, LifeAt(hmac, steps, k, nonce).issued)
    ensures forall j: nat :: m < j < k ==> !Consumes(hmac, steps, j, nonce)
  {
    if Asks(steps, k - 1, nonce) {
      m := k - 1;
    } else {
      m := OutstandingWasAsked(hmac, steps, k - 1, nonce);
    }
  }

  lemma AskStep(hmac: Hmac, steps: seq<Step>, k: nat, nonce: string, life: Life)
    requires k < |steps| && FreshNonces(steps) && steps[k].AskChallenge?
    requires life == LifeAt(hmac, steps, k, nonce) && Tracks(At(hmac, steps, k).challenges, nonce, life)
    ensures Tracks(NextChallenges(hmac, steps, k), nonce, NextLife(hmac, steps, k, nonce, life))
  {
    var t := At(hmac, steps, k).challenges;
    if Asks(steps, k, nonce) {
      if life.Outstanding? {
        var m := OutstandingWasAsked(hmac, steps, k, nonce);
        assert false;
      }
      IssueTracks(t, nonce, steps[k].now);
    } else {
      IssueOther(t, steps[k].nonce, steps[k].now, nonce, life);
    }
  }

  lemma LoginStep(hmac: Hmac, steps: seq<Step>, k: nat, nonce: string, life: Life)
    requires k < |steps| && steps[k].TryLogin?
    requires Tracks(At(hmac, steps, k).challenges, nonce, life)
    ensures Tracks(NextChallenges(hmac, steps, k), nonce, NextLife(hmac, steps, k, nonce, life))
  {
    var s, a := At(hmac, steps, k), steps[k].attempt;
    var slot := Matching(s, a);
    if slot.Some? {
      assert Carries(s.challenges, slot.value, a.nonce.value);
      if a.nonce.value == nonce {
        ConsumeTracks(s.challenges, slot.value, nonce, life);
      } else {
        ConsumingIsPrivate(s.challenges, slot.value, a.nonce.value, nonce, life);
      }
    }
  }

  lemma AnyStep(hmac: Hmac, steps: seq<Step>, k: nat, nonce: string, life: Life)
    requires k < |steps| && FreshNonces(steps)
    requires life == LifeAt(hmac, steps, k, nonce) && Tracks(At(hmac, steps, k).challenges, nonce, life)
    ensures Tracks(NextChallenges(hmac, steps, k), nonce, NextLife(hmac, steps, k, nonce, life))
  {
    if steps[k].AskChallenge? {
      AskStep(hmac, steps, k, nonce, life);
    } else if steps[k].TryLogin? {
      LoginStep(hmac, steps, k, nonce, life);
    }
  }

  lemma {:induction false} TableAndLife(hmac: Hmac, steps: seq<Step>, k: nat, nonce: string)
    returns (t: Challenges, life: Life)
    requires k <= |steps| && FreshNonces(steps)
    ensures t == At(hmac, steps, k).challenges && life == LifeAt(hmac, steps, k, nonce)
    ensures Tracks(t, nonce, life)
  {
    if k == 0 {
      t, life := Initial().challenges, Gone;
    } else {
      var t0, life0 := TableAndLife(hmac, steps, k - 1, nonce);
      AnyStep(hmac, steps, k - 1, nonce, life0);
      t, life := NextChallenges(hmac, steps, k - 1), NextLife(hmac, steps, k - 1, nonce, life0);
      ChallengesStep(hmac, steps, k - 1);
    }
  }

  // The four-slot table refines the lives of its nonces.
  lemma TableTracksLives(hmac: Hmac, steps: seq<Step>, k: nat, nonce: string)
    requires k <= |steps| && FreshNonces(steps)
    ensures Tracks(At(hmac, steps, k).challenges, nonce, LifeAt(hmac, steps, k, nonce))
  {
    var t, life := TableAndLife(hmac, steps, k, nonce);
  }

  // ------------------------------------------------- what attempts mean

  predicate InTime(life: Life, now: Micros) {
    life.Outstanding? && now - life.issued < 30 * SECOND
  }

  lemma FoundCarries(t: Challenges, nonce: string, now: Micros, life: Life)
    requires Tracks(t, nonce, life)
    ensures FindChallenge(t, nonce, now, 0).Some? <==> InTime(life, now)
  {
    if InTime(life, now) {
      var i: nat :| Carries(t, i, nonce);
    }
    if FindChallenge(t, nonce, now, 0).Some? {
      assert Carries(t, FindChallenge(t, nonce, now, 0).value, nonce);
    }
  }

  // The response is the digest of the nonce under the stored key.
  predicate Answered(hmac: Hmac, a: Attempt) {
    && a.nonce.Some? && a.response.Some? && a.rcOk
    && Hex.Decode(a.nonce.value, 16).Some?
    && Hex.Decode(a.response.value, 32) == Some(hmac(a.key, Hex.Decode(a.nonce.value, 16).value))
  }

  // An attempt is evaluated exactly when the lock is open, its nonce is outstanding
  // and under 30 s old, and both its texts are hex of the right length; it logs in
  // exactly when its response is moreover the digest under the stored key.
  lemma EvaluatedExactly(hmac: Hmac, steps: seq<Step>, k: nat, nonce: string)
    requires k < |steps| && FreshNonces(steps) && steps[k].TryLogin? && steps[k].attempt.nonce == Some(nonce)
    ensures Evaluates(hmac, steps, k, nonce) <==>
      && At(hmac, steps, k).lockedUntil <= steps[k].attempt.now
      && InTime(LifeAt(hmac, steps, k, nonce), steps[k].attempt.now)
      && Hex.Decode(nonce, 16).Some?
      && steps[k].attempt.response.Some? && Hex.Decode(steps[k].attempt.response.value, 32).Some?
    ensures LogsIn(hmac, steps, k) <==> Evaluates(hmac, steps, k, nonce) && Answered(hmac, steps[k].attempt)
    ensures Fails(hmac, steps, k) <==> Evaluates(hmac, steps, k, nonce) && !Answered(hmac, steps[k].attempt)
  {
    TableTracksLives(hmac, steps, k, nonce);
    FoundCarries(At(hmac, steps, k).challenges, nonce, steps[k].attempt.now, LifeAt(hmac, steps, k, nonce));
  }

  lemma {:induction false} NeverBack(hmac: Hmac, steps: seq<Step>, i: nat, k: nat, nonce: string)
    requires i < k <= |steps| && FreshNonces(steps) && Consumes(hmac, steps, i, nonce)
    requires exists m: nat :: m < i && Asks(steps, m, nonce)
    ensures LifeAt(hmac, steps, k, nonce).Gone?
  {
    if k > i + 1 {
      NeverBack(hmac, steps, i, k - 1, nonce);
    }
  }

  lemma ConsumedWasAsked(hmac: Hmac, steps: seq<Step>, k: nat, nonce: string) returns (m: nat)
    requires k < |steps| && FreshNonces(steps) && Consumes(hmac, steps, k, nonce)
    ensures m < k && Asks(steps, m, nonce) && steps[k].attempt.now - steps[m].now < 30 * SECOND
    ensures forall j: nat :: m < j < k ==> !Consumes(hmac, steps, j, nonce)
  {
    var a := steps[k].attempt;
    TableTracksLives(hmac, steps, k, nonce);
    FoundCarries(At(hmac, steps, k).challenges, nonce, a.now, LifeAt(hmac, steps, k, nonce));
    m := OutstandingWasAsked(hmac, steps, k, nonce);
  }

  // Each nonce is consumed, and so evaluated, at most once.
  lemma EvaluatedOnce(hmac: Hmac, steps: seq<Step>, i: nat, k: nat, nonce: string)
    requires i < k < |steps| && FreshNonces(steps)
    requires Evaluates(hmac, steps, i, nonce)
    ensures !Evaluates(hmac, steps, k, nonce)
  {
    var m := ConsumedWasAsked(hmac, steps, i, nonce);
    NeverBack(hmac, steps, i, k, nonce);
    EvaluatedExactlyWhenTried(hmac, steps, k, nonce);
  }

  lemma EvaluatedExactlyWhenTried(hmac: Hmac, steps: seq<Step>, k: nat, nonce: string)
    requires k < |steps| && FreshNonces(steps) && LifeAt(hmac, steps, k, nonce).Gone?
    ensures !Evaluates(hmac, steps, k, nonce)
  {
    if steps[k].TryLogin? && steps[k].attempt.nonce == Some(nonce) {
      EvaluatedExactly(hmac, steps, k, nonce);
    }
  }

  // Who logs in answered a challenge issued under 30 s before, not consumed since,
  // with its digest under the stored key.
  lemma LoginMeaning(hmac: Hmac, steps: seq<Step>, k: nat) returns (m: nat)
    requires k < |steps| && FreshNonces(steps) && LogsIn(hmac, steps, k)
    ensures m < k && steps[m].AskChallenge? && steps[k].attempt.nonce == Some(steps[m].nonce)
    ensures steps[k].attempt.now - steps[m].now < 30 * SECOND
    ensures forall j: nat :: m < j < k ==> !Consumes(hmac, steps, j, steps[m].nonce)
    ensures Answered(hmac, steps[k].attempt)
  {
    m := ConsumedWasAsked(hmac, steps, k, steps[k].attempt.nonce.value);
  }

  // A challenge that is still valid is overwritten only when all four are, and then
  // none of them was issued earlier.
  lemma EvictsEarliestOfFour(hmac: Hmac, steps: seq<Step>, k: nat, nonce: string)
    requires k < |steps| && FreshNonces(steps) && Overwrites(hmac, steps, k, nonce)
    requires InTime(LifeAt(hmac, steps, k, nonce), steps[k].now)
    ensures forall i :: 0 <= i < CHALLENGE_MAX ==>
              && Pending(At(hmac, steps, k).challenges[i], steps[k].now)
              && LifeAt(hmac, steps, k, nonce).issued <= At(hmac, steps, k).challenges[i].issued
  {
    var t, now := At(hmac, steps, k).challenges, steps[k].now;
    var slot := ChallengeSlot(t, now);
    assert IsPick(FreeChallenges(t, now), IssueTimes(t), CHALLENGE_MAX, slot);
    TableTracksLives(hmac, steps, k, nonce);
    assert Carries(t, slot, nonce);
    assert !FreeChallenges(t, now)[slot] && IssueTimes(t)[slot] == t[slot].issued;
    forall i | 0 <= i < CHALLENGE_MAX
      ensures Pending(t[i], now) && t[slot].issued <= t[i].issued
    {
      assert !FreeChallenges(t, now)[i] && IssueTimes(t)[i] == t[i].issued;
    }
  }

  // The slot for a new challenge, for any table and time: the first that is free or
  // expired; if all four are valid, the first of those issued earliest.
  lemma SlotExactly(t: Challenges, now: Micros, r: nat)
    requires r < CHALLENGE_MAX
    ensures ChallengeSlot(t, now) == r <==>
      || (!Valid(t[r], now) && forall k :: 0 <= k < r ==> Valid(t[k], now))
      || (&& (forall k :: 0 <= k < CHALLENGE_MAX ==> Valid(t[k], now) && t[r].issued <= t[k].issued)
          && forall k :: 0 <= k < r ==> t[r].issued < t[k].issued)
  {
    var free, stamp := FreeChallenges(t, now), IssueTimes(t);
    assert forall k :: 0 <= k < CHALLENGE_MAX ==> free[k] == !Valid(t[k], now) && stamp[k] == t[k].issued;
    assert IsPick(free, stamp, CHALLENGE_MAX, ChallengeSlot(t, now));
    if IsPick(free, stamp, CHALLENGE_MAX, r) {
      PickIsUnique(free, stamp, CHALLENGE_MAX, ChallengeSlot(t, now), r);
    }
  }

  predicate Valid(c: Challenge, now: Micros) {
    c.active && now < c.issued + 30 * SECOND
  }

  // The lockout refusal comes before the challenge is looked up: it leaves the
  // challenge, and the counter, as they were.
  lemma RefusalConsumesNothing(hmac: Hmac, s: State, a: Attempt)
    ensures VerifyLogin(hmac, s, a).1.LockedOut? <==> s.lockedUntil > a.now
    ensures VerifyLogin(hmac, s, a).1.LockedOut? ==> VerifyLogin(hmac, s, a).0 == s
  {
    assert Correct(hmac, a) ==> WellFormed(a);
  }

  // A nonce that the tables hold is always well formed: it was written by the codec.
  lemma NoncesAreHex(hmac: Hmac, steps: seq<Step>, k: nat, nonce: string)
    requires k < |steps| && FreshNonces(steps) && Consumes(hmac, steps, k, nonce)
    requires forall j: nat :: j < |steps| && steps[j].AskChallenge? ==>
               exists bytes :: |bytes| == 16 && steps[j].nonce == Hex.Encode(bytes)
    ensures Hex.IsHex(nonce, 16)
  {
    var m := ConsumedWasAsked(hmac, steps, k, nonce);
    var bytes :| |bytes| == 16 && steps[m].nonce == Hex.Encode(bytes);
    Hex.EncodeIsHex(bytes);
  }
}
