// The life of a session token over any run of main/auth.c.
module SessionRuns {
  import opened Options
  import opened SlotChoice
  import opened Auth
  import opened AuthRuns

  // The random tokens of a run never repeat.
  ghost predicate FreshTokens(hmac: Hmac, steps: seq<Step>) {
    forall i: nat, j: nat :: i < j < |steps| && MintsAny(hmac, steps, i) && MintsAny(hmac, steps, j)
      ==> MintedToken(steps[i]) != MintedToken(steps[j])
  }

  // Minting a session at step k throws this one out.
  predicate Evicts(hmac: Hmac, steps: seq<Step>, k: nat, token: string)
    requires k < |steps|
  {
    var t := At(hmac, steps, k).sessions;
    MintsAny(hmac, steps, k) && t[SessionSlot(t)].inUse && t[SessionSlot(t)].token == token
  }

  // Step k ends the session, whatever its age.
  predicate Kills(hmac: Hmac, steps: seq<Step>, k: nat, token: string)
    requires k < |steps|
  {
    || Evicts(hmac, steps, k, token)
    || (steps[k].Logout? && steps[k].token == token)
    || steps[k].DropAll?
  }

  // The step carries the clock value it was run at.
  predicate Touches(hmac: Hmac, steps: seq<Step>, k: nat, token: string)
    requires k < |steps|
  {
    Mints(hmac, steps, k, token) || Accepts(hmac, steps, k, token)
  }

  function TouchTime(hmac: Hmac, steps: seq<Step>, k: nat, token: string): Micros
    requires k < |steps| && Touches(hmac, steps, k, token)
  {
    if steps[k].CheckToken? then steps[k].now else MintedAt(steps[k])
  }

  // ------------------------------------------------- one token, no table

  datatype Life = Dead | Alive(issued: Micros, lastSeen: Micros)

  // What the whole run up to step k makes of one token, without the table.
  function LifeAt(hmac: Hmac, steps: seq<Step>, k: nat, token: string): Life
    requires k <= |steps|
  {
    if k == 0 then Dead else NextLife(hmac, steps, k - 1, token, LifeAt(hmac, steps, k - 1, token))
  }

  function NextLife(hmac: Hmac, steps: seq<Step>, k: nat, token: string, life: Life): Life
    requires k < |steps|
  {
    if Mints(hmac, steps, k, token) then Alive(MintedAt(steps[k]), MintedAt(steps[k]))
    else if Kills(hmac, steps, k, token) || life.Dead? then Dead
    else if steps[k].CheckToken? && steps[k].token == token then
      if OutOfTime(life, steps[k].now) then Dead else life.(lastSeen := steps[k].now)
    else life
  }

  predicate OutOfTime(life: Life, now: Micros)
    requires life.Alive?
  {
    now - life.lastSeen > 30 * 60 * SECOND || now - life.issued > 12 * 60 * 60 * SECOND
  }

  predicate Holds(t: Sessions, i: nat, token: string) {
    i < SESSION_MAX && t[i].inUse && t[i].token == token
  }

  // The table knows of the token exactly what its life says.
  ghost predicate Tracks(t: Sessions, token: string, life: Life) {
    match life
    case Dead => forall i: nat :: !Holds(t, i, token)
    case Alive(issued, seen) =>
      && (exists i: nat :: Holds(t, i, token))
      && (forall i: nat, j: nat :: Holds(t, i, token) && Holds(t, j, token) ==> i == j)
      && (forall i: nat :: Holds(t, i, token) ==> t[i].issued == issued && t[i].lastSeen == seen)
  }

  // ------------------------------------------------- one operation, one token

  lemma MintTracks(t: Sessions, token: string, now: Micros)
    requires Tracks(t, token, Dead)
    ensures Tracks(Minted(t, token, now), token, Alive(now, now))
  {
    assert Holds(Minted(t, token, now), SessionSlot(t), token);
    forall i: nat | Holds(Minted(t, token, now), i, token)
      ensures i == SessionSlot(t)
    {
      assert !Holds(t, i, token);
    }
  }

  lemma MintOther(t: Sessions, minted: string, now: Micros, token: string, life: Life)
    requires minted != token && Tracks(t, token, life)
    ensures Tracks(Minted(t, minted, now), token, if Holds(t, SessionSlot(t), token) then Dead else life)
  {
    var after := Minted(t, minted, now);
    forall i: nat
      ensures Holds(after, i, token) <==> i != SessionSlot(t) && Holds(t, i, token)
    {
    }
    if life.Alive? && !Holds(t, SessionSlot(t), token) {
      var i: nat :| Holds(t, i, token);
      assert Holds(after, i, token);
    }
  }

  lemma SameHolders(t: Sessions, after: Sessions, token: string, life: Life)
    requires Tracks(t, token, life)
    requires forall i: nat :: Holds(after, i, token) <==> Holds(t, i, token)
    requires forall i: nat :: Holds(t, i, token) ==> after[i] == t[i]
    ensures Tracks(after, token, life)
  {
    if life.Alive? {
      var i: nat :| Holds(t, i, token);
      assert Holds(after, i, token);
    }
  }

  lemma FoundHolds(t: Sessions, token: string)
    ensures FindSession(t, token, 0).Some? ==> Holds(t, FindSession(t, token, 0).value, token)
    ensures FindSession(t, token, 0).None? ==> forall i: nat :: !Holds(t, i, token)
  {
  }

  lemma EndTracks(t: Sessions, token: string, life: Life)
    requires Tracks(t, token, life)
    ensures Tracks(Ended(t, token), token, Dead)
  {
    FoundHolds(t, token);
    forall i: nat
      ensures !Holds(Ended(t, token), i, token)
    {
      assert Holds(Ended(t, token), i, token) ==> Holds(t, i, token);
    }
  }

  lemma EndOther(t: Sessions, ended: string, token: string, life: Life)
    requires ended != token && Tracks(t, token, life)
    ensures Tracks(Ended(t, ended), token, life)
  {
    FoundHolds(t, ended);
    SameHolders(t, Ended(t, ended), token, life);
  }

  lemma CheckTracks(t: Sessions, token: string, now: Micros, life: Life)
    requires Tracks(t, token, life)
    ensures Checked(t, token, now).1 <==> life.Alive? && !OutOfTime(life, now)
    ensures Tracks(Checked(t, token, now).0, token,
                   if life.Alive? && !OutOfTime(life, now) then life.(lastSeen := now) else Dead)
  {
    FoundHolds(t, token);
    var after := Checked(t, token, now).0;
    assert forall i: nat :: Holds(after, i, token) ==> Holds(t, i, token);
    if life.Alive? {
      var i: nat :| Holds(t, i, token);
      assert FindSession(t, token, 0) == Some(i);
      if !OutOfTime(life, now) {
        assert Holds(after, i, token);
      }
    }
  }

  lemma CheckOther(t: Sessions, checked: string, now: Micros, token: string, life: Life)
    requires checked != token && Tracks(t, token, life)
    ensures Tracks(Checked(t, checked, now).0, token, life)
  {
    FoundHolds(t, checked);
    SameHolders(t, Checked(t, checked, now).0, token, life);
  }

  // ------------------------------------------------- the run

  lemma {:induction false} AliveWasMinted(hmac: Hmac, steps: seq<Step>, k: nat, token: string)
    requires k <= |steps| && LifeAt(hmac, steps, k, token).Alive?
    ensures exists m: nat :: m < k && Mints(hmac, steps, m, token)
  {
    if !Mints(hmac, steps, k - 1, token) {
      AliveWasMinted(hmac, steps, k - 1, token);
    }
  }

  lemma MintIsFresh(hmac: Hmac, steps: seq<Step>, k: nat, token: string)
    requires k < |steps| && FreshTokens(hmac, steps) && Mints(hmac, steps, k, token)
    ensures LifeAt(hmac, steps, k, token).Dead?
  {
    if LifeAt(hmac, steps, k, token).Alive? {
      AliveWasMinted(hmac, steps, k, token);
    }
  }

  lemma MintStep(hmac: Hmac, steps: seq<Step>, k: nat, token: string, life: Life)
    requires k < |steps| && FreshTokens(hmac, steps) && MintsAny(hmac, steps, k)
    requires life == LifeAt(hmac, steps, k, token) && Tracks(At(hmac, steps, k).sessions, token, life)
    ensures Tracks(NextSessions(hmac, steps, k), token, NextLife(hmac, steps, k, token, life))
  {
    var t := At(hmac, steps, k).sessions;
    if Mints(hmac, steps, k, token) {
      MintIsFresh(hmac, steps, k, token);
      MintTracks(t, token, MintedAt(steps[k]));
    } else {
      MintOther(t, MintedToken(steps[k]), MintedAt(steps[k]), token, life);
    }
  }

  lemma OtherStep(hmac: Hmac, steps: seq<Step>, k: nat, token: string, life: Life)
    requires k < |steps| && !MintsAny(hmac, steps, k)
    requires Tracks(At(hmac, steps, k).sessions, token, life)
    ensures Tracks(NextSessions(hmac, steps, k), token, NextLife(hmac, steps, k, token, life))
  {
    var t := At(hmac, steps, k).sessions;
    match steps[k]
    case CheckToken(checked, now) =>
      if checked == token {
        CheckTracks(t, token, now, life);
      } else {
        CheckOther(t, checked, now, token, life);
      }
    case Logout(ended) =>
      if ended == token {
        EndTracks(t, token, life);
      } else {
        EndOther(t, ended, token, life);
      }
    case _ =>
  }

  lemma AnyStep(hmac: Hmac, steps: seq<Step>, k: nat, token: string, life: Life)
    requires k < |steps| && FreshTokens(hmac, steps)
    requires life == LifeAt(hmac, steps, k, token) && Tracks(At(hmac, steps, k).sessions, token, life)
    ensures Tracks(NextSessions(hmac, steps, k), token, NextLife(hmac, steps, k, token, life))
  {
    if MintsAny(hmac, steps, k) {
      MintStep(hmac, steps, k, token, life);
    } else {
      OtherStep(hmac, steps, k, token, life);
    }
  }

  lemma {:induction false} TableAndLife(hmac: Hmac, steps: seq<Step>, k: nat, token: string)
    returns (t: Sessions, life: Life)
    requires k <= |steps| && FreshTokens(hmac, steps)
    ensures t == At(hmac, steps, k).sessions && life == LifeAt(hmac, steps, k, token)
    ensures Tracks(t, token, life)
  {
    if k == 0 {
      t, life := EmptySessions(), Dead;
    } else {
      var t0, life0 := TableAndLife(hmac, steps, k - 1, token);
      AnyStep(hmac, steps, k - 1, token, life0);
      t, life := NextSessions(hmac, steps, k - 1), NextLife(hmac, steps, k - 1, token, life0);
      SessionsStep(hmac, steps, k - 1);
    }
  }

  // The four-slot table refines the lives of its tokens.
  lemma TableTracksLives(hmac: Hmac, steps: seq<Step>, k: nat, token: string)
    requires k <= |steps| && FreshTokens(hmac, steps)
    ensures Tracks(At(hmac, steps, k).sessions, token, LifeAt(hmac, steps, k, token))
  {
    var t, life := TableAndLife(hmac, steps, k, token);
  }

  // A check succeeds exactly for a token whose life says alive and in time.
  lemma AcceptedExactly(hmac: Hmac, steps: seq<Step>, k: nat, token: string, now: Micros)
    requires k < |steps| && FreshTokens(hmac, steps) && steps[k] == CheckToken(token, now)
    ensures Accepts(hmac, steps, k, token) <==>
      LifeAt(hmac, steps, k, token).Alive? && !OutOfTime(LifeAt(hmac, steps, k, token), now)
  {
    TableTracksLives(hmac, steps, k, token);
    CheckTracks(At(hmac, steps, k).sessions, token, now, LifeAt(hmac, steps, k, token));
  }

  // A session never used since it was minted is accepted for 30 minutes.
  lemma UnusedIsAccepted(t: Sessions, token: string, at: Micros, now: Micros)
    requires Tracks(t, token, Alive(at, at))
    ensures Checked(t, token, now).1 <==> now - at <= 30 * 60 * SECOND
  {
    CheckTracks(t, token, now, Alive(at, at));
  }

  lemma MintedTracks(hmac: Hmac, steps: seq<Step>, k: nat, token: string)
    requires k < |steps| && FreshTokens(hmac, steps) && Mints(hmac, steps, k, token)
    ensures Tracks(NextSessions(hmac, steps, k), token, Alive(MintedAt(steps[k]), MintedAt(steps[k])))
  {
    var t, life := TableAndLife(hmac, steps, k, token);
    AnyStep(hmac, steps, k, token, life);
  }

  lemma LoginMints(hmac: Hmac, steps: seq<Step>, k: nat, token: string)
    requires k < |steps| && steps[k].TryLogin?
    requires VerifyLogin(hmac, At(hmac, steps, k), steps[k].attempt).1 == LoginOk(token)
    ensures Mints(hmac, steps, k, token) && token == steps[k].attempt.token
  {
  }

  // The token that a login hands out is the one it minted: checked next, it is accepted
  // if and only if at most 30 minutes have passed.
  lemma LoginTokenIsAccepted(hmac: Hmac, steps: seq<Step>, k: nat, token: string, now: Micros)
    requires k < |steps| && FreshTokens(hmac, steps) && steps[k].TryLogin?
    requires VerifyLogin(hmac, At(hmac, steps, k), steps[k].attempt).1 == LoginOk(token)
    ensures Mints(hmac, steps, k, token) && token == steps[k].attempt.token
    ensures Checked(At(hmac, steps, k + 1).sessions, token, now).1
      <==> now - steps[k].attempt.mintAt <= 30 * 60 * SECOND
  {
    LoginMints(hmac, steps, k, token);
    MintedTracks(hmac, steps, k, token);
    SessionsStep(hmac, steps, k);
    UnusedIsAccepted(NextSessions(hmac, steps, k), token, steps[k].attempt.mintAt, now);
  }

  // ------------------------------------------------- history

  // No use of the token lies strictly between steps q and j.
  ghost predicate Untouched(hmac: Hmac, steps: seq<Step>, q: nat, j: nat, token: string)
    requires j <= |steps|
  {
    forall i: nat :: q < i < j ==> !Touches(hmac, steps, i, token)
  }

  // The acceptance at step j comes at most 30 minutes after the touch just before it.
  ghost predicate NoGap(hmac: Hmac, steps: seq<Step>, m: nat, j: nat, token: string)
    requires m < j < |steps| && Accepts(hmac, steps, j, token)
  {
    exists q: nat ::
      && m <= q < j && Touches(hmac, steps, q, token)
      && Untouched(hmac, steps, q, j, token)
      && TouchTime(hmac, steps, j, token) - TouchTime(hmac, steps, q, token) <= 30 * 60 * SECOND
  }

  ghost predicate Lineage(hmac: Hmac, steps: seq<Step>, m: nat, k: nat, token: string)
    requires m < k <= |steps|
  {
    && Mints(hmac, steps, m, token)
    && (forall j: nat :: m < j < k ==> !Kills(hmac, steps, j, token))
    && (forall j: nat :: m < j < k && Accepts(hmac, steps, j, token) ==> NoGap(hmac, steps, m, j, token))
  }

  lemma ExtendLineage(hmac: Hmac, steps: seq<Step>, m: nat, k: nat, token: string)
    requires m < k < |steps| && Lineage(hmac, steps, m, k, token) && !Kills(hmac, steps, k, token)
    requires Accepts(hmac, steps, k, token) ==> NoGap(hmac, steps, m, k, token)
    ensures Lineage(hmac, steps, m, k + 1, token)
  {
  }

  // The token's life at step k, minted at step m and last used at step p.
  ghost predicate Lived(hmac: Hmac, steps: seq<Step>, m: nat, p: nat, k: nat, token: string, life: Life) {
    && m <= p < k <= |steps| && life.Alive?
    && Lineage(hmac, steps, m, k, token) && TouchTime(hmac, steps, m, token) == life.issued
    && Touches(hmac, steps, p, token) && TouchTime(hmac, steps, p, token) == life.lastSeen
    && Untouched(hmac, steps, p, k, token)
  }

  lemma MintLives(hmac: Hmac, steps: seq<Step>, k: nat, token: string)
    requires k < |steps| && Mints(hmac, steps, k, token)
    ensures Lived(hmac, steps, k, k, k + 1, token, NextLife(hmac, steps, k, token, Dead))
  {
  }

  // Used again in time, the token lives on.
  lemma UseLives(hmac: Hmac, steps: seq<Step>, m: nat, p: nat, k: nat, token: string, life: Life)
    requires k < |steps| && Lived(hmac, steps, m, p, k, token, life) && !Kills(hmac, steps, k, token)
    requires Accepts(hmac, steps, k, token) && !OutOfTime(life, steps[k].now)
    ensures NoGap(hmac, steps, m, k, token)
    ensures Lived(hmac, steps, m, k, k + 1, token, life.(lastSeen := steps[k].now))
  {
    assert TouchTime(hmac, steps, k, token) == steps[k].now;
    assert NoGap(hmac, steps, m, k, token);
    ExtendLineage(hmac, steps, m, k, token);
  }

  // So it does while it is left alone.
  lemma RestLives(hmac: Hmac, steps: seq<Step>, m: nat, p: nat, k: nat, token: string, life: Life)
    requires k < |steps| && Lived(hmac, steps, m, p, k, token, life) && !Kills(hmac, steps, k, token)
    requires !Touches(hmac, steps, k, token)
    ensures Lived(hmac, steps, m, p, k + 1, token, life)
  {
    ExtendLineage(hmac, steps, m, k, token);
    StaysUntouched(hmac, steps, p, k, token);
  }

  lemma StaysUntouched(hmac: Hmac, steps: seq<Step>, p: nat, k: nat, token: string)
    requires k < |steps| && Untouched(hmac, steps, p, k, token) && !Touches(hmac, steps, k, token)
    ensures Untouched(hmac, steps, p, k + 1, token)
  {
  }

  lemma StillAlive(hmac: Hmac, steps: seq<Step>, k: nat, token: string, life: Life)
    requires k < |steps| && !Mints(hmac, steps, k, token) && NextLife(hmac, steps, k, token, life).Alive?
    ensures life.Alive? && !Kills(hmac, steps, k, token)
    ensures if steps[k].CheckToken? && steps[k].token == token
            then !OutOfTime(life, steps[k].now)
              && NextLife(hmac, steps, k, token, life) == life.(lastSeen := steps[k].now)
            else !Touches(hmac, steps, k, token) && NextLife(hmac, steps, k, token, life) == life
  {
  }

  lemma {:induction false} AliveHasLineage(hmac: Hmac, steps: seq<Step>, k: nat, token: string)
    returns (m: nat, p: nat)
    requires k <= |steps| && FreshTokens(hmac, steps) && LifeAt(hmac, steps, k, token).Alive?
    ensures Lived(hmac, steps, m, p, k, token, LifeAt(hmac, steps, k, token))
  {
    var n, life := k - 1, LifeAt(hmac, steps, k - 1, token);
    if Mints(hmac, steps, n, token) {
      m, p := n, n;
      MintLives(hmac, steps, n, token);
    } else {
      StillAlive(hmac, steps, n, token, life);
      m, p := AliveHasLineage(hmac, steps, n, token);
      if steps[n].CheckToken? && steps[n].token == token {
        AcceptedExactly(hmac, steps, n, token, steps[n].now);
        UseLives(hmac, steps, m, p, n, token, life);
        p := n;
      } else {
        RestLives(hmac, steps, m, p, n, token, life);
      }
    }
  }

  // A token accepted at step k was minted at most 12 hours earlier, never ended,
  // dropped or evicted since, and no two consecutive uses are over 30 minutes apart.
  lemma SessionHistory(hmac: Hmac, steps: seq<Step>, k: nat, token: string)
    requires k < |steps| && FreshTokens(hmac, steps) && Accepts(hmac, steps, k, token)
    ensures exists m: nat ::
              && m < k && Lineage(hmac, steps, m, k + 1, token)
              && TouchTime(hmac, steps, k, token) - TouchTime(hmac, steps, m, token) <= 12 * 60 * 60 * SECOND
  {
    var life := LifeAt(hmac, steps, k, token);
    AcceptedExactly(hmac, steps, k, token, steps[k].now);
    var m, p := AliveHasLineage(hmac, steps, k, token);
    UseLives(hmac, steps, m, p, k, token, life);
  }

  // Once ended, dropped or evicted, a token is never accepted again.
  lemma DeadStaysDead(hmac: Hmac, steps: seq<Step>, m: nat, j: nat, k: nat, token: string)
    requires m < j < k < |steps| && FreshTokens(hmac, steps)
    requires Mints(hmac, steps, m, token) && Kills(hmac, steps, j, token)
    ensures !Accepts(hmac, steps, k, token)
  {
    if Accepts(hmac, steps, k, token) {
      SessionHistory(hmac, steps, k, token);
    }
  }

  // ------------------------------------------------- eviction

  // A live session is evicted only from a full table, and then no session of the
  // table was used less recently.
  lemma EvictsLeastRecentlySeen(hmac: Hmac, steps: seq<Step>, k: nat, token: string, other: string)
    requires k < |steps| && FreshTokens(hmac, steps) && Evicts(hmac, steps, k, token)
    ensures forall i :: 0 <= i < SESSION_MAX ==> At(hmac, steps, k).sessions[i].inUse
    ensures LifeAt(hmac, steps, k, token).Alive?
    ensures LifeAt(hmac, steps, k, other).Alive?
      ==> LifeAt(hmac, steps, k, token).lastSeen <= LifeAt(hmac, steps, k, other).lastSeen
  {
    var t := At(hmac, steps, k).sessions;
    var slot := SessionSlot(t);
    assert IsPick(UnusedSessions(t), LastSeen(t), SESSION_MAX, slot);
    assert !UnusedSessions(t)[slot];
    TableTracksLives(hmac, steps, k, token);
    assert Holds(t, slot, token);
    assert LastSeen(t)[slot] == t[slot].lastSeen;
    TableTracksLives(hmac, steps, k, other);
    if LifeAt(hmac, steps, k, other).Alive? {
      var i: nat :| Holds(t, i, other);
      assert LastSeen(t)[i] == t[i].lastSeen;
    }
    forall i | 0 <= i < SESSION_MAX
      ensures t[i].inUse
    {
      assert !UnusedSessions(t)[i];
    }
  }
}
