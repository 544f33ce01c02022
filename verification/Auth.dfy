// The RAM state of main/auth.c: the session and the challenge table, the failure
// counter and the lockout. Each operation is first a function on values, then the
// method that changes the tables in place. Times are in microseconds.
module Auth {
  import opened ByteSeqs
  import opened Counting
  import opened Options
  import opened SlotChoice
  import Hex

  const SESSION_MAX: nat := 4
  const CHALLENGE_MAX: nat := 4
  const LOCKOUT_THRESHOLD: nat := 5
  const LOCKOUT_BASE_S: nat := 30
  const LOCKOUT_MAX_S: nat := 300
  const SECOND: nat := 1_000_000
  const CHALLENGE_TTL: nat := 30 * SECOND
  const SESSION_IDLE: nat := 30 * 60 * SECOND
  const SESSION_ABSOLUTE_MAX: nat := 43_200 * SECOND
  const FAIL_MAX: nat := 255
  const INT64_MAX: int := 0x7FFF_FFFF_FFFF_FFFF

  type Micros = t: int | 0 <= t <= INT64_MAX

  // The keyed digest (HMAC-SHA256), left uninterpreted.
  type Hmac = (Bytes, Bytes) -> Bytes

  datatype Session = Session(inUse: bool, token: string, lastSeen: Micros, issued: Micros)
  datatype Challenge = Challenge(active: bool, nonce: string, issued: Micros)

  const NO_SESSION := Session(false, "", 0, 0)
  const NO_CHALLENGE := Challenge(false, "", 0)

  type Sessions = t: seq<Session> | |t| == SESSION_MAX witness seq(SESSION_MAX, _ => NO_SESSION)
  type Challenges = t: seq<Challenge> | |t| == CHALLENGE_MAX witness seq(CHALLENGE_MAX, _ => NO_CHALLENGE)

  datatype State = State(sessions: Sessions, challenges: Challenges, failCount: nat, lockedUntil: int)

  function EmptySessions(): Sessions {
    seq(SESSION_MAX, _ => NO_SESSION)
  }

  function Initial(): State {
    State(EmptySessions(), seq(CHALLENGE_MAX, _ => NO_CHALLENGE), 0, 0)
  }

  // ------------------------------------------------- sessions

  function UnusedSessions(t: Sessions): seq<bool> {
    seq(SESSION_MAX, i requires 0 <= i < SESSION_MAX => !t[i].inUse)
  }

  function LastSeen(t: Sessions): seq<Micros> {
    seq(SESSION_MAX, i requires 0 <= i < SESSION_MAX => t[i].lastSeen)
  }

  function SessionSlot(t: Sessions): (r: nat)
    ensures r < SESSION_MAX
  {
    Pick(UnusedSessions(t), LastSeen(t), SESSION_MAX)
  }

  // session_create_locked
  function Minted(t: Sessions, token: string, now: Micros): Sessions {
    t[SessionSlot(t) := Session(true, token, now, now)]
  }

  function FindSession(t: Sessions, token: string, i: nat): (r: Option<nat>)
    ensures r.Some? ==> i <= r.value < SESSION_MAX && t[r.value].inUse && t[r.value].token == token
    ensures r.None? ==> forall k :: i <= k < SESSION_MAX ==> !(t[k].inUse && t[k].token == token)
    decreases SESSION_MAX - i
  {
    if i >= SESSION_MAX then None
    else if t[i].inUse && t[i].token == token then Some(i)
    else FindSession(t, token, i + 1)
  }

  predicate TooOld(s: Session, now: Micros) {
    now - s.lastSeen > SESSION_IDLE || now - s.issued > SESSION_ABSOLUTE_MAX
  }

  // auth_check_session
  function Checked(t: Sessions, token: string, now: Micros): (Sessions, bool) {
    match FindSession(t, token, 0)
    case None => (t, false)
    case Some(i) =>
      if TooOld(t[i], now) then (t[i := t[i].(inUse := false)], false)
      else (t[i := t[i].(lastSeen := now)], true)
  }

  // auth_end_session
  function Ended(t: Sessions, token: string): Sessions {
    match FindSession(t, token, 0)
    case None => t
    case Some(i) => t[i := t[i].(inUse := false)]
  }

  // ------------------------------------------------- challenges

  predicate Pending(c: Challenge, now: Micros) {
    c.active && now - c.issued < CHALLENGE_TTL
  }

  function FreeChallenges(t: Challenges, now: Micros): seq<bool> {
    seq(CHALLENGE_MAX, i requires 0 <= i < CHALLENGE_MAX => !Pending(t[i], now))
  }

  function IssueTimes(t: Challenges): seq<Micros> {
    seq(CHALLENGE_MAX, i requires 0 <= i < CHALLENGE_MAX => t[i].issued)
  }

  function ChallengeSlot(t: Challenges, now: Micros): (r: nat)
    ensures r < CHALLENGE_MAX
  {
    Pick(FreeChallenges(t, now), IssueTimes(t), CHALLENGE_MAX)
  }

  // challenge_issue_locked
  function Issued(t: Challenges, nonce: string, now: Micros): Challenges {
    t[ChallengeSlot(t, now) := Challenge(true, nonce, now)]
  }

  function FindChallenge(t: Challenges, nonce: string, now: Micros, i: nat): (r: Option<nat>)
    ensures r.Some? ==> i <= r.value < CHALLENGE_MAX && Pending(t[r.value], now) && t[r.value].nonce == nonce
    ensures r.None? ==> forall k :: i <= k < CHALLENGE_MAX ==> !(Pending(t[k], now) && t[k].nonce == nonce)
    decreases CHALLENGE_MAX - i
  {
    if i >= CHALLENGE_MAX then None
    else if Pending(t[i], now) && t[i].nonce == nonce then Some(i)
    else FindChallenge(t, nonce, now, i + 1)
  }

  // ------------------------------------------------- lockout

  function Pow2(k: nat): (r: nat)
    ensures r >= 1
  {
    if k == 0 then 1 else 2 * Pow2(k - 1)
  }

  // 30 s at the fifth failure, doubling with each further one, 300 s at most.
  function LockoutSeconds(failures: nat): nat
    requires failures >= LOCKOUT_THRESHOLD
  {
    Min(LOCKOUT_MAX_S, LOCKOUT_BASE_S * Pow2(failures - LOCKOUT_THRESHOLD))
  }

  function RetryAfter(lockedUntil: int, now: Micros): int {
    (lockedUntil - now + 999_999) / SECOND
  }

  // ------------------------------------------------- login

  // One call of auth_verify_login with what it reads on the way: the stored key,
  // whether the digest could be computed, the token drawn and when it is minted.
  datatype Attempt = Attempt(
    now: Micros, nonce: Option<string>, response: Option<string>,
    key: Bytes, rcOk: bool, token: string, mintAt: Micros)

  datatype LoginResult = LoginOk(token: string) | BadCredentials | LockedOut(retryAfter: int) | NoChallenge

  predicate WellFormed(a: Attempt) {
    a.nonce.Some? && Hex.IsHex(a.nonce.value, 16) && a.response.Some? && Hex.IsHex(a.response.value, 32)
  }

  // The response is the digest of the nonce under the stored key.
  predicate Correct(hmac: Hmac, a: Attempt) {
    WellFormed(a) && a.rcOk
    && Hex.Decode(a.response.value, 32) == Some(hmac(a.key, Hex.Decode(a.nonce.value, 16).value))
  }

  // The challenge the attempt consumes, if it is not refused outright.
  function Matching(s: State, a: Attempt): (r: Option<nat>)
    ensures r.Some? ==> r.value < CHALLENGE_MAX && a.nonce.Some?
  {
    if s.lockedUntil > a.now || a.nonce.None? then None
    else FindChallenge(s.challenges, a.nonce.value, a.now, 0)
  }

  predicate Evaluated(s: State, a: Attempt) {
    Matching(s, a).Some? && WellFormed(a)
  }

  function Consumed(t: Challenges, i: nat): Challenges
    requires i < CHALLENGE_MAX
  {
    t[i := t[i].(active := false)]
  }

  function Failures(failCount: nat): nat {
    if failCount < FAIL_MAX then failCount + 1 else failCount
  }

  function AfterFailure(s: State, now: Micros): State {
    var n := Failures(s.failCount);
    s.(failCount := n,
       lockedUntil := if n >= LOCKOUT_THRESHOLD then now + LockoutSeconds(n) * SECOND else s.lockedUntil)
  }

  // The end of a successful login and of a password change.
  function Unlocked(s: State, token: string, now: Micros): State {
    s.(failCount := 0, lockedUntil := 0, sessions := Minted(s.sessions, token, now))
  }

  function VerifyLogin(hmac: Hmac, s: State, a: Attempt): (State, LoginResult) {
    if s.lockedUntil > a.now then (s, LockedOut(RetryAfter(s.lockedUntil, a.now)))
    else match Matching(s, a)
    case None => (s, NoChallenge)
    case Some(i) =>
      var consumed := s.(challenges := Consumed(s.challenges, i));
      if !WellFormed(a) then (consumed, NoChallenge)
      else if Correct(hmac, a) then (Unlocked(consumed, a.token, a.mintAt), LoginOk(a.token))
      else (AfterFailure(consumed, a.now), BadCredentials)
  }

  // ------------------------------------------------- in place

  class AuthTables {
    const hmac: Hmac
    const sessions: array<Session>
    const challenges: array<Challenge>
    var failCount: nat
    var lockedUntil: int

    ghost predicate Valid()
      reads this
    {
      sessions.Length == SESSION_MAX && challenges.Length == CHALLENGE_MAX && failCount <= FAIL_MAX
    }

    ghost function View(): State
      requires Valid()
      reads this, sessions, challenges
    {
      State(sessions[..], challenges[..], failCount, lockedUntil)
    }

    constructor (hmac: Hmac)
      ensures Valid() && fresh(sessions) && fresh(challenges)
      ensures this.hmac == hmac && View() == Initial()
    {
      this.hmac := hmac;
      sessions := new Session[SESSION_MAX](_ => NO_SESSION);
      challenges := new Challenge[CHALLENGE_MAX](_ => NO_CHALLENGE);
      failCount, lockedUntil := 0, 0;
    }

    method PickSession() returns (slot: nat)
      requires Valid()
      ensures slot == SessionSlot(sessions[..])
    {
      ghost var free, stamp := UnusedSessions(sessions[..]), LastSeen(sessions[..]);
      var oldestSeen: int, oldestIdx := INT64_MAX, 0;
      var i := 0;
      while i < SESSION_MAX
        invariant 0 <= i <= SESSION_MAX
        invariant if i == 0 then oldestSeen == INT64_MAX && oldestIdx == 0
                  else oldestIdx < i && oldestSeen == stamp[oldestIdx]
        invariant oldestIdx < SESSION_MAX
        invariant forall k :: 0 <= k < i ==> !free[k] && oldestSeen <= stamp[k]
        invariant forall k :: 0 <= k < oldestIdx ==> stamp[oldestIdx] < stamp[k]
      {
        if !sessions[i].inUse {
          PickIsUnique(free, stamp, SESSION_MAX, i, SessionSlot(sessions[..]));
          return i;
        }
        if sessions[i].lastSeen < oldestSeen {
          oldestSeen := sessions[i].lastSeen;
          oldestIdx := i;
        }
        i := i + 1;
      }
      PickIsUnique(free, stamp, SESSION_MAX, oldestIdx, SessionSlot(sessions[..]));
      return oldestIdx;
    }

    method SessionCreateLocked(token: string, now: Micros)
      requires Valid()
      modifies sessions
      ensures sessions[..] == Minted(old(sessions[..]), token, now)
    {
      var slot := PickSession();
      sessions[slot] := Session(true, token, now, now);
    }

    method PickChallenge(now: Micros) returns (slot: nat)
      requires Valid()
      ensures slot == ChallengeSlot(challenges[..], now)
    {
      ghost var free, stamp := FreeChallenges(challenges[..], now), IssueTimes(challenges[..]);
      var oldestIssued: int, oldestIdx := INT64_MAX, 0;
      var i := 0;
      while i < CHALLENGE_MAX
        invariant 0 <= i <= CHALLENGE_MAX
        invariant if i == 0 then oldestIssued == INT64_MAX && oldestIdx == 0
                  else oldestIdx < i && oldestIssued == stamp[oldestIdx]
        invariant oldestIdx < CHALLENGE_MAX
        invariant forall k :: 0 <= k < i ==> !free[k] && oldestIssued <= stamp[k]
        invariant forall k :: 0 <= k < oldestIdx ==> stamp[oldestIdx] < stamp[k]
      {
        if !challenges[i].active || now - challenges[i].issued >= CHALLENGE_TTL {
          PickIsUnique(free, stamp, CHALLENGE_MAX, i, ChallengeSlot(challenges[..], now));
          return i;
        }
        if challenges[i].issued < oldestIssued {
          oldestIssued := challenges[i].issued;
          oldestIdx := i;
        }
        i := i + 1;
      }
      PickIsUnique(free, stamp, CHALLENGE_MAX, oldestIdx, ChallengeSlot(challenges[..], now));
      return oldestIdx;
    }

    method ChallengeIssueLocked(nonce: string, now: Micros)
      requires Valid()
      modifies challenges
      ensures challenges[..] == Issued(old(challenges[..]), nonce, now)
    {
      var slot := PickChallenge(now);
      challenges[slot] := Challenge(true, nonce, now);
    }

    // The scan of auth_verify_login that clears the matching challenge.
    method ConsumeChallenge(nonce: Option<string>, now: Micros) returns (ok: bool)
      requires Valid()
      modifies challenges
      ensures ok == (nonce.Some? && FindChallenge(old(challenges[..]), nonce.value, now, 0).Some?)
      ensures challenges[..] ==
        if ok then Consumed(old(challenges[..]), FindChallenge(old(challenges[..]), nonce.value, now, 0).value)
                                else old(challenges[..])
    {
      if nonce.None? {
        return false;
      }
      var i := 0;
      while i < CHALLENGE_MAX
        modifies {}
        invariant 0 <= i <= CHALLENGE_MAX
        invariant FindChallenge(challenges[..], nonce.value, now, 0)
               == FindChallenge(challenges[..], nonce.value, now, i)
      {
        if challenges[i].active && now - challenges[i].issued < CHALLENGE_TTL && challenges[i].nonce == nonce.value {
          break;
        }
        i := i + 1;
      }
      ok := i < CHALLENGE_MAX;
      if ok {
        challenges[i] := challenges[i].(active := false);
      }
    }

    // The doubling loop.
    method LockoutDuration() returns (seconds: nat)
      requires Valid() && failCount >= LOCKOUT_THRESHOLD
      ensures seconds == LockoutSeconds(failCount)
    {
      seconds := LOCKOUT_BASE_S;
      var shift := failCount - LOCKOUT_THRESHOLD;
      var i := 0;
      while i < shift && seconds < LOCKOUT_MAX_S
        invariant 0 <= i <= shift
        invariant seconds == LOCKOUT_BASE_S * Pow2(i)
      {
        seconds := seconds * 2;
        i := i + 1;
      }
      Pow2Monotone(i, shift);
      if seconds > LOCKOUT_MAX_S {
        seconds := LOCKOUT_MAX_S;
      }
    }

    method VerifyLoginInPlace(a: Attempt) returns (r: LoginResult)
      requires Valid()
      modifies this, sessions, challenges
      ensures Valid() && (View(), r) == VerifyLogin(hmac, old(View()), a)
    {
      if lockedUntil > a.now {
        return LockedOut((lockedUntil - a.now + 999_999) / SECOND);
      }
      var challengeOk := ConsumeChallenge(a.nonce, a.now);
      if !challengeOk {
        return NoChallenge;
      }
      if !Hex.IsHex(a.nonce.value, 16) || a.response.None? || !Hex.IsHex(a.response.value, 32) {
        return NoChallenge;
      }
      var nonceBytes := Hex.Decode(a.nonce.value, 16).value;
      var responseBytes := Hex.Decode(a.response.value, 32).value;
      if a.rcOk && hmac(a.key, nonceBytes) == responseBytes {
        failCount, lockedUntil := 0, 0;
        SessionCreateLocked(a.token, a.mintAt);
        return LoginOk(a.token);
      }
      if failCount < FAIL_MAX {
        failCount := failCount + 1;
      }
      if failCount >= LOCKOUT_THRESHOLD {
        var seconds := LockoutDuration();
        lockedUntil := a.now + seconds * SECOND;
      }
      return BadCredentials;
    }

    method CheckSession(token: string, now: Micros) returns (ok: bool)
      requires Valid()
      modifies sessions
      ensures (sessions[..], ok) == Checked(old(sessions[..]), token, now)
    {
      var i := Lookup(token);
      ok := false;
      if i < SESSION_MAX {
        if now - sessions[i].lastSeen > SESSION_IDLE || now - sessions[i].issued > SESSION_ABSOLUTE_MAX {
          sessions[i] := sessions[i].(inUse := false);
        } else {
          sessions[i] := sessions[i].(lastSeen := now);
          ok := true;
        }
      }
    }

    method EndSession(token: string)
      requires Valid()
      modifies sessions
      ensures sessions[..] == Ended(old(sessions[..]), token)
    {
      var i := Lookup(token);
      if i < SESSION_MAX {
        sessions[i] := sessions[i].(inUse := false);
      }
    }

    // The scan shared by the two operations above.
    method Lookup(token: string) returns (i: nat)
      requires Valid()
      ensures FindSession(sessions[..], token, 0) == if i < SESSION_MAX then Some(i) else None
    {
      i := 0;
      while i < SESSION_MAX
        invariant 0 <= i <= SESSION_MAX
        invariant FindSession(sessions[..], token, 0) == FindSession(sessions[..], token, i)
      {
        if sessions[i].inUse && sessions[i].token == token {
          return;
        }
        i := i + 1;
      }
    }

    method DropAllSessions()
      requires Valid()
      modifies sessions
      ensures sessions[..] == EmptySessions()
    {
      forall i | 0 <= i < SESSION_MAX {
        sessions[i] := NO_SESSION;
      }
    }

    // The locked half of auth_commit_password's success path.
    method OpenFirstSession(token: string, now: Micros)
      requires Valid()
      modifies this, sessions
      ensures Valid() && View() == Unlocked(old(View()), token, now)
    {
      failCount, lockedUntil := 0, 0;
      SessionCreateLocked(token, now);
    }

    method IsLockedOut(now: Micros) returns (locked: bool, retryAfter: int)
      requires Valid()
      ensures locked == (lockedUntil > now)
      ensures locked ==> retryAfter == RetryAfter(lockedUntil, now)
    {
      locked := lockedUntil > now;
      retryAfter := 0;
      if locked {
        retryAfter := (lockedUntil - now + 999_999) / SECOND;
      }
    }
  }

  lemma {:induction false} Pow2Monotone(i: nat, j: nat)
    requires i <= j
    ensures Pow2(i) <= Pow2(j)
    decreases j - i
  {
    if i < j {
      Pow2Monotone(i + 1, j);
    }
  }

  // The reported wait clears the lock, and no shorter whole number of seconds does.
  lemma WaitingClearsTheLock(lockedUntil: int, now: Micros)
    requires lockedUntil > now
    ensures now + RetryAfter(lockedUntil, now) * SECOND >= lockedUntil
    ensures now + (RetryAfter(lockedUntil, now) - 1) * SECOND < lockedUntil
  {
    var d := lockedUntil - now + 999_999;
    assert d == (d / SECOND) * SECOND + d % SECOND;
  }

  // So a refused login is told the least whole number of seconds after which it is
  // not refused.
  lemma RefusalTellsTheWait(hmac: Hmac, s: State, a: Attempt, r: int)
    requires VerifyLogin(hmac, s, a).1 == LockedOut(r)
    ensures a.now + r * SECOND >= s.lockedUntil > a.now + (r - 1) * SECOND
    ensures s.lockedUntil > a.now && VerifyLogin(hmac, s, a).0 == s
  {
    WaitingClearsTheLock(s.lockedUntil, a.now);
  }
}
