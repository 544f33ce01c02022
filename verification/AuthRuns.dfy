// Any interleaving of the calls that touch the RAM state of main/auth.c. Each call
// runs under one lock, so a run is a sequence of whole calls.
module AuthRuns {
  import opened Options
  import opened Auth

  datatype Step =
    | AskChallenge(nonce: string, now: Micros)     // auth_begin_login_challenge
    | TryLogin(attempt: Attempt)                   // auth_verify_login
    | CheckToken(token: string, now: Micros)       // auth_check_session
    | Logout(token: string)                        // auth_end_session
    | DropAll                                      // auth_drop_all_sessions
    | FirstSession(token: string, now: Micros)     // the end of auth_commit_password

  function Next(hmac: Hmac, s: State, step: Step): State {
    match step
    case AskChallenge(nonce, now) => s.(challenges := Issued(s.challenges, nonce, now))
    case TryLogin(a) => VerifyLogin(hmac, s, a).0
    case CheckToken(token, now) => s.(sessions := Checked(s.sessions, token, now).0)
    case Logout(token) => s.(sessions := Ended(s.sessions, token))
    case DropAll => s.(sessions := EmptySessions())
    case FirstSession(token, now) => Unlocked(s, token, now)
  }

  // The state before step k of the run.
  function At(hmac: Hmac, steps: seq<Step>, k: nat): State
    requires k <= |steps|
  {
    if k == 0 then Initial() else Next(hmac, At(hmac, steps, k - 1), steps[k - 1])
  }

  // ------------------------------------------------- what a step does

  predicate Evaluates(hmac: Hmac, steps: seq<Step>, k: nat, nonce: string)
    requires k < |steps|
  {
    steps[k].TryLogin? && steps[k].attempt.nonce == Some(nonce) && Evaluated(At(hmac, steps, k), steps[k].attempt)
  }

  predicate Consumes(hmac: Hmac, steps: seq<Step>, k: nat, nonce: string)
    requires k < |steps|
  {
    steps[k].TryLogin? && steps[k].attempt.nonce == Some(nonce)
    && Matching(At(hmac, steps, k), steps[k].attempt).Some?
  }

  predicate LogsIn(hmac: Hmac, steps: seq<Step>, k: nat)
    requires k < |steps|
  {
    steps[k].TryLogin? && VerifyLogin(hmac, At(hmac, steps, k), steps[k].attempt).1.LoginOk?
  }

  predicate Fails(hmac: Hmac, steps: seq<Step>, k: nat)
    requires k < |steps|
  {
    steps[k].TryLogin? && VerifyLogin(hmac, At(hmac, steps, k), steps[k].attempt).1.BadCredentials?
  }

  predicate MintsAny(hmac: Hmac, steps: seq<Step>, k: nat)
    requires k < |steps|
  {
    LogsIn(hmac, steps, k) || steps[k].FirstSession?
  }

  function MintedToken(step: Step): string
    requires step.TryLogin? || step.FirstSession?
  {
    if step.TryLogin? then step.attempt.token else step.token
  }

  function MintedAt(step: Step): Micros
    requires step.TryLogin? || step.FirstSession?
  {
    if step.TryLogin? then step.attempt.mintAt else step.now
  }

  predicate Mints(hmac: Hmac, steps: seq<Step>, k: nat, token: string)
    requires k < |steps|
  {
    MintsAny(hmac, steps, k) && MintedToken(steps[k]) == token
  }

  predicate Accepts(hmac: Hmac, steps: seq<Step>, k: nat, token: string)
    requires k < |steps|
  {
    steps[k].CheckToken? && steps[k].token == token
    && Checked(At(hmac, steps, k).sessions, token, steps[k].now).1
  }

  // What a step does to the session table, and to nothing else of it.
  function NextSessions(hmac: Hmac, steps: seq<Step>, k: nat): Sessions
    requires k < |steps|
  {
    var t := At(hmac, steps, k).sessions;
    if MintsAny(hmac, steps, k) then Minted(t, MintedToken(steps[k]), MintedAt(steps[k]))
    else match steps[k]
      case CheckToken(token, now) => Checked(t, token, now).0
      case Logout(token) => Ended(t, token)
      case DropAll => EmptySessions()
      case _ => t
  }

  lemma SessionsStep(hmac: Hmac, steps: seq<Step>, k: nat)
    requires k < |steps|
    ensures At(hmac, steps, k + 1).sessions == NextSessions(hmac, steps, k)
  {
    assert At(hmac, steps, k + 1) == Next(hmac, At(hmac, steps, k), steps[k]);
  }

  function NextChallenges(hmac: Hmac, steps: seq<Step>, k: nat): Challenges
    requires k < |steps|
  {
    var s := At(hmac, steps, k);
    match steps[k]
    case AskChallenge(nonce, now) => Issued(s.challenges, nonce, now)
    case TryLogin(a) =>
      if Matching(s, a).Some? then Consumed(s.challenges, Matching(s, a).value) else s.challenges
    case _ => s.challenges
  }

  lemma ChallengesStep(hmac: Hmac, steps: seq<Step>, k: nat)
    requires k < |steps|
    ensures At(hmac, steps, k + 1).challenges == NextChallenges(hmac, steps, k)
  {
    assert At(hmac, steps, k + 1) == Next(hmac, At(hmac, steps, k), steps[k]);
  }
}
