// Logins against changes of the credential: the two locks of main/auth.c
// (s_auth_lock and the configuration lock), taken by any number of tasks. The
// stored key is known here by its version; each replacement makes a new one. A web
// save (main/web_ui.c) writes back the whole configuration of its snapshot, key
// included, if no revision was counted in between - and the auth reset counts none.
// The identity worker (main/tls_identity.c) does so without looking at the revision.
module CredentialChange {
  import opened Options

  // Where a task stands. Names in ...HasAuth, ...HasCfg say which lock it holds there.
  datatype Task =
    | Idle
    | BriefHasAuth | BriefHasCfg                       // a call that takes just one lock, once
    | LoginHasAuth | LoginHasBoth | LoginRead(version: nat)
    | CommitHasCfg | CommitChecked                     // the claim check
    | CommitHasAuth | CommitOffered                    // the salt offer
    | CommitSaving | CommitStored(past: nat) | CommitReplaced(past: nat)
    | CommitDropping(past: nat) | CommitDropped(own: nat) | CommitMinting(own: nat)
    | ResetSaving | ResetStored(past: nat) | ResetReplaced(past: nat) | ResetDropping(past: nat)
    | WebSnapshot | WebEditing(copy: nat, seen: nat) | WebSaving(copy: nat, seen: nat)
    | IdentitySnapshot | IdentityMaking(copy: nat) | IdentitySaving(copy: nat)

  datatype Session = ByLogin(version: nat) | ByCommit(version: nat)

  // `key` is the version in force, `made` the newest one; the revision does not wrap
  // around here.
  datatype State = State(
    tasks: seq<Task>, authLock: Option<nat>, cfgLock: Option<nat>,
    key: nat, made: nat, revision: nat, sessions: set<Session>)

  datatype Act =
    StartBrief(onAuth: bool) | StartLogin | StartCommit | StartReset | StartWeb | StartIdentity | Advance(ok: bool)

  datatype Step = Step(task: nat, act: Act)

  predicate HoldsAuth(t: Task) {
    t.BriefHasAuth? || t.LoginHasAuth? || t.LoginHasBoth? || t.LoginRead? || t.CommitHasAuth?
    || t.CommitDropping? || t.CommitMinting? || t.ResetDropping?
  }

  predicate HoldsCfg(t: Task) {
    t.BriefHasCfg? || t.LoginHasBoth? || t.CommitHasCfg? || t.CommitSaving? || t.CommitStored?
    || t.ResetSaving? || t.ResetStored? || t.WebSnapshot? || t.WebSaving? || t.IdentitySnapshot? || t.IdentitySaving?
  }

  function Initial(n: nat): State {
    State(seq(n, _ => Idle), None, None, 0, 0, 0, {})
  }

  function Set(s: State, i: nat, t: Task): State
    requires i < |s.tasks|
  {
    s.(tasks := s.tasks[i := t])
  }

  function TakeAuth(s: State, i: nat, t: Task): State
    requires i < |s.tasks|
  {
    if s.authLock.None? then Set(s, i, t).(authLock := Some(i)) else s
  }

  function TakeCfg(s: State, i: nat, t: Task): State
    requires i < |s.tasks|
  {
    if s.cfgLock.None? then Set(s, i, t).(cfgLock := Some(i)) else s
  }

  function GiveAuth(s: State, i: nat, t: Task): State
    requires i < |s.tasks|
  {
    Set(s, i, t).(authLock := None)
  }

  function GiveCfg(s: State, i: nat, t: Task): State
    requires i < |s.tasks|
  {
    Set(s, i, t).(cfgLock := None)
  }

  function Start(s: State, i: nat, act: Act): State
    requires i < |s.tasks| && s.tasks[i].Idle?
  {
    match act
    case StartBrief(onAuth) => if onAuth then TakeAuth(s, i, BriefHasAuth) else TakeCfg(s, i, BriefHasCfg)
    case StartLogin => TakeAuth(s, i, LoginHasAuth)
    case StartCommit => TakeCfg(s, i, CommitHasCfg)
    case StartReset => TakeCfg(s, i, ResetSaving)
    case StartWeb => TakeCfg(s, i, WebSnapshot)
    case StartIdentity => TakeCfg(s, i, IdentitySnapshot)
    case Advance(_) => s
  }

  // A new version comes into force.
  function Replaced(s: State): State {
    s.(key := s.made + 1, made := s.made + 1)
  }

  // One atomic step of a task in the middle of a call. `ok` decides what is beyond
  // this model: whether a check passes, or the save succeeds.
  function Continue(s: State, i: nat, ok: bool): State
    requires i < |s.tasks|
  {
    match s.tasks[i]
    case Idle => s
    case BriefHasAuth => GiveAuth(s, i, Idle)
    case BriefHasCfg => GiveCfg(s, i, Idle)

    case LoginHasAuth => if ok then TakeCfg(s, i, LoginHasBoth) else GiveAuth(s, i, Idle)
    case LoginHasBoth => GiveCfg(s, i, LoginRead(s.key))
    case LoginRead(v) =>
      if ok then GiveAuth(s, i, Idle).(sessions := s.sessions + {ByLogin(v)}) else GiveAuth(s, i, Idle)

    case CommitHasCfg => GiveCfg(s, i, if ok then CommitChecked else Idle)
    case CommitChecked => TakeAuth(s, i, CommitHasAuth)
    case CommitHasAuth => GiveAuth(s, i, if ok then CommitOffered else Idle)
    case CommitOffered => TakeCfg(s, i, CommitSaving)
    case CommitSaving =>
      if ok then Replaced(Set(s, i, CommitStored(s.made))).(revision := s.revision + 1) else GiveCfg(s, i, Idle)
    case CommitStored(past) => GiveCfg(s, i, CommitReplaced(past))
    case CommitReplaced(past) => TakeAuth(s, i, CommitDropping(past))
    case CommitDropping(past) => GiveAuth(s, i, CommitDropped(past + 1)).(sessions := {})
    case CommitDropped(own) => TakeAuth(s, i, CommitMinting(own))
    case CommitMinting(own) => GiveAuth(s, i, Idle).(sessions := s.sessions + {ByCommit(own)})

    // the credential is cleared in RAM whether or not the save succeeds
    case ResetSaving => Replaced(Set(s, i, ResetStored(s.made)))
    case ResetStored(past) => GiveCfg(s, i, ResetReplaced(past))
    case ResetReplaced(past) => TakeAuth(s, i, ResetDropping(past))
    case ResetDropping(_) => GiveAuth(s, i, Idle).(sessions := {})

    case WebSnapshot => GiveCfg(s, i, WebEditing(s.key, s.revision))
    case WebEditing(copy, seen) => if ok then TakeCfg(s, i, WebSaving(copy, seen)) else Set(s, i, Idle)
    case WebSaving(copy, seen) =>
      if ok && s.revision == seen then GiveCfg(s, i, Idle).(key := copy, revision := s.revision + 1)
      else GiveCfg(s, i, Idle)

    case IdentitySnapshot => GiveCfg(s, i, IdentityMaking(s.key))
    case IdentityMaking(copy) => if ok then TakeCfg(s, i, IdentitySaving(copy)) else Set(s, i, Idle)
    case IdentitySaving(copy) => if ok then GiveCfg(s, i, Idle).(key := copy) else GiveCfg(s, i, Idle)
  }

  function Next(s: State, step: Step): State {
    if step.task >= |s.tasks| then s
    else if s.tasks[step.task].Idle? then Start(s, step.task, step.act)
    else if step.act.Advance? then Continue(s, step.task, step.act.ok)
    else s
  }

  // The states of n tasks: tr[k] is the one before step k of the run.
  function Trace(n: nat, steps: seq<Step>): (tr: seq<State>)
    ensures |tr| == |steps| + 1
  {
    if steps == [] then [Initial(n)]
    else
      var before := Trace(n, steps[..|steps| - 1]);
      before + [Next(before[|before| - 1], steps[|steps| - 1])]
  }

  // The same, step by step.
  ghost predicate Traced(n: nat, steps: seq<Step>, tr: seq<State>) {
    && |tr| == |steps| + 1 && tr[0] == Initial(n)
    && forall k :: 0 <= k < |steps| ==> tr[k + 1] == Next(tr[k], steps[k])
  }

  lemma {:induction false} TraceSteps(n: nat, steps: seq<Step>)
    ensures Traced(n, steps, Trace(n, steps))
  {
    if steps != [] {
      var before := steps[..|steps| - 1];
      var tr, tr0 := Trace(n, steps), Trace(n, before);
      TraceSteps(n, before);
      forall k | 0 <= k < |steps|
        ensures tr[k + 1] == Next(tr[k], steps[k])
      {
        if k < |before| {
          assert tr[k] == tr0[k] && tr[k + 1] == tr0[k + 1] && steps[k] == before[k];
        }
      }
    }
  }

  // ------------------------------------------------- invariants

  // Each lock is held by the one task that stands where it is held.
  ghost predicate LocksOk(s: State) {
    Owned(s.authLock, AuthHolders(s)) && Owned(s.cfgLock, CfgHolders(s))
  }

  // The task holds a copy of the configuration that it may write back.
  predicate Copying(t: Task) {
    t.WebEditing? || t.WebSaving? || t.IdentityMaking? || t.IdentitySaving?
  }

  // A task's memory of the key versions lies in the past.
  predicate Recalls(t: Task, made: nat) {
    && (t.LoginRead? ==> t.version <= made)
    && (t.CommitStored? || t.CommitReplaced? || t.CommitDropping? ==> t.past < made)
    && (t.ResetStored? || t.ResetReplaced? || t.ResetDropping? ==> t.past < made)
    && (t.CommitDropped? || t.CommitMinting? ==> t.own <= made)
    && (Copying(t) ==> t.copy <= made)
  }

  ghost predicate RecallsOk(s: State) {
    s.key <= s.made && forall i :: 0 <= i < |s.tasks| ==> Recalls(s.tasks[i], s.made)
  }

  ghost predicate Inv(s: State) {
    LocksOk(s) && RecallsOk(s)
  }

  // The task has replaced the key and not yet dropped the sessions.
  predicate Pending(t: Task) {
    t.CommitStored? || t.CommitReplaced? || t.CommitDropping? || t.ResetStored? || t.ResetReplaced? || t.ResetDropping?
  }

  // The task has replaced the key and is not done with its operation.
  predicate Changing(t: Task) {
    Pending(t) || t.CommitDropped? || t.CommitMinting?
  }

  // The version that the task put in force.
  function Own(t: Task): nat
    requires Changing(t)
  {
    if Pending(t) then t.past + 1 else t.own
  }

  // What a step can do to one lock and its own task's hold on it.
  predicate LockMove(i: nat, before: Option<nat>, after: Option<nat>, held: bool, holds: bool) {
    || (after == before && holds == held)
    || (before.None? && after == Some(i) && holds)
    || (held && after.None? && !holds)
  }

  // What a step from t to u can do to the key: nothing, replace it, or restore a copy.
  predicate KeyMove(s: State, t: Task, u: Task, after: State) {
    && s.revision <= after.revision
    && (|| (after.key == s.key && after.made == s.made)
        || (after.key == after.made == s.made + 1 && Pending(u) && Own(u) == after.made && !Changing(t)
            && (after.revision == s.revision + 1 || InReset(u)))
        || (t.WebSaving? && t.seen == s.revision && after.key == t.copy && after.made == s.made
            && after.revision == s.revision + 1)
        || (t.IdentitySaving? && after.key == t.copy && after.made == s.made))
  }

  // The task takes its copy of the configuration,
  predicate Copies(s: State, t: Task, u: Task) {
    (t.WebSnapshot? && u == WebEditing(s.key, s.revision)) || (t.IdentitySnapshot? && u == IdentityMaking(s.key))
  }

  // or goes on with it.
  predicate Carries(t: Task, u: Task)
    requires Copying(t) && Copying(u)
  {
    && u.copy == t.copy
    && (u.WebEditing? || u.WebSaving? ==> (t.WebEditing? || t.WebSaving?) && u.seen == t.seen)
  }

  // Everything a step of task i can change, apart from the order of its positions.
  ghost predicate Shape(s: State, i: nat, after: State)
    requires i < |s.tasks|
  {
    && |after.tasks| == |s.tasks| && after.tasks == s.tasks[i := after.tasks[i]]
    && var t, u := s.tasks[i], after.tasks[i];
       && LockMove(i, s.authLock, after.authLock, HoldsAuth(t), HoldsAuth(u))
       && LockMove(i, s.cfgLock, after.cfgLock, HoldsCfg(t), HoldsCfg(u))
       && KeyMove(s, t, u, after)
       && (s.key <= s.made && Recalls(t, s.made) ==> Recalls(u, after.made))
       && (InReset(u) ==> InReset(t) || t.Idle?)
       && (u.LoginRead? ==> u == t || (u.version == s.key && !t.LoginRead?))
       && (Pending(t) && !Pending(u) ==> after.sessions == {} && HoldsAuth(t) && !u.LoginRead?)
       && (Changing(u) ==> after.made != s.made || (Changing(t) && Own(u) == Own(t)))
       && (Copying(u) ==> Copies(s, t, u) || (Copying(t) && Carries(t, u)))
       && (after.sessions <= s.sessions
           || (t.LoginRead? && after.sessions == s.sessions + {ByLogin(t.version)})
           || (t.CommitMinting? && after.sessions == s.sessions + {ByCommit(t.own)}))
  }

  predicate TakesAuthFirst(act: Act) {
    act.StartLogin? || (act.StartBrief? && act.onAuth)
  }

  lemma StartOnAuth(s: State, i: nat, act: Act)
    requires i < |s.tasks| && s.tasks[i].Idle? && TakesAuthFirst(act)
    ensures Shape(s, i, Start(s, i, act))
  {
    assert s.tasks == s.tasks[i := s.tasks[i]];
  }

  lemma StartOnCfg(s: State, i: nat, act: Act)
    requires i < |s.tasks| && s.tasks[i].Idle? && !TakesAuthFirst(act)
    ensures Shape(s, i, Start(s, i, act))
  {
    assert s.tasks == s.tasks[i := s.tasks[i]];
  }

  lemma StartShape(s: State, i: nat, act: Act)
    requires i < |s.tasks| && s.tasks[i].Idle?
    ensures Shape(s, i, Start(s, i, act))
  {
    if TakesAuthFirst(act) {
      StartOnAuth(s, i, act);
    } else {
      StartOnCfg(s, i, act);
    }
  }

  predicate InChange(t: Task) {
    t.CommitSaving? || t.ResetSaving? || Changing(t)
  }

  predicate InCopy(t: Task) {
    t.WebSnapshot? || t.IdentitySnapshot? || Copying(t)
  }

  lemma CopyShape(s: State, i: nat, ok: bool)
    requires i < |s.tasks| && InCopy(s.tasks[i])
    ensures Shape(s, i, Continue(s, i, ok))
  {
    assert s.tasks == s.tasks[i := s.tasks[i]];
  }

  predicate InLogin(t: Task) {
    t.LoginHasAuth? || t.LoginHasBoth? || t.LoginRead?
  }

  lemma LoginShape(s: State, i: nat, ok: bool)
    requires i < |s.tasks| && InLogin(s.tasks[i])
    ensures Shape(s, i, Continue(s, i, ok))
  {
    assert s.tasks == s.tasks[i := s.tasks[i]];
  }

  lemma CallShape(s: State, i: nat, ok: bool)
    requires i < |s.tasks| && !InChange(s.tasks[i]) && !InCopy(s.tasks[i]) && !InLogin(s.tasks[i])
    ensures Shape(s, i, Continue(s, i, ok))
  {
    assert s.tasks == s.tasks[i := s.tasks[i]];
  }

  predicate InReset(t: Task) {
    t.ResetSaving? || t.ResetStored? || t.ResetReplaced? || t.ResetDropping?
  }

  lemma ChangeShape(s: State, i: nat, ok: bool)
    requires i < |s.tasks| && InChange(s.tasks[i]) && !InReset(s.tasks[i])
    ensures Shape(s, i, Continue(s, i, ok))
  {
    assert s.tasks == s.tasks[i := s.tasks[i]];
  }

  lemma ResetShape(s: State, i: nat, ok: bool)
    requires i < |s.tasks| && InReset(s.tasks[i])
    ensures Shape(s, i, Continue(s, i, ok))
  {
    assert s.tasks == s.tasks[i := s.tasks[i]];
  }

  lemma NextShape(s: State, step: Step)
    requires step.task < |s.tasks|
    ensures Shape(s, step.task, Next(s, step))
  {
    assert s.tasks == s.tasks[step.task := s.tasks[step.task]];
    if s.tasks[step.task].Idle? {
      StartShape(s, step.task, step.act);
    } else if step.act.Advance? {
      if InReset(s.tasks[step.task]) {
        ResetShape(s, step.task, step.act.ok);
      } else if InChange(s.tasks[step.task]) {
        ChangeShape(s, step.task, step.act.ok);
      } else if InCopy(s.tasks[step.task]) {
        CopyShape(s, step.task, step.act.ok);
      } else if InLogin(s.tasks[step.task]) {
        LoginShape(s, step.task, step.act.ok);
      } else {
        CallShape(s, step.task, step.act.ok);
      }
    }
  }

  ghost predicate Owned(lock: Option<nat>, holds: seq<bool>) {
    && (forall i :: 0 <= i < |holds| ==> (holds[i] <==> lock == Some(i)))
    && (lock.Some? ==> lock.value < |holds|)
  }

  lemma LockMoves(i: nat, before: Option<nat>, after: Option<nat>, held: seq<bool>, holds: bool)
    requires i < |held| && Owned(before, held) && LockMove(i, before, after, held[i], holds)
    ensures Owned(after, held[i := holds])
  {
    var now := held[i := holds];
    forall j | 0 <= j < |now|
      ensures now[j] <==> after == Some(j)
    {
      assert j != i ==> now[j] == held[j];
    }
  }

  function AuthHolders(s: State): seq<bool> {
    seq(|s.tasks|, i requires 0 <= i < |s.tasks| => HoldsAuth(s.tasks[i]))
  }

  function CfgHolders(s: State): seq<bool> {
    seq(|s.tasks|, i requires 0 <= i < |s.tasks| => HoldsCfg(s.tasks[i]))
  }

  lemma LocksStep(s: State, step: Step)
    requires LocksOk(s) && step.task < |s.tasks|
    ensures LocksOk(Next(s, step))
  {
    var i, after := step.task, Next(s, step);
    NextShape(s, step);
    LockMoves(i, s.authLock, after.authLock, AuthHolders(s), HoldsAuth(after.tasks[i]));
    LockMoves(i, s.cfgLock, after.cfgLock, CfgHolders(s), HoldsCfg(after.tasks[i]));
    assert AuthHolders(after) == AuthHolders(s)[i := HoldsAuth(after.tasks[i])];
    assert CfgHolders(after) == CfgHolders(s)[i := HoldsCfg(after.tasks[i])];
  }

  lemma RecallsStep(s: State, step: Step)
    requires Inv(s) && step.task < |s.tasks|
    ensures RecallsOk(Next(s, step))
  {
    NextShape(s, step);
    forall j | 0 <= j < |s.tasks|
      ensures Recalls(Next(s, step).tasks[j], Next(s, step).made)
    {
      assert Recalls(s.tasks[j], s.made);
    }
  }

  lemma InvStep(s: State, step: Step)
    requires Inv(s)
    ensures Inv(Next(s, step)) && |Next(s, step).tasks| == |s.tasks|
  {
    if step.task < |s.tasks| {
      LocksStep(s, step);
      RecallsStep(s, step);
      NextShape(s, step);
    }
  }

  // All that the theorems below need to know of one step.
  ghost predicate Moves(s: State, step: Step, after: State) {
    && Inv(s) && Inv(after) && |after.tasks| == |s.tasks|
    && (after == s || (step.task < |s.tasks| && Shape(s, step.task, after)))
    && (after != s ==> s.tasks[step.task].Idle? || step.act.Advance?)
    && (Writes(s, step) ==> after.key == s.tasks[step.task].copy)
    && (after.key < s.key ==> Writes(s, step))
  }

  // The step writes back the copy that its task holds.
  predicate Writes(s: State, step: Step) {
    && step.task < |s.tasks| && step.act.Advance? && step.act.ok
    && var t := s.tasks[step.task]; (t.WebSaving? && t.seen == s.revision) || t.IdentitySaving?
  }

  lemma WritesItsCopy(s: State, step: Step)
    requires Inv(s)
    ensures Writes(s, step) ==> Next(s, step).key == s.tasks[step.task].copy
    ensures Next(s, step).key < s.key ==> Writes(s, step)
  {
  }

  lemma NextMoves(s: State, step: Step) returns (after: State)
    requires Inv(s)
    ensures after == Next(s, step) && Moves(s, step, after)
  {
    InvStep(s, step);
    WritesItsCopy(s, step);
    after := Next(s, step);
    if step.task < |s.tasks| {
      NextShape(s, step);
    }
  }

  ghost predicate Chained(steps: seq<Step>, tr: seq<State>) {
    && |tr| == |steps| + 1 && Inv(tr[|steps|])
    && forall k :: 0 <= k < |steps| ==> Moves(tr[k], steps[k], tr[k + 1])
  }

  // Each lock is held by exactly the task that stands where it is held, and key
  // versions that a task remembers lie in the past: in every state of every run.
  lemma {:induction false} RunKeepsInv(n: nat, steps: seq<Step>)
    ensures Chained(steps, Trace(n, steps)) && Trace(n, steps)[0] == Initial(n)
    ensures forall k :: 0 <= k <= |steps| ==> Inv(Trace(n, steps)[k]) && |Trace(n, steps)[k].tasks| == n
  {
    if steps != [] {
      var before, step := steps[..|steps| - 1], steps[|steps| - 1];
      RunKeepsInv(n, before);
      var after := NextMoves(Trace(n, before)[|before|], step);
      ChainedSnoc(before, Trace(n, before), step, after);
      assert steps == before + [step];
    }
  }

  lemma ChainedSnoc(steps: seq<Step>, tr: seq<State>, step: Step, after: State)
    requires Chained(steps, tr) && Moves(tr[|steps|], step, after)
    ensures Chained(steps + [step], tr + [after])
  {
    var steps', tr' := steps + [step], tr + [after];
    forall k | 0 <= k < |steps'|
      ensures Moves(tr'[k], steps'[k], tr'[k + 1])
    {
      assert k < |steps| ==> tr'[k] == tr[k] && tr'[k + 1] == tr[k + 1] && steps'[k] == steps[k];
    }
  }

  // ------------------------------------------------- the replaced key

  // Version `past` is retired: it is not in force, no login session of it is live,
  // and no login that may still mint one has read it.
  ghost predicate Retired(s: State, past: nat) {
    && past < s.key
    && (forall v: nat :: ByLogin(v) in s.sessions ==> v > past)
    && (forall i :: 0 <= i < |s.tasks| && s.tasks[i].LoginRead? ==> s.tasks[i].version > past)
  }

  // The step by which an operation that replaced version `past` drops the sessions.
  predicate Drops(s: State, step: Step, past: nat) {
    && step.task < |s.tasks| && step.act.Advance?
    && (s.tasks[step.task] == CommitDropping(past) || s.tasks[step.task] == ResetDropping(past))
  }

  lemma StaysRetired(s: State, step: Step, after: State, past: nat)
    requires Moves(s, step, after) && Retired(s, past) && past < after.key
    ensures Retired(after, past)
  {
    if after != s {
      assert forall j :: 0 <= j < |s.tasks| && j != step.task ==> s.tasks[j] == after.tasks[j];
    }
  }

  ghost predicate NobodyRead(s: State) {
    forall i :: 0 <= i < |s.tasks| ==> !s.tasks[i].LoginRead?
  }

  lemma DropClears(s: State, step: Step, past: nat)
    requires Inv(s) && Drops(s, step, past)
    ensures past < s.made && Next(s, step) != s && Next(s, step).sessions == {} && Next(s, step).key == s.key
    ensures NobodyRead(Next(s, step))
  {
    assert Recalls(s.tasks[step.task], s.made);
    assert AuthHolders(s)[step.task];
    assert Next(s, step).tasks[step.task] != s.tasks[step.task];
    forall i | 0 <= i < |s.tasks| && i != step.task
      ensures !s.tasks[i].LoginRead?
    {
      assert !AuthHolders(s)[i];
    }
  }

  // The steps of a trace that drop, and what they leave.
  ghost predicate Dropping(steps: seq<Step>, tr: seq<State>) {
    && Chained(steps, tr)
    && forall k, past: nat :: 0 <= k < |steps| && Drops(tr[k], steps[k], past) ==>
         past < tr[k].made && tr[k + 1].sessions == {} && tr[k + 1].key == tr[k].key && NobodyRead(tr[k + 1])
  }

  lemma RunDrops(n: nat, steps: seq<Step>)
    ensures Dropping(steps, Trace(n, steps))
  {
    var tr := Trace(n, steps);
    RunKeepsInv(n, steps);
    forall k, past: nat | 0 <= k < |steps| && Drops(tr[k], steps[k], past)
      ensures past < tr[k].made && tr[k + 1].sessions == {} && tr[k + 1].key == tr[k].key && NobodyRead(tr[k + 1])
    {
      TraceSteps(n, steps);
      DropClears(tr[k], steps[k], past);
    }
  }

  lemma {:induction false} DeadWhileReplaced(steps: seq<Step>, tr: seq<State>, k: nat, past: nat, j: nat)
    requires Dropping(steps, tr) && k < j <= |steps| && Drops(tr[k], steps[k], past)
    requires forall l :: k <= l <= j ==> past < tr[l].key
    ensures Retired(tr[j], past)
  {
    if j > k + 1 {
      DeadWhileReplaced(steps, tr, k, past, j - 1);
      StaysRetired(tr[j - 1], steps[j - 1], tr[j], past);
    }
  }

  // However logins, password changes, auth resets, web saves and identity resets
  // interleave: after the drop of an operation that replaced a key, no session is
  // live that a login verified against that key or an earlier one, and none can come
  // to be, exactly until a copy with such a key is written back.
  lemma ReplacedKeyIsDead(n: nat, steps: seq<Step>, tr: seq<State>, k: nat, past: nat, j: nat)
    requires tr == Trace(n, steps) && k < j <= |steps| && Drops(tr[k], steps[k], past)
    ensures (forall l :: k < l <= j ==> Retired(tr[l], past)) <==> (forall l :: k <= l <= j ==> past < tr[l].key)
  {
    RunDrops(n, steps);
    if forall l :: k <= l <= j ==> past < tr[l].key {
      forall l | k < l <= j
        ensures Retired(tr[l], past)
      {
        DeadWhileReplaced(steps, tr, k, past, l);
      }
    }
    if forall l :: k < l <= j ==> Retired(tr[l], past) {
      assert Retired(tr[k + 1], past);
    }
  }

  // The step lowers the key in force.
  predicate Restores(s: State, after: State) {
    after.key < s.key
  }

  ghost predicate NoneRestores(tr: seq<State>, k: nat)
    requires k < |tr|
  {
    forall j :: 0 <= j < k ==> !Restores(tr[j], tr[j + 1])
  }

  // The step by which a task takes its copy.
  predicate Takes(s: State, step: Step) {
    && step.task < |s.tasks| && step.act.Advance?
    && (s.tasks[step.task].WebSnapshot? || s.tasks[step.task].IdentitySnapshot?)
  }

  // From state j on, up to state l, task i holds a copy.
  ghost predicate Holds(tr: seq<State>, i: nat, j: nat, l: nat)
    requires l < |tr|
  {
    forall x :: j < x <= l ==> i < |tr[x].tasks| && Copying(tr[x].tasks[i])
  }

  // Step l writes back the copy that its task took in step j, and in between, in step
  // m, the key was replaced.
  ghost predicate Spans(steps: seq<Step>, tr: seq<State>, j: nat, m: nat, l: nat)
    requires |tr| == |steps| + 1
  {
    && j < m < l < |steps| && steps[j].task == steps[l].task
    && Takes(tr[j], steps[j]) && Holds(tr, steps[l].task, j, l) && Writes(tr[l], steps[l])
    && tr[m].made < tr[m + 1].made
  }

  // Task t holds the copy that a task u took in state s.
  predicate CopyOf(t: Task, s: State, u: Task) {
    && Copying(t) && t.copy == s.key
    && (t.WebEditing? || t.WebSaving? ==> u.WebSnapshot? && t.seen == s.revision)
  }

  predicate CarriedOrTaken(s: State, step: Step, after: State, i: nat)
    requires i < |s.tasks| == |after.tasks| && Copying(after.tasks[i])
  {
    || (Copying(s.tasks[i]) && Carries(s.tasks[i], after.tasks[i]))
    || (step.task == i && Takes(s, step) && CopyOf(after.tasks[i], s, s.tasks[i]))
  }

  lemma CopyStep(s: State, step: Step, after: State, i: nat)
    requires Moves(s, step, after) && i < |s.tasks| && Copying(after.tasks[i])
    ensures CarriedOrTaken(s, step, after, i)
  {
    if after != s && step.task != i {
      assert after.tasks[i] == s.tasks[i];
    }
  }

  // Whoever holds a copy in a state has carried it there or just taken it.
  predicate KnowsCopy(steps: seq<Step>, tr: seq<State>, k: nat, i: nat) {
    && 0 < k <= |steps| < |tr| && i < |tr[k - 1].tasks| == |tr[k].tasks|
    && (Copying(tr[k].tasks[i]) ==> CarriedOrTaken(tr[k - 1], steps[k - 1], tr[k], i))
  }

  ghost predicate CopiesKnown(n: nat, steps: seq<Step>, tr: seq<State>) {
    && |tr| == |steps| + 1 && |tr[0].tasks| == n
    && (forall i :: 0 <= i < n ==> !Copying(tr[0].tasks[i]))
    && forall k, i :: 0 < k <= |steps| && 0 <= i < n ==> KnowsCopy(steps, tr, k, i)
  }

  lemma RunKnowsCopies(n: nat, steps: seq<Step>)
    ensures CopiesKnown(n, steps, Trace(n, steps))
  {
    var tr := Trace(n, steps);
    RunKeepsInv(n, steps);
    forall k, i | 0 < k <= |steps| && 0 <= i < n
      ensures KnowsCopy(steps, tr, k, i)
    {
      assert Moves(tr[k - 1], steps[k - 1], tr[k - 1 + 1]);
      if Copying(tr[k].tasks[i]) {
        CopyStep(tr[k - 1], steps[k - 1], tr[k], i);
      }
    }
  }

  lemma {:induction false} CopyWasTaken(n: nat, steps: seq<Step>, tr: seq<State>, l: nat, i: nat) returns (j: nat)
    requires CopiesKnown(n, steps, tr) && l <= |steps| && i < n && i < |tr[l].tasks| && Copying(tr[l].tasks[i])
    ensures j < l && steps[j].task == i && Takes(tr[j], steps[j]) && Holds(tr, i, j, l)
    ensures CopyOf(tr[l].tasks[i], tr[j], tr[j].tasks[i])
  {
    assert KnowsCopy(steps, tr, l, i);
    if Copying(tr[l - 1].tasks[i]) && Carries(tr[l - 1].tasks[i], tr[l].tasks[i]) {
      j := CopyWasTaken(n, steps, tr, l - 1, i);
    } else {
      j := l - 1;
    }
  }

  lemma {:induction false} HeldSinceTaken(n: nat, steps: seq<Step>, tr: seq<State>, i: nat, j: nat, x: nat)
    requires CopiesKnown(n, steps, tr) && j < x <= |steps| && i < n
    requires steps[j].task == i && Takes(tr[j], steps[j]) && Holds(tr, i, j, x)
    ensures CopyOf(tr[x].tasks[i], tr[j], tr[j].tasks[i])
  {
    assert KnowsCopy(steps, tr, x, i);
    if x > j + 1 {
      HeldSinceTaken(n, steps, tr, i, j, x - 1);
    }
  }

  lemma {:induction false} ReplacedBetween(steps: seq<Step>, tr: seq<State>, j: nat, l: nat) returns (m: nat)
    requires |tr| == |steps| + 1 && j <= l <= |steps| && tr[j].made < tr[l].made
    ensures j <= m < l && tr[m].made < tr[m + 1].made
    decreases l
  {
    if tr[l - 1].made < tr[l].made {
      m := l - 1;
    } else {
      m := ReplacedBetween(steps, tr, j, l - 1);
    }
  }

  // The first write-back that restores a key spans a replacement,
  lemma RestoringSpans(n: nat, steps: seq<Step>, tr: seq<State>, l: nat) returns (j: nat, m: nat)
    requires Chained(steps, tr) && tr[0].key == tr[0].made && CopiesKnown(n, steps, tr)
    requires l < |steps| && |tr[l].tasks| == n && NoneRestores(tr, l) && Restores(tr[l], tr[l + 1])
    ensures Spans(steps, tr, j, m, l)
  {
    assert Moves(tr[l], steps[l], tr[l + 1]);
    j := CopyWasTaken(n, steps, tr, l, steps[l].task);
    NewestUnlessRestored(steps, tr, j);
    NewestUnlessRestored(steps, tr, l);
    m := ReplacedBetween(steps, tr, j, l);
    assert Moves(tr[j], steps[j], tr[j + 1]);
  }

  // and as long as none does, one that spans a replacement would.
  lemma SpanRestores(n: nat, steps: seq<Step>, tr: seq<State>, j: nat, m: nat, l: nat)
    requires Chained(steps, tr) && tr[0].key == tr[0].made && CopiesKnown(n, steps, tr)
    requires Spans(steps, tr, j, m, l) && steps[l].task < n && NoneRestores(tr, l)
    ensures Restores(tr[l], tr[l + 1])
  {
    HeldSinceTaken(n, steps, tr, steps[l].task, j, l);
    NewestUnlessRestored(steps, tr, j);
    NewestUnlessRestored(steps, tr, l);
    MadeGrows(steps, tr, j, m);
    MadeGrows(steps, tr, m + 1, l);
    assert Moves(tr[l], steps[l], tr[l + 1]);
  }

  ghost predicate NoSpan(steps: seq<Step>, tr: seq<State>)
    requires |tr| == |steps| + 1
  {
    forall j, m, l :: !Spans(steps, tr, j, m, l)
  }

  lemma {:induction false} FirstRestore(tr: seq<State>, k: nat) returns (l: nat)
    requires k < |tr| && !NoneRestores(tr, k)
    ensures l < k && NoneRestores(tr, l) && Restores(tr[l], tr[l + 1])
  {
    if NoneRestores(tr, k - 1) {
      l := k - 1;
    } else {
      l := FirstRestore(tr, k - 1);
    }
  }

  // An older key comes in force again if and only if a web request or an identity
  // worker writes back a copy that it took before a replacement of the key.
  lemma RestoredExactly(n: nat, steps: seq<Step>, tr: seq<State>)
    requires tr == Trace(n, steps)
    ensures NoneRestores(tr, |steps|) <==> NoSpan(steps, tr)
  {
    RunKeepsInv(n, steps);
    RunKnowsCopies(n, steps);
    if !NoneRestores(tr, |steps|) {
      var l := FirstRestore(tr, |steps|);
      var j, m := RestoringSpans(n, steps, tr, l);
    } else if j: nat, m: nat, l: nat :| Spans(steps, tr, j, m, l) {
      SpanRestores(n, steps, tr, j, m, l);
    }
  }

  // A web save undoes auth resets only: a password change counts a revision, so that
  // a request with an older key is refused as stale.
  lemma OnlyResetsAreUndone(n: nat, steps: seq<Step>, tr: seq<State>, j: nat, m: nat, l: nat)
    requires tr == Trace(n, steps) && Spans(steps, tr, j, m, l) && tr[l].tasks[steps[l].task].WebSaving?
    ensures steps[m].task < |tr[m + 1].tasks| && InReset(tr[m + 1].tasks[steps[m].task])
    ensures exists x :: 0 <= x <= m && steps[x] == Step(steps[m].task, StartReset)
  {
    RunKeepsInv(n, steps);
    RunKnowsCopies(n, steps);
    HeldSinceTaken(n, steps, tr, steps[l].task, j, l);
    RevisionGrows(steps, tr, j, m);
    RevisionGrows(steps, tr, m + 1, l);
    assert Moves(tr[m], steps[m], tr[m + 1]);
    ResetWasStarted(n, steps, tr, m + 1, steps[m].task);
  }

  lemma {:induction false} ResetWasStarted(n: nat, steps: seq<Step>, tr: seq<State>, k: nat, i: nat)
    requires tr == Trace(n, steps) && k <= |steps| && i < |tr[k].tasks| && InReset(tr[k].tasks[i])
    ensures exists x :: 0 <= x < k && steps[x] == Step(i, StartReset)
  {
    RunKeepsInv(n, steps);
    if k < |steps| {
      var before := steps[..|steps| - 1];
      ResetWasStarted(n, before, Trace(n, before), k, i);
      var x :| 0 <= x < k && before[x] == Step(i, StartReset);
      assert steps[x] == Step(i, StartReset);
    } else if InReset(tr[k - 1].tasks[i]) {
      ResetWasStarted(n, steps[..k - 1], Trace(n, steps[..k - 1]), k - 1, i);
      var x :| 0 <= x < k - 1 && steps[..k - 1][x] == Step(i, StartReset);
      assert steps[x] == Step(i, StartReset);
    } else {
      StartsReset(tr[k - 1], steps[k - 1], i);
      assert steps[k - 1] == Step(i, StartReset);
    }
  }

  lemma StartsReset(s: State, step: Step, i: nat)
    requires i < |s.tasks| && !InReset(s.tasks[i]) && i < |Next(s, step).tasks| && InReset(Next(s, step).tasks[i])
    ensures step == Step(i, StartReset)
  {
    if step.task < |s.tasks| {
      NextShape(s, step);
    }
  }

  lemma {:induction false} RevisionGrows(steps: seq<Step>, tr: seq<State>, j: nat, k: nat)
    requires Chained(steps, tr) && j <= k <= |steps|
    ensures tr[j].revision <= tr[k].revision
    decreases k - j
  {
    if j < k {
      RevisionGrows(steps, tr, j, k - 1);
      assert Moves(tr[k - 1], steps[k - 1], tr[k]);
    }
  }

  lemma {:induction false} MadeGrows(steps: seq<Step>, tr: seq<State>, j: nat, k: nat)
    requires Chained(steps, tr) && j <= k <= |steps|
    ensures tr[j].made <= tr[k].made
    decreases k - j
  {
    if j < k {
      MadeGrows(steps, tr, j, k - 1);
      assert Moves(tr[k - 1], steps[k - 1], tr[k]);
    }
  }

  // The key in force is the newest as long as none is restored.
  lemma {:induction false} NewestUnlessRestored(steps: seq<Step>, tr: seq<State>, k: nat)
    requires Chained(steps, tr) && tr[0].key == tr[0].made && k <= |steps| && NoneRestores(tr, k)
    ensures tr[k].key == tr[k].made
  {
    if k > 0 {
      NewestUnlessRestored(steps, tr, k - 1);
      NewestStep(tr[k - 1], steps[k - 1], tr[k]);
    }
  }

  lemma NewestStep(s: State, step: Step, after: State)
    requires Moves(s, step, after) && !Restores(s, after) && s.key == s.made
    ensures after.key == after.made
  {
    if after != s {
      assert Recalls(s.tasks[step.task], s.made);
    }
  }

  // ------------------------------------------------- all sessions current

  ghost predicate Quiet(s: State) {
    forall i :: 0 <= i < |s.tasks| ==> !Pending(s.tasks[i])
  }

  ghost predicate LoginsCurrent(s: State) {
    && (forall v: nat :: ByLogin(v) in s.sessions ==> v == s.key)
    && (forall i :: 0 <= i < |s.tasks| && s.tasks[i].LoginRead? ==> s.tasks[i].version == s.key)
  }

  lemma QuietStep(s: State, i: nat, after: State)
    requires Inv(s) && (Quiet(s) ==> LoginsCurrent(s)) && s.key == s.made && after.key == after.made
    requires i < |s.tasks| && Shape(s, i, after) && Quiet(after)
    ensures LoginsCurrent(after)
  {
    assert forall j :: 0 <= j < |s.tasks| && j != i ==> s.tasks[j] == after.tasks[j];
    if Pending(s.tasks[i]) {
      assert AuthHolders(s)[i];
      forall j | 0 <= j < |s.tasks| && j != i
        ensures !s.tasks[j].LoginRead?
      {
        assert !AuthHolders(s)[j];
      }
    } else {
      assert forall j :: 0 <= j < |s.tasks| ==> !Pending(s.tasks[j]);
    }
  }

  lemma {:induction false} QuietInTrace(steps: seq<Step>, tr: seq<State>, k: nat)
    requires Chained(steps, tr) && tr[0].key == tr[0].made && LoginsCurrent(tr[0])
    requires k <= |steps| && Quiet(tr[k]) && NoneRestores(tr, k)
    ensures LoginsCurrent(tr[k])
  {
    if k > 0 {
      NewestUnlessRestored(steps, tr, k - 1);
      NewestUnlessRestored(steps, tr, k);
      if Quiet(tr[k - 1]) {
        QuietInTrace(steps, tr, k - 1);
      }
      assert Moves(tr[k - 1], steps[k - 1], tr[k]);
      if tr[k] != tr[k - 1] {
        QuietStep(tr[k - 1], steps[k - 1].task, tr[k]);
      }
    }
  }

  // Whenever no replacement waits for its drop, and no older key was restored,
  // every live login session was verified against the key in force.
  lemma QuietMeansCurrent(n: nat, steps: seq<Step>, tr: seq<State>, k: nat)
    requires tr == Trace(n, steps) && k <= |steps| && Quiet(tr[k]) && NoneRestores(tr, k)
    ensures LoginsCurrent(tr[k])
  {
    RunKeepsInv(n, steps);
    QuietInTrace(steps, tr, k);
  }

  // ------------------------------------------------- the changer's own session

  // The step by which a password change opens the session of its caller.
  predicate Opens(s: State, step: Step, v: nat) {
    step.task < |s.tasks| && step.act.Advance? && s.tasks[step.task] == CommitMinting(v)
  }

  // No step from m to k drops the sessions.
  ghost predicate NoDropBetween(steps: seq<Step>, tr: seq<State>, m: nat, k: nat)
    requires k <= |steps| < |tr|
  {
    forall j, past: nat :: m <= j < k ==> !Drops(tr[j], steps[j], past)
  }

  lemma NewlyOpened(s: State, step: Step, after: State, v: nat)
    requires Moves(s, step, after) && ByCommit(v) !in s.sessions && ByCommit(v) in after.sessions
    ensures Opens(s, step, v)
  {
  }

  // A live session of a password change was opened, and nothing was dropped since.
  lemma {:induction false} LiveWasOpened(steps: seq<Step>, tr: seq<State>, k: nat, v: nat) returns (m: nat)
    requires Dropping(steps, tr) && tr[0].sessions == {} && k <= |steps| && ByCommit(v) in tr[k].sessions
    ensures m < k && Opens(tr[m], steps[m], v) && NoDropBetween(steps, tr, m, k)
  {
    if ByCommit(v) in tr[k - 1].sessions {
      m := LiveWasOpened(steps, tr, k - 1, v);
    } else {
      m := k - 1;
      NewlyOpened(tr[m], steps[m], tr[k], v);
    }
    NoDropSince(steps, tr, m, k);
  }

  lemma NoDropSince(steps: seq<Step>, tr: seq<State>, m: nat, k: nat)
    requires Dropping(steps, tr) && m < k <= |steps| && tr[k].sessions != {} && NoDropBetween(steps, tr, m, k - 1)
    ensures NoDropBetween(steps, tr, m, k)
  {
    forall j, past: nat | m <= j < k
      ensures !Drops(tr[j], steps[j], past)
    {
      assert j < k - 1 || j == k - 1;
    }
  }

  // The operation that replaced version w still waits for its drop.
  ghost predicate Awaits(s: State, w: nat) {
    exists i :: 0 <= i < |s.tasks| && Pending(s.tasks[i]) && s.tasks[i].past == w
  }

  // An operation that replaced version w has dropped the sessions before state k.
  ghost predicate Dropped(steps: seq<Step>, tr: seq<State>, k: nat, w: nat)
    requires k <= |steps| < |tr|
  {
    exists j :: 0 <= j < k && Drops(tr[j], steps[j], w)
  }

  // A waiting operation goes on waiting, or the step is its drop.
  lemma AwaitsOrDrops(s: State, step: Step, after: State, w: nat)
    requires Moves(s, step, after) && Awaits(s, w)
    ensures Awaits(after, w) || Drops(s, step, w)
  {
    if after != s {
      var i := step.task;
      var j :| 0 <= j < |s.tasks| && Pending(s.tasks[j]) && s.tasks[j].past == w;
      if j != i {
        assert after.tasks[j] == s.tasks[j];
      } else if Pending(after.tasks[i]) {
        assert after.tasks[i].past == w;
      }
    }
  }

  lemma NewestAwaits(s: State, step: Step, after: State)
    requires Moves(s, step, after) && s.made < after.made
    ensures after.made == s.made + 1 && Awaits(after, s.made)
  {
    assert Pending(after.tasks[step.task]) && after.tasks[step.task].past == s.made;
  }

  // Every version but the newest has been dropped, or is about to be.
  lemma {:induction false} ReplacedIsDropped(steps: seq<Step>, tr: seq<State>, k: nat, w: nat)
    requires Chained(steps, tr) && tr[0].made == 0 && k <= |steps| && w < tr[k].made
    ensures Awaits(tr[k], w) || Dropped(steps, tr, k, w)
  {
    assert k > 0;
    assert Moves(tr[k - 1], steps[k - 1], tr[k]);
    if tr[k - 1].made < tr[k].made {
      NewestAwaits(tr[k - 1], steps[k - 1], tr[k]);
    }
    if w < tr[k - 1].made {
      ReplacedIsDropped(steps, tr, k - 1, w);
      if Awaits(tr[k - 1], w) {
        AwaitsOrDrops(tr[k - 1], steps[k - 1], tr[k], w);
      }
    }
  }

  lemma StaleInTrace(steps: seq<Step>, tr: seq<State>, m: nat, k: nat, v: nat)
    requires Dropping(steps, tr) && tr[0].made == 0 && m <= k <= |steps| && Quiet(tr[k])
    requires NoDropBetween(steps, tr, m, k)
    ensures v < tr[k].made <==> exists w: nat :: w >= v && Dropped(steps, tr, m, w)
  {
    if v < tr[k].made {
      ReplacedIsDropped(steps, tr, k, v);
      assert !Awaits(tr[k], v);
      var j :| 0 <= j < k && Drops(tr[j], steps[j], v);
      assert j < m;
      assert Dropped(steps, tr, m, v);
    }
    if w: nat :| w >= v && Dropped(steps, tr, m, w) {
      var j :| 0 <= j < m && Drops(tr[j], steps[j], w);
      MadeGrows(steps, tr, j, k);
    }
  }

  // In a quiet state the session that a password change opened for its caller is of
  // a key that has been replaced since if and only if an operation that replaced this
  // key or a later one had dropped the sessions already before that session was
  // opened. (Replaced is measured by the versions made: such a key may have been put
  // in force again by a write-back, see RestoredExactly.)
  lemma StaleExactly(n: nat, steps: seq<Step>, tr: seq<State>, k: nat, v: nat) returns (m: nat)
    requires tr == Trace(n, steps) && k <= |steps| && Quiet(tr[k]) && ByCommit(v) in tr[k].sessions
    ensures m < k && Opens(tr[m], steps[m], v) && NoDropBetween(steps, tr, m, k)
    ensures v < tr[k].made <==> exists w: nat :: w >= v && Dropped(steps, tr, m, w)
  {
    RunDrops(n, steps);
    RunKeepsInv(n, steps);
    m := LiveWasOpened(steps, tr, k, v);
    StaleInTrace(steps, tr, m, k, v);
  }

  // ------------------------------------------------- lock order

  predicate WaitsForAuth(t: Task) {
    t.CommitChecked? || t.CommitReplaced? || t.CommitDropped? || t.ResetReplaced?
  }

  predicate WaitsForCfg(t: Task) {
    t.LoginHasAuth? || t.CommitOffered? || t.WebEditing? || t.IdentityMaking?
  }

  predicate CanMove(s: State, i: nat)
    requires i < |s.tasks|
  {
    Next(s, Step(i, Advance(true))) != s
  }

  predicate Unblocked(s: State, i: nat)
    requires i < |s.tasks|
  {
    && !s.tasks[i].Idle?
    && (WaitsForAuth(s.tasks[i]) ==> s.authLock.None?)
    && (WaitsForCfg(s.tasks[i]) ==> s.cfgLock.None?)
  }

  lemma MovesUnlessWaiting(s: State, i: nat)
    requires i < |s.tasks| && Unblocked(s, i)
    ensures CanMove(s, i)
  {
    if InChange(s.tasks[i]) {
      ChangeMoves(s, i);
    } else {
      CallMoves(s, i);
    }
  }

  lemma ChangeMoves(s: State, i: nat)
    requires i < |s.tasks| && Unblocked(s, i) && InChange(s.tasks[i])
    ensures |Continue(s, i, true).tasks| == |s.tasks| && Continue(s, i, true).tasks[i] != s.tasks[i]
  {
  }

  lemma CallMoves(s: State, i: nat)
    requires i < |s.tasks| && Unblocked(s, i) && !InChange(s.tasks[i])
    ensures |Continue(s, i, true).tasks| == |s.tasks| && Continue(s, i, true).tasks[i] != s.tasks[i]
  {
  }

  // The configuration lock is the inner one: whoever holds it waits for nothing.
  lemma CfgIsInnermost(s: State, i: nat)
    requires Inv(s) && s.cfgLock == Some(i)
    ensures i < |s.tasks| && !s.tasks[i].Idle? && CanMove(s, i)
  {
    assert CfgHolders(s)[i];
    MovesUnlessWaiting(s, i);
  }

  // So the tasks never deadlock: as long as one is in the middle of a call, some
  // task can go on.
  lemma NoDeadlock(n: nat, steps: seq<Step>, tr: seq<State>, k: nat, busy: nat) returns (i: nat)
    requires tr == Trace(n, steps) && k <= |steps|
    requires busy < |tr[k].tasks| && !tr[k].tasks[busy].Idle?
    ensures i < |tr[k].tasks| && !tr[k].tasks[i].Idle? && CanMove(tr[k], i)
  {
    RunKeepsInv(n, steps);
    i := SomeoneMoves(tr[k], busy);
  }

  lemma SomeoneMoves(s: State, busy: nat) returns (i: nat)
    requires Inv(s) && busy < |s.tasks| && !s.tasks[busy].Idle?
    ensures i < |s.tasks| && !s.tasks[i].Idle? && CanMove(s, i)
  {
    if s.cfgLock.Some? {
      i := s.cfgLock.value;
      CfgIsInnermost(s, i);
    } else if s.authLock.Some? {
      i := s.authLock.value;
      assert AuthHolders(s)[i];
      MovesUnlessWaiting(s, i);
    } else {
      i := busy;
      MovesUnlessWaiting(s, i);
    }
  }

  // ------------------------------------------------- what calls do

  // Task i goes on from state k to state j.
  predicate GoesOn(steps: seq<Step>, i: nat, k: nat, j: nat) {
    j <= |steps| && forall l :: k <= l < j ==> steps[l] == Step(i, Advance(true))
  }

  // Task i begins an operation in step k, with nobody in the way, and goes on with it
  // alone up to state j.
  ghost predicate Alone(n: nat, steps: seq<Step>, tr: seq<State>, i: nat, act: Act, k: nat, j: nat) {
    && Traced(n, steps, tr) && k < j <= |steps| && i < |tr[k].tasks|
    && tr[k].tasks[i].Idle? && tr[k].authLock.None? && tr[k].cfgLock.None?
    && steps[k] == Step(i, act) && GoesOn(steps, i, k + 1, j)
  }

  // Where a call may end early: at a check, at a draw or at a save.
  predicate MayFail(t: Task) {
    t.LoginHasAuth? || t.LoginRead? || t.CommitHasCfg? || t.CommitHasAuth? || t.CommitSaving?
    || t.WebEditing? || t.WebSaving? || t.IdentityMaking? || t.IdentitySaving?
  }

  // A call that fails, or comes too late with its copy, is done with its locks given
  // back and changes nothing else: no session, no key, no revision.
  lemma FailureEndsTheCall(s: State, i: nat, ok: bool)
    requires i < |s.tasks| && MayFail(s.tasks[i])
    requires !ok || (s.tasks[i].WebSaving? && s.revision != s.tasks[i].seen)
    ensures Next(s, Step(i, Advance(ok))) == s.(tasks := s.tasks[i := Idle],
      authLock := if HoldsAuth(s.tasks[i]) then None else s.authLock,
      cfgLock := if HoldsCfg(s.tasks[i]) then None else s.cfgLock)
  {
  }

  // A brief call takes the one lock it asks for, gives it back and changes nothing.
  lemma BriefCallTakesItsLock(n: nat, steps: seq<Step>, tr: seq<State>, i: nat, onAuth: bool, k: nat)
    requires Alone(n, steps, tr, i, StartBrief(onAuth), k, k + 2)
    ensures tr[k + 1].authLock == (if onAuth then Some(i) else None)
    ensures tr[k + 1].cfgLock == (if onAuth then None else Some(i))
    ensures tr[k + 2] == tr[k]
  {
    assert tr[k + 1] == Next(tr[k], steps[k]);
    assert tr[k + 2] == Next(tr[k + 1], steps[k + 1]);
    assert tr[k].tasks[i := Idle] == tr[k].tasks;
  }

  // A login opens a session for the key in force.
  lemma LoginOpensSession(n: nat, steps: seq<Step>, tr: seq<State>, i: nat, k: nat)
    requires Alone(n, steps, tr, i, StartLogin, k, k + 4)
    ensures tr[k + 4] == tr[k].(sessions := tr[k].sessions + {ByLogin(tr[k].key)})
  {
    var s := tr[k];
    assert tr[k + 1] == Next(s, steps[k]);
    assert tr[k + 2] == Next(tr[k + 1], steps[k + 1]);
    assert tr[k + 3] == Next(tr[k + 2], steps[k + 2]);
    assert tr[k + 4] == Next(tr[k + 3], steps[k + 3]);
    assert s.tasks[i := Idle] == s.tasks;
  }

  // A password change puts a new key in force, counts a revision, and leaves one
  // session, that of the changer, for the new key.
  lemma ChangeReplacesKey(n: nat, steps: seq<Step>, tr: seq<State>, i: nat, k: nat)
    requires Alone(n, steps, tr, i, StartCommit, k, k + 11)
    ensures tr[k + 11] == tr[k].(key := tr[k].made + 1, made := tr[k].made + 1, revision := tr[k].revision + 1,
                                 sessions := {ByCommit(tr[k].made + 1)})
  {
    SevenSteps(n, steps, tr, k, i);
    FourSteps(n, steps, tr, k + 7, i);
    assert tr[k].tasks[i := Idle] == tr[k].tasks;
  }

  // An auth reset puts a new key in force, counts no revision, and leaves no session.
  lemma ResetReplacesKey(n: nat, steps: seq<Step>, tr: seq<State>, i: nat, k: nat)
    requires Alone(n, steps, tr, i, StartReset, k, k + 5)
    ensures tr[k + 5] == tr[k].(key := tr[k].made + 1, made := tr[k].made + 1, sessions := {})
  {
    FiveSteps(n, steps, tr, k, i);
  }

  // A web save counts a revision, an identity reset none; neither touches key and
  // sessions.
  lemma SavesKeepKey(n: nat, steps: seq<Step>, tr: seq<State>, i: nat, k: nat)
    ensures Alone(n, steps, tr, i, StartWeb, k, k + 4) ==> tr[k + 4] == tr[k].(revision := tr[k].revision + 1)
    ensures Alone(n, steps, tr, i, StartIdentity, k, k + 4) ==> tr[k + 4] == tr[k]
  {
    if Alone(n, steps, tr, i, StartWeb, k, k + 4) {
      SnapshotSteps(n, steps, tr, k, i);
      SaveSteps(n, steps, tr, k + 2, i);
      assert tr[k].tasks[i := Idle] == tr[k].tasks;
    }
    if Alone(n, steps, tr, i, StartIdentity, k, k + 4) {
      CopySteps(n, steps, tr, k, i);
      WorkerSteps(n, steps, tr, k + 2, i);
      assert tr[k].tasks[i := Idle] == tr[k].tasks;
    }
  }

  // ------------------------------------------------- both exceptions occur

  // An auth reset at the console that falls between the two halves of a password
  // change leaves the changer a session of the replaced key.
  lemma ResetLeavesStaleSession()
    ensures var s := Trace(2, ResetMeanwhile())[16];
      Quiet(s) && ByCommit(1) in s.sessions && s.key == s.made == 2
  {
    var steps := ResetMeanwhile();
    var tr := Trace(2, steps);
    TraceSteps(2, steps);
    SevenSteps(2, steps, tr, 0, 0);
    FiveSteps(2, steps, tr, 7, 1);
    FourSteps(2, steps, tr, 12, 0);
  }

  // Task 0 changes the password up to the stored key, task 1 resets the credential,
  // and then task 0 drops the sessions and opens its own.
  function ResetMeanwhile(): (steps: seq<Step>)
    ensures |steps| == 16
  {
    seq(16, k requires 0 <= k < 16 =>
      if k == 0 then Step(0, StartCommit)
      else if k == 7 then Step(1, StartReset)
      else Step(if 7 < k < 12 then 1 else 0, Advance(true)))
  }

  // A web save that took its snapshot before an auth reset puts the replaced key in
  // force again, after the sessions were dropped.
  lemma WebSaveRevivesReplacedKey()
    ensures var steps, tr := SaveAround(), Trace(2, SaveAround());
      Drops(tr[6], steps[6], 0) && Restores(tr[8], tr[9]) && tr[9].key == 0 && tr[9].made == 1
  {
    var steps := SaveAround();
    var tr := Trace(2, steps);
    TraceSteps(2, steps);
    SnapshotSteps(2, steps, tr, 0, 0);
    FiveSteps(2, steps, tr, 2, 1);
    SaveSteps(2, steps, tr, 7, 0);
  }

  // So does an identity worker that took its copy before a password change, with the
  // changer's session live.
  lemma IdentityRevivesReplacedKey()
    ensures var steps, tr := IdentityAround(), Trace(2, IdentityAround());
      && Takes(tr[1], steps[1]) && Writes(tr[14], steps[14]) && Restores(tr[14], tr[15])
      && tr[15].key == 0 && tr[15].made == 1 && tr[15].sessions == {ByCommit(1)}
  {
    var steps := IdentityAround();
    var tr := Trace(2, steps);
    TraceSteps(2, steps);
    CopySteps(2, steps, tr, 0, 0);
    SevenSteps(2, steps, tr, 2, 1);
    FourSteps(2, steps, tr, 9, 1);
    WorkerSteps(2, steps, tr, 13, 0);
  }

  lemma CopySteps(n: nat, steps: seq<Step>, tr: seq<State>, k: nat, i: nat)
    requires Traced(n, steps, tr) && k + 2 <= |steps| && i < |tr[k].tasks|
    requires tr[k].tasks[i].Idle? && tr[k].cfgLock.None?
    requires steps[k] == Step(i, StartIdentity) && GoesOn(steps, i, k + 1, k + 2)
    ensures Takes(tr[k + 1], steps[k + 1])
    ensures tr[k + 2] == tr[k].(tasks := tr[k].tasks[i := IdentityMaking(tr[k].key)])
  {
    assert tr[k + 1] == Next(tr[k], steps[k]);
    assert tr[k + 2] == Next(tr[k + 1], steps[k + 1]);
  }

  lemma WorkerSteps(n: nat, steps: seq<Step>, tr: seq<State>, k: nat, i: nat)
    requires Traced(n, steps, tr) && k + 2 <= |steps| && i < |tr[k].tasks| && GoesOn(steps, i, k, k + 2)
    requires tr[k].tasks[i].IdentityMaking? && tr[k].cfgLock.None?
    ensures Writes(tr[k + 1], steps[k + 1]) && tr[k + 1].key == tr[k].key
    ensures tr[k + 2] == tr[k].(tasks := tr[k].tasks[i := Idle], key := tr[k].tasks[i].copy)
  {
    assert tr[k + 1] == Next(tr[k], steps[k]);
    assert tr[k + 2] == Next(tr[k + 1], steps[k + 1]);
  }

  // Task 0 copies the configuration, task 1 changes the password, and task 0 saves.
  function IdentityAround(): (steps: seq<Step>)
    ensures |steps| == 15
  {
    seq(15, k requires 0 <= k < 15 =>
      if k == 0 then Step(0, StartIdentity)
      else if k == 2 then Step(1, StartCommit)
      else Step(if 2 < k < 13 then 1 else 0, Advance(true)))
  }

  lemma SnapshotSteps(n: nat, steps: seq<Step>, tr: seq<State>, k: nat, i: nat)
    requires Traced(n, steps, tr) && k + 2 <= |steps| && i < |tr[k].tasks|
    requires tr[k].tasks[i].Idle? && tr[k].cfgLock.None?
    requires steps[k] == Step(i, StartWeb) && GoesOn(steps, i, k + 1, k + 2)
    ensures tr[k + 2] == tr[k].(tasks := tr[k].tasks[i := WebEditing(tr[k].key, tr[k].revision)])
  {
    assert tr[k + 1] == Next(tr[k], steps[k]);
    assert tr[k + 2] == Next(tr[k + 1], steps[k + 1]);
  }

  lemma SaveSteps(n: nat, steps: seq<Step>, tr: seq<State>, k: nat, i: nat)
    requires Traced(n, steps, tr) && k + 2 <= |steps| && i < |tr[k].tasks| && GoesOn(steps, i, k, k + 2)
    requires tr[k].tasks[i].WebEditing? && tr[k].tasks[i].seen == tr[k].revision && tr[k].cfgLock.None?
    ensures tr[k + 1].key == tr[k].key
    ensures tr[k + 2] == tr[k].(tasks := tr[k].tasks[i := Idle], key := tr[k].tasks[i].copy,
                                revision := tr[k].revision + 1)
  {
    assert tr[k + 1] == Next(tr[k], steps[k]);
    assert tr[k + 2] == Next(tr[k + 1], steps[k + 1]);
  }

  // Task 0 takes its snapshot, task 1 resets the credential, and task 0 saves.
  function SaveAround(): (steps: seq<Step>)
    ensures |steps| == 9
  {
    seq(9, k requires 0 <= k < 9 =>
      if k == 0 then Step(0, StartWeb)
      else if k == 2 then Step(1, StartReset)
      else Step(if 2 < k < 7 then 1 else 0, Advance(true)))
  }

  // One task runs a password change up to the stored key,
  lemma SevenSteps(n: nat, steps: seq<Step>, tr: seq<State>, k: nat, i: nat)
    requires Traced(n, steps, tr) && k + 7 <= |steps| && i < |tr[k].tasks|
    requires tr[k].tasks[i].Idle? && tr[k].authLock.None? && tr[k].cfgLock.None?
    requires steps[k] == Step(i, StartCommit) && GoesOn(steps, i, k + 1, k + 7)
    ensures var s := tr[k];
      tr[k + 7] == s.(tasks := s.tasks[i := CommitReplaced(s.made)], key := s.made + 1, made := s.made + 1,
                      revision := s.revision + 1)
  {
    ClaimSteps(n, steps, tr, k, i);
    assert tr[k + 5] == Next(tr[k + 4], steps[k + 4]);
    assert tr[k + 6] == Next(tr[k + 5], steps[k + 5]);
    assert tr[k + 7] == Next(tr[k + 6], steps[k + 6]);
  }

  lemma ClaimSteps(n: nat, steps: seq<Step>, tr: seq<State>, k: nat, i: nat)
    requires Traced(n, steps, tr) && k + 4 <= |steps| && i < |tr[k].tasks|
    requires tr[k].tasks[i].Idle? && tr[k].authLock.None? && tr[k].cfgLock.None?
    requires steps[k] == Step(i, StartCommit) && GoesOn(steps, i, k + 1, k + 4)
    ensures tr[k + 4] == tr[k].(tasks := tr[k].tasks[i := CommitOffered])
  {
    assert tr[k + 1] == Next(tr[k], steps[k]);
    assert tr[k + 2] == Next(tr[k + 1], steps[k + 1]);
    assert tr[k + 3] == Next(tr[k + 2], steps[k + 2]);
    assert tr[k + 4] == Next(tr[k + 3], steps[k + 3]);
  }

  // from there to the caller's new session,
  lemma FourSteps(n: nat, steps: seq<Step>, tr: seq<State>, k: nat, i: nat)
    requires Traced(n, steps, tr) && k + 4 <= |steps| && i < |tr[k].tasks|
    requires tr[k].tasks[i].CommitReplaced? && tr[k].authLock.None? && GoesOn(steps, i, k, k + 4)
    ensures var s := tr[k];
      tr[k + 4] == s.(tasks := s.tasks[i := Idle], sessions := {ByCommit(s.tasks[i].past + 1)})
  {
    assert tr[k + 1] == Next(tr[k], steps[k]);
    assert tr[k + 2] == Next(tr[k + 1], steps[k + 1]);
    assert tr[k + 3] == Next(tr[k + 2], steps[k + 2]);
    assert tr[k + 4] == Next(tr[k + 3], steps[k + 3]);
  }

  // or through an auth reset.
  lemma FiveSteps(n: nat, steps: seq<Step>, tr: seq<State>, k: nat, i: nat)
    requires Traced(n, steps, tr) && k + 5 <= |steps| && i < |tr[k].tasks|
    requires tr[k].tasks[i].Idle? && tr[k].authLock.None? && tr[k].cfgLock.None?
    requires steps[k] == Step(i, StartReset) && GoesOn(steps, i, k + 1, k + 5)
    ensures Drops(tr[k + 4], steps[k + 4], tr[k].made)
    ensures tr[k + 5] == tr[k].(key := tr[k].made + 1, made := tr[k].made + 1, sessions := {})
  {
    var s := tr[k];
    ClearSteps(n, steps, tr, k, i);
    assert tr[k + 4] == Next(tr[k + 3], steps[k + 3]);
    assert tr[k + 5] == Next(tr[k + 4], steps[k + 4]);
    assert s.tasks[i := Idle] == s.tasks;
  }

  lemma ClearSteps(n: nat, steps: seq<Step>, tr: seq<State>, k: nat, i: nat)
    requires Traced(n, steps, tr) && k + 3 <= |steps| && i < |tr[k].tasks|
    requires tr[k].tasks[i].Idle? && tr[k].cfgLock.None?
    requires steps[k] == Step(i, StartReset) && GoesOn(steps, i, k + 1, k + 3)
    ensures var s := tr[k];
      tr[k + 3] == s.(tasks := s.tasks[i := ResetReplaced(s.made)], key := s.made + 1, made := s.made + 1)
  {
    assert tr[k + 1] == Next(tr[k], steps[k]);
    assert tr[k + 2] == Next(tr[k + 1], steps[k + 1]);
    assert tr[k + 3] == Next(tr[k + 2], steps[k + 2]);
  }
}
