// The shared configuration of main/provisioning.c under its writers: web requests
// that edit a snapshot and write it back (main/web_ui.c), console setters, password
// changes, gwcfg-save, and the identity worker, which writes back a whole copy without
// looking at the revision (main/tls_identity.c). A configuration is known here by its
// fields.
module ConfigStore {
  import opened Options

  const REVISIONS: nat := 0x1_0000_0000 // s_cfg_revision is a uint32_t

  type Config = map<string, string>

  // The fields that a writer sets; it leaves all others as it found them.
  type Edit = map<string, string>

  datatype Result = Saved | Invalid | Stale | NotSaved

  // What a web request is told.
  function Answer(valid: Config -> bool, revision: nat, work: Config, seen: nat, ok: bool): Result {
    if !valid(work) then Invalid
    else if revision != seen then Stale
    else if !ok then NotSaved
    else Saved
  }

  // ------------------------------------------------- all writers together

  // A web request between its two halves. `at` says how many commits it has seen,
  // without wrap-around.
  datatype Request = NoRequest | Editing(work: Config, edit: Edit, seen: nat, at: nat)

  // The copy that the identity worker holds, and the commits it has seen.
  datatype Copy = Copy(config: Config, at: nat)

  datatype State = State(
    ram: Config, nvs: Config, revision: nat,
    requests: map<nat, Request>,
    worker: Option<Copy>,
    edits: seq<Edit>,    // every edit committed so far, in order
    stored: nat)         // how many of them the last save included

  datatype Step =
    | Begin(client: nat, edit: Edit)        // snapshot and edit
    | Finish(client: nat, ok: bool)         // validate, check, save, commit
    | Set(edit: Edit)                       // console setter
    | SaveAndSet(edit: Edit, ok: bool)      // auth_commit_password
    | SaveAll(ok: bool)                     // gwcfg-save
    | Bypass(edit: Edit)                    // a writer that forgets the revision
    | TakeCopy                              // the identity worker copies the configuration,
    | StoreCopy(edit: Edit, ok: bool)       // and saves its copy with the new identity

  function Initial(loaded: Config): State {
    State(loaded, loaded, 0, map[], None, [], 0)
  }

  function Committed(s: State, work: Config, edit: Edit): State {
    s.(ram := work, revision := (s.revision + 1) % REVISIONS, edits := s.edits + [edit])
  }

  function RequestOf(s: State, client: nat): Request {
    if client in s.requests then s.requests[client] else NoRequest
  }

  function OnFinish(valid: Config -> bool, s: State, client: nat, ok: bool): State {
    var r := RequestOf(s, client);
    if r.NoRequest? then s
    else
      var closed := s.(requests := s.requests[client := NoRequest]);
      if Answer(valid, s.revision, r.work, r.seen, ok).Saved?
      then Committed(closed, r.work, r.edit).(nvs := r.work, stored := |s.edits| + 1)
      else closed
  }

  function Next(valid: Config -> bool, s: State, step: Step): State {
    match step
    case Begin(client, edit) =>
      if RequestOf(s, client).Editing? then s
      else s.(requests := s.requests[client := Editing(s.ram + edit, edit, s.revision, |s.edits|)])
    case Finish(client, ok) => OnFinish(valid, s, client, ok)
    case Set(edit) => if valid(s.ram + edit) then Committed(s, s.ram + edit, edit) else s
    case SaveAndSet(edit, ok) =>
      if valid(s.ram + edit) && ok
      then Committed(s, s.ram + edit, edit).(nvs := s.ram + edit, stored := |s.edits| + 1)
      else s
    case SaveAll(ok) => if valid(s.ram) && ok then s.(nvs := s.ram, stored := |s.edits|) else s
    case Bypass(edit) => s.(ram := s.ram + edit)
    case TakeCopy => if s.worker.Some? then s else s.(worker := Some(Copy(s.ram, |s.edits|)))
    case StoreCopy(edit, ok) => OnStoreCopy(valid, s, edit, ok)
  }

  // `ok` says whether an identity was made and the store accepts the write.
  predicate SavesCopy(valid: Config -> bool, s: State, edit: Edit, ok: bool) {
    s.worker.Some? && valid(s.worker.value.config + edit) && ok
  }

  function OnStoreCopy(valid: Config -> bool, s: State, edit: Edit, ok: bool): State {
    if SavesCopy(valid, s, edit, ok)
    then s.(ram := s.worker.value.config + edit, nvs := s.worker.value.config + edit, worker := None)
    else s.(worker := None)
  }

  function Run(valid: Config -> bool, loaded: Config, steps: seq<Step>): State {
    if steps == [] then Initial(loaded)
    else Next(valid, Run(valid, loaded, steps[..|steps| - 1]), steps[|steps| - 1])
  }

  // ------------------------------------------------- in place

  // The live and the stored configuration. `log` is the state of the machine above,
  // kept along as history.
  class Provisioning {
    const valid: Config -> bool // provisioning_validate
    var ram: Config
    var nvs: Config
    var revision: nat
    ghost var log: State

    ghost predicate Valid()
      reads this
    {
      log.ram == ram && log.nvs == nvs && log.revision == revision
    }

    constructor (valid: Config -> bool, loaded: Config)
      ensures Valid() && this.valid == valid && log == Initial(loaded)
    {
      this.valid := valid;
      ram, nvs, revision, log := loaded, loaded, 0, Initial(loaded);
    }

    method Commit(work: Config)
      modifies this`ram, this`revision
      ensures ram == work && revision == (old(revision) + 1) % REVISIONS
    {
      ram := work;
      revision := (revision + 1) % REVISIONS;
    }

    method Save(work: Config, ok: bool) returns (saved: bool)
      modifies this`nvs
      ensures saved == (valid(work) && ok)
      ensures nvs == if saved then work else old(nvs)
    {
      saved := valid(work) && ok;
      if saved {
        nvs := work;
      }
    }

    // The first half of config_post_handler: the snapshot and its revision, read
    // together under the lock, and then the edit.
    method OpenRequest(client: nat, edit: Edit) returns (work: Config, seen: nat)
      requires Valid() && RequestOf(log, client).NoRequest?
      modifies this`log
      ensures Valid() && log == Next(valid, old(log), Begin(client, edit))
      ensures RequestOf(log, client) == Editing(work, edit, seen, |log.edits|)
    {
      work, seen := ram, revision;
      work := work + edit;
      log := Next(valid, log, Begin(client, edit));
    }

    // The second half: validation, and then under the lock again the revision
    // check, the save and the write-back.
    method WriteBack(client: nat, work: Config, seen: nat, ok: bool) returns (r: Result)
      requires Valid() && RequestOf(log, client).Editing?
      requires RequestOf(log, client).work == work && RequestOf(log, client).seen == seen
      modifies this
      ensures Valid() && log == Next(valid, old(log), Finish(client, ok))
      ensures r == Answer(valid, old(revision), work, seen, ok)
    {
      log := Next(valid, log, Finish(client, ok));
      if !valid(work) {
        return Invalid;
      }
      if revision != seen {
        return Stale;
      }
      var saved := Save(work, ok);
      if !saved {
        return NotSaved;
      }
      Commit(work);
      return Saved;
    }

    // A console setter: snapshot, edit, validation and commit under one hold of the
    // lock.
    method SetField(edit: Edit) returns (rejected: bool)
      requires Valid()
      modifies this
      ensures Valid() && log == Next(valid, old(log), Set(edit))
      ensures rejected == !valid(old(ram) + edit)
    {
      log := Next(valid, log, Set(edit));
      var work := ram;
      work := work + edit;
      rejected := !valid(work);
      if !rejected {
        Commit(work);
      }
    }

    // The tail of auth_commit_password.
    method SaveAndCommit(edit: Edit, ok: bool) returns (saved: bool)
      requires Valid()
      modifies this
      ensures Valid() && log == Next(valid, old(log), SaveAndSet(edit, ok))
      ensures saved == (valid(old(ram) + edit) && ok)
    {
      log := Next(valid, log, SaveAndSet(edit, ok));
      var work := ram + edit;
      saved := Save(work, ok);
      if saved {
        Commit(work);
      }
    }

    // gwcfg-save
    method SaveLive(ok: bool) returns (saved: bool)
      requires Valid()
      modifies this
      ensures Valid() && log == Next(valid, old(log), SaveAll(ok))
      ensures saved == (valid(ram) && ok) && ram == old(ram)
    {
      log := Next(valid, log, SaveAll(ok));
      saved := Save(ram, ok);
    }

    // A writer that sets fields of the live configuration directly.
    method SetDirectly(edit: Edit)
      requires Valid()
      modifies this
      ensures Valid() && log == Next(valid, old(log), Bypass(edit)) && revision == old(revision)
    {
      log := Next(valid, log, Bypass(edit));
      ram := ram + edit;
    }

    // The first half of identity_worker_task: the copy on its stack.
    method CopyForWorker() returns (work: Config)
      requires Valid() && log.worker.None?
      modifies this`log
      ensures Valid() && log == Next(valid, old(log), TakeCopy)
      ensures log.worker == Some(Copy(work, |log.edits|))
    {
      work := ram;
      log := Next(valid, log, TakeCopy);
    }

    // Its second half: no revision check, and none is counted.
    method WriteCopyBack(copy: Config, edit: Edit, ok: bool) returns (saved: bool)
      requires Valid() && log.worker.Some? && log.worker.value.config == copy
      modifies this
      ensures Valid() && log == Next(valid, old(log), StoreCopy(edit, ok))
      ensures saved == (valid(copy + edit) && ok) && revision == old(revision)
    {
      log := Next(valid, log, StoreCopy(edit, ok));
      var work := copy + edit;
      saved := Save(work, ok);
      if saved {
        ram := work;
      }
    }
  }

  // ------------------------------------------------- only valid configurations

  // The store holds only valid configurations, in any run, if it did at first; so does
  // RAM, as long as nobody sets a field directly.
  lemma {:induction false} StaysValid(valid: Config -> bool, loaded: Config, steps: seq<Step>)
    requires valid(loaded)
    ensures valid(Run(valid, loaded, steps).nvs)
    ensures (forall i :: 0 <= i < |steps| ==> !steps[i].Bypass?) ==> valid(Run(valid, loaded, steps).ram)
  {
    if steps != [] {
      StaysValid(valid, loaded, steps[..|steps| - 1]);
    }
  }

  // ------------------------------------------------- the serial order

  // The edits one after the other, each on the result of the one before.
  function Serial(loaded: Config, edits: seq<Edit>): Config {
    if edits == [] then loaded else Serial(loaded, edits[..|edits| - 1]) + edits[|edits| - 1]
  }

  // The step keeps the rules: it does not bypass the revision, and a request does
  // not finish after 2^32 or more commits of others.
  predicate Disciplined(s: State, step: Step) {
    && !step.Bypass? && !(step.StoreCopy? && step.ok)
    && (step.Finish? && RequestOf(s, step.client).Editing? ==>
          |s.edits| < RequestOf(s, step.client).at + REVISIONS)
  }

  ghost predicate DisciplinedRun(valid: Config -> bool, loaded: Config, steps: seq<Step>) {
    forall i :: 0 <= i < |steps| ==> Disciplined(Run(valid, loaded, steps[..i]), steps[i])
  }

  // ------------------------------------------------- invariants

  ghost predicate SeenOk(s: State, loaded: Config, r: Request) {
    r.Editing? ==>
      && r.at <= |s.edits|
      && r.seen == r.at % REVISIONS
      && r.work == Serial(loaded, s.edits[..r.at]) + r.edit
  }

  ghost predicate RequestsOk(s: State, loaded: Config) {
    forall c <- s.requests :: SeenOk(s, loaded, s.requests[c])
  }

  ghost predicate Inv(s: State, loaded: Config) {
    && s.ram == Serial(loaded, s.edits)
    && s.revision == |s.edits| % REVISIONS
    && s.stored <= |s.edits| && s.nvs == Serial(loaded, s.edits[..s.stored])
    && RequestsOk(s, loaded)
    && CopyOk(s, loaded)
  }

  predicate CopyOk(s: State, loaded: Config) {
    s.worker.Some? ==>
      s.worker.value.at <= |s.edits| && s.worker.value.config == Serial(loaded, s.edits[..s.worker.value.at])
  }

  lemma SerialSnoc(loaded: Config, edits: seq<Edit>, edit: Edit)
    ensures Serial(loaded, edits + [edit]) == Serial(loaded, edits) + edit
  {
    assert (edits + [edit])[..|edits|] == edits;
  }

  lemma SeenGrows(s: State, loaded: Config, edit: Edit, work: Config, r: Request)
    requires SeenOk(s, loaded, r)
    ensures SeenOk(Committed(s, work, edit), loaded, r)
  {
    if r.Editing? {
      assert (s.edits + [edit])[..r.at] == s.edits[..r.at];
    }
  }

  lemma CommitKeepsRequests(s: State, loaded: Config, work: Config, edit: Edit)
    requires RequestsOk(s, loaded)
    ensures RequestsOk(Committed(s, work, edit), loaded)
  {
    forall c <- s.requests
      ensures SeenOk(Committed(s, work, edit), loaded, s.requests[c])
    {
      SeenGrows(s, loaded, edit, work, s.requests[c]);
    }
  }

  lemma CommitKeepsInv(s: State, loaded: Config, edit: Edit)
    requires Inv(s, loaded)
    ensures Inv(Committed(s, s.ram + edit, edit), loaded)
  {
    SerialSnoc(loaded, s.edits, edit);
    assert (s.edits + [edit])[..s.stored] == s.edits[..s.stored];
    assert s.worker.Some? ==> (s.edits + [edit])[..s.worker.value.at] == s.edits[..s.worker.value.at];
    CommitKeepsRequests(s, loaded, s.ram + edit, edit);
    NextRevision(|s.edits|);
  }

  lemma NextRevision(n: nat)
    ensures (n % REVISIONS + 1) % REVISIONS == (n + 1) % REVISIONS
  {
  }

  lemma StoreKeepsInv(s: State, loaded: Config)
    requires Inv(s, loaded)
    ensures Inv(s.(nvs := s.ram, stored := |s.edits|), loaded)
  {
    assert s.edits[..|s.edits|] == s.edits;
    assert forall c <- s.requests :: SeenOk(s, loaded, s.requests[c]);
  }

  // The revision test passes exactly if the number of commits in between is a
  // multiple of 2^32: within that distance, exactly if there were none.
  lemma RevisionTest(s: State, loaded: Config, client: nat)
    requires Inv(s, loaded) && RequestOf(s, client).Editing?
    ensures s.revision == RequestOf(s, client).seen
      <==> (|s.edits| - RequestOf(s, client).at) % REVISIONS == 0
  {
    assert SeenOk(s, loaded, s.requests[client]);
    SameResidue(|s.edits|, RequestOf(s, client).at);
  }

  lemma SameResidue(a: nat, b: nat)
    requires b <= a
    ensures a % REVISIONS == b % REVISIONS <==> (a - b) % REVISIONS == 0
  {
  }

  // A web request that reports "saved" has run its edit on the configuration in
  // force at that moment, and RAM and store agree on the result; any other answer
  // leaves both alone.
  lemma PostIsAtomic(valid: Config -> bool, s: State, loaded: Config, client: nat, ok: bool)
    requires Inv(s, loaded) && RequestOf(s, client).Editing? && Disciplined(s, Finish(client, ok))
    ensures var r, after := RequestOf(s, client), OnFinish(valid, s, client, ok);
      if Answer(valid, s.revision, r.work, r.seen, ok).Saved? then
        after.ram == s.ram + r.edit && after.nvs == after.ram && after.edits == s.edits + [r.edit]
      else
        after.ram == s.ram && after.nvs == s.nvs && after.edits == s.edits && after.revision == s.revision
    ensures var r := RequestOf(s, client); var answer := Answer(valid, s.revision, r.work, r.seen, ok);
      && (answer.Invalid? <==> !valid(r.work))
      && (answer.Stale? <==> valid(r.work) && |s.edits| > r.at)
      && (answer.NotSaved? <==> valid(r.work) && |s.edits| == r.at && !ok)
  {
    RevisionTest(s, loaded, client);
    assert SeenOk(s, loaded, s.requests[client]);
    if |s.edits| == RequestOf(s, client).at {
      assert s.edits[..|s.edits|] == s.edits;
    }
  }

  lemma ClosingKeepsInv(s: State, loaded: Config, client: nat, r: Request)
    requires Inv(s, loaded) && SeenOk(s, loaded, r)
    ensures Inv(s.(requests := s.requests[client := r]), loaded)
  {
    var after := s.(requests := s.requests[client := r]);
    forall c <- after.requests
      ensures SeenOk(after, loaded, after.requests[c])
    {
      if c != client {
        assert SeenOk(s, loaded, s.requests[c]);
      }
    }
  }

  lemma SavingKeepsInv(s: State, loaded: Config, edit: Edit)
    requires Inv(s, loaded)
    ensures Inv(Committed(s, s.ram + edit, edit).(nvs := s.ram + edit, stored := |s.edits| + 1), loaded)
  {
    CommitKeepsInv(s, loaded, edit);
    StoreKeepsInv(Committed(s, s.ram + edit, edit), loaded);
  }

  lemma FinishKeepsInv(valid: Config -> bool, s: State, loaded: Config, client: nat, ok: bool)
    requires Inv(s, loaded) && Disciplined(s, Finish(client, ok))
    ensures Inv(OnFinish(valid, s, client, ok), loaded)
  {
    if RequestOf(s, client).Editing? {
      PostIsAtomic(valid, s, loaded, client, ok);
      ClosingKeepsInv(s, loaded, client, NoRequest);
      SavingKeepsInv(s.(requests := s.requests[client := NoRequest]), loaded, RequestOf(s, client).edit);
    }
  }

  lemma WorkerKeepsInv(s: State, loaded: Config, worker: Option<Copy>)
    requires Inv(s, loaded) && (worker.Some? ==> worker.value == Copy(s.ram, |s.edits|))
    ensures Inv(s.(worker := worker), loaded)
  {
    assert s.edits[..|s.edits|] == s.edits;
    assert forall c <- s.requests :: SeenOk(s, loaded, s.requests[c]);
  }

  lemma StepKeepsInv(valid: Config -> bool, s: State, loaded: Config, step: Step)
    requires Inv(s, loaded) && Disciplined(s, step)
    ensures Inv(Next(valid, s, step), loaded)
  {
    match step
    case Begin(client, edit) =>
      assert s.edits[..|s.edits|] == s.edits;
      ClosingKeepsInv(s, loaded, client, Editing(s.ram + edit, edit, s.revision, |s.edits|));
    case Finish(client, ok) => FinishKeepsInv(valid, s, loaded, client, ok);
    case Set(edit) => CommitKeepsInv(s, loaded, edit);
    case SaveAndSet(edit, ok) => SavingKeepsInv(s, loaded, edit);
    case SaveAll(ok) => StoreKeepsInv(s, loaded);
    case TakeCopy => WorkerKeepsInv(s, loaded, Some(Copy(s.ram, |s.edits|)));
    case StoreCopy(_, _) => WorkerKeepsInv(s, loaded, None);
  }

  // A web request is saved: the configuration in force with its edit is valid, nobody
  // committed since its snapshot, and the store takes it.
  predicate Lands(valid: Config -> bool, s: State, r: Request, ok: bool) {
    r.Editing? && |s.edits| == r.at && valid(s.ram + r.edit) && ok
  }

  // The edit that a step commits: that of a request that lands, of a valid setter, or
  // of a valid password change that the store takes.
  function Committing(valid: Config -> bool, s: State, step: Step): seq<Edit> {
    match step
    case Finish(client, ok) =>
      var r := RequestOf(s, client);
      if Lands(valid, s, r, ok) then [r.edit] else []
    case Set(edit) => if valid(s.ram + edit) then [edit] else []
    case SaveAndSet(edit, ok) => if valid(s.ram + edit) && ok then [edit] else []
    case _ => []
  }

  // The step saves what is live after it: a request or a password change that commits,
  // or gwcfg-save of a valid configuration.
  predicate Saving(valid: Config -> bool, s: State, step: Step) {
    match step
    case Set(_) => false
    case SaveAll(ok) => valid(s.ram) && ok
    case _ => Committing(valid, s, step) != []
  }

  // Step by step, the commits and the saves of a disciplined run are these and no
  // others.
  lemma StepExactly(valid: Config -> bool, s: State, loaded: Config, step: Step)
    requires Inv(s, loaded) && Disciplined(s, step)
    ensures Next(valid, s, step).edits == s.edits + Committing(valid, s, step)
    ensures Next(valid, s, step).stored == if Saving(valid, s, step) then |Next(valid, s, step).edits| else s.stored
    ensures Next(valid, s, step).nvs == if Saving(valid, s, step) then Next(valid, s, step).ram else s.nvs
  {
    if step.Finish? && RequestOf(s, step.client).Editing? {
      FinishExactly(valid, s, loaded, step.client, step.ok);
    }
  }

  lemma FinishExactly(valid: Config -> bool, s: State, loaded: Config, client: nat, ok: bool)
    requires Inv(s, loaded) && RequestOf(s, client).Editing? && Disciplined(s, Finish(client, ok))
    ensures var r, after := RequestOf(s, client), OnFinish(valid, s, client, ok);
      if Lands(valid, s, r, ok)
      then after.edits == s.edits + [r.edit] && after.stored == |after.edits| && after.nvs == after.ram
      else after.edits == s.edits && after.stored == s.stored && after.nvs == s.nvs
  {
    RevisionTest(s, loaded, client);
    assert SeenOk(s, loaded, s.requests[client]);
    assert s.edits[..|s.edits|] == s.edits;
  }

  // A request begins with the live configuration and its own edit on it, and is done
  // when it finishes, saved or not; nobody else touches it. So it is with the worker.
  lemma CopiesExactly(valid: Config -> bool, s: State, step: Step, client: nat)
    ensures var before, after := RequestOf(s, client), RequestOf(Next(valid, s, step), client);
      if step.Begin? && step.client == client && before.NoRequest?
      then after == Editing(s.ram + step.edit, step.edit, s.revision, |s.edits|)
      else after == if step.Finish? && step.client == client then NoRequest else before
    ensures Next(valid, s, step).worker ==
      if step.StoreCopy? then None
      else if step.TakeCopy? && s.worker.None? then Some(Copy(s.ram, |s.edits|))
      else s.worker
  {
  }

  lemma {:induction false} RunKeepsInv(valid: Config -> bool, loaded: Config, steps: seq<Step>)
    requires DisciplinedRun(valid, loaded, steps)
    ensures Inv(Run(valid, loaded, steps), loaded)
  {
    if steps != [] {
      var n := |steps| - 1;
      forall i | 0 <= i < n
        ensures Disciplined(Run(valid, loaded, steps[..n][..i]), steps[..n][i])
      {
        assert steps[..n][..i] == steps[..i];
      }
      RunKeepsInv(valid, loaded, steps[..n]);
      StepKeepsInv(valid, Run(valid, loaded, steps[..n]), loaded, steps[n]);
    }
  }

  // However web requests and committing writers interleave, the live configuration
  // is the serial result of all committed edits in commit order, and the stored one
  // that of the edits up to the last save.
  lemma WritersAreSerial(valid: Config -> bool, loaded: Config, steps: seq<Step>)
    requires DisciplinedRun(valid, loaded, steps)
    ensures Run(valid, loaded, steps).ram == Serial(loaded, Run(valid, loaded, steps).edits)
    ensures Run(valid, loaded, steps).stored <= |Run(valid, loaded, steps).edits|
    ensures Run(valid, loaded, steps).nvs
      == Serial(loaded, Run(valid, loaded, steps).edits[..Run(valid, loaded, steps).stored])
  {
    RunKeepsInv(valid, loaded, steps);
  }

  lemma {:induction false} LastWriteStands(loaded: Config, edits: seq<Edit>, k: nat, field: string)
    requires k < |edits| && field in edits[k]
    requires forall j :: k < j < |edits| ==> field !in edits[j]
    ensures field in Serial(loaded, edits) && Serial(loaded, edits)[field] == edits[k][field]
  {
    if k < |edits| - 1 {
      LastWriteStands(loaded, edits[..|edits| - 1], k, field);
    }
  }

  // So no committed edit is lost: a field keeps the value of the last committed edit
  // that set it.
  lemma NoEditIsLost(valid: Config -> bool, loaded: Config, steps: seq<Step>, k: nat, field: string)
    requires DisciplinedRun(valid, loaded, steps)
    requires k < |Run(valid, loaded, steps).edits| && field in Run(valid, loaded, steps).edits[k]
    requires forall j :: k < j < |Run(valid, loaded, steps).edits| ==> field !in Run(valid, loaded, steps).edits[j]
    ensures field in Run(valid, loaded, steps).ram
    ensures Run(valid, loaded, steps).ram[field] == Run(valid, loaded, steps).edits[k][field]
  {
    RunKeepsInv(valid, loaded, steps);
    LastWriteStands(loaded, Run(valid, loaded, steps).edits, k, field);
  }

  // ------------------------------------------------- the identity worker

  predicate Shows(c: Config, field: string, value: string) {
    field in c && c[field] == value
  }

  // The identity worker's write-back, if it is saved, puts RAM and store back to the
  // serial result of the edits that were committed when it took its copy, and adds
  // the new identity. So the last committed value of a field - reported saved or not -
  // survives if and only if nothing is written back, or the edit was committed before
  // the copy was taken, or the copy has that value anyway.
  lemma WriteBackUndoesExactly(
    valid: Config -> bool, loaded: Config, steps: seq<Step>, edit: Edit, ok: bool, k: nat, field: string)
    requires DisciplinedRun(valid, loaded, steps) && Run(valid, loaded, steps).worker.Some?
    requires k < |Run(valid, loaded, steps).edits| && field in Run(valid, loaded, steps).edits[k]
    requires forall j :: k < j < |Run(valid, loaded, steps).edits| ==> field !in Run(valid, loaded, steps).edits[j]
    requires field !in edit
    ensures var s := Run(valid, loaded, steps);
      var after, copy, value := Next(valid, s, StoreCopy(edit, ok)), s.worker.value, s.edits[k][field];
      && copy.at <= |s.edits|
      && (SavesCopy(valid, s, edit, ok) ==>
            after.ram == after.nvs == Serial(loaded, s.edits[..copy.at]) + edit)
      && (Shows(after.ram, field, value) <==>
            !SavesCopy(valid, s, edit, ok) || k < copy.at || Shows(copy.config, field, value))
  {
    RunKeepsInv(valid, loaded, steps);
    CopySaved(valid, loaded, Run(valid, loaded, steps), edit, ok);
    CopyShowsLastWrite(loaded, Run(valid, loaded, steps), k, field);
  }

  lemma CopySaved(valid: Config -> bool, loaded: Config, s: State, edit: Edit, ok: bool)
    requires s.worker.Some? && CopyOk(s, loaded)
    ensures var after, copy := Next(valid, s, StoreCopy(edit, ok)), s.worker.value;
      if SavesCopy(valid, s, edit, ok)
      then after.ram == copy.config + edit && after.ram == after.nvs == Serial(loaded, s.edits[..copy.at]) + edit
      else after.ram == s.ram
  {
  }

  lemma CopyShowsLastWrite(loaded: Config, s: State, k: nat, field: string)
    requires s.worker.Some? && CopyOk(s, loaded) && s.ram == Serial(loaded, s.edits)
    requires k < |s.edits| && field in s.edits[k] && forall j :: k < j < |s.edits| ==> field !in s.edits[j]
    ensures Shows(s.ram, field, s.edits[k][field])
    ensures k < s.worker.value.at ==> Shows(s.worker.value.config, field, s.edits[k][field])
  {
    LastWriteStands(loaded, s.edits, k, field);
    if k < s.worker.value.at {
      LastWriteStands(loaded, s.edits[..s.worker.value.at], k, field);
    }
  }

  // It does undo an edit that a web request was told is saved.
  lemma SavedEditIsUndone(
    valid: Config -> bool, loaded: Config, client: nat, edit: Edit, identity: Edit, field: string)
    requires field in edit && field !in loaded && field !in identity
    requires valid(loaded + edit) && valid(loaded + identity)
    ensures var s := Run(valid, loaded, [TakeCopy, Begin(client, edit), Finish(client, true)]);
      && Shows(s.ram, field, edit[field]) && Shows(s.nvs, field, edit[field])
      && field !in Next(valid, s, StoreCopy(identity, true)).ram
      && field !in Next(valid, s, StoreCopy(identity, true)).nvs
  {
    var one, two := [TakeCopy], [TakeCopy, Begin(client, edit)];
    var three := [TakeCopy, Begin(client, edit), Finish(client, true)];
    assert one[..0] == [] && two[..1] == one && three[..2] == two;
    assert Run(valid, loaded, one) == Next(valid, Initial(loaded), TakeCopy);
    assert Run(valid, loaded, two) == Next(valid, Run(valid, loaded, one), Begin(client, edit));
  }

  // ------------------------------------------------- writers outside the rules

  // The machine goes on from state s.
  function From(valid: Config -> bool, s: State, more: seq<Step>): State {
    if more == [] then s else Next(valid, From(valid, s, more[..|more| - 1]), more[|more| - 1])
  }

  // The fields that the step itself sets.
  function EditOf(step: Step): Edit {
    match step
    case Begin(_, edit) => edit
    case Set(edit) => edit
    case SaveAndSet(edit, _) => edit
    case Bypass(edit) => edit
    case StoreCopy(edit, _) => edit
    case _ => map[]
  }

  predicate SavesRequest(valid: Config -> bool, s: State, step: Step) {
    step.Finish? && RequestOf(s, step.client).Editing?
    && Answer(valid, s.revision, RequestOf(s, step.client).work, RequestOf(s, step.client).seen, step.ok).Saved?
  }

  // Whose configuration descends from a copy that was taken before some moment: that
  // in RAM, that of the identity worker, those of the requests.
  datatype Heirs = Heirs(ram: bool, worker: bool, requests: set<nat>)

  function OpenRequests(s: State): set<nat> {
    set c <- s.requests | s.requests[c].Editing?
  }

  function NextHeirs(valid: Config -> bool, s: State, step: Step, h: Heirs): Heirs {
    match step
    case Begin(client, _) =>
      if RequestOf(s, client).Editing? then h
      else h.(requests := if h.ram then h.requests + {client} else h.requests - {client})
    case Finish(client, _) =>
      h.(ram := if SavesRequest(valid, s, step) then client in h.requests else h.ram, requests := h.requests - {client})
    case TakeCopy => if s.worker.Some? then h else h.(worker := h.ram)
    case StoreCopy(edit, ok) => h.(ram := if SavesCopy(valid, s, edit, ok) then h.worker else h.ram)
    case _ => h
  }

  // The heirs of the copies that requests and worker hold in state s.
  function HeirsOf(valid: Config -> bool, s: State, more: seq<Step>): Heirs {
    if more == [] then Heirs(false, true, OpenRequests(s))
    else
      var rest := more[..|more| - 1];
      NextHeirs(valid, From(valid, s, rest), more[|more| - 1], HeirsOf(valid, s, rest))
  }

  // Exactly the heirs do not show the value.
  ghost predicate Divided(s: State, h: Heirs, field: string, value: string) {
    && (Shows(s.ram, field, value) <==> !h.ram)
    && (s.worker.Some? ==> (Shows(s.worker.value.config, field, value) <==> !h.worker))
    && forall c <- s.requests :: DividedRequest(s.requests[c], c in h.requests, field, value)
  }

  predicate DividedRequest(r: Request, heir: bool, field: string, value: string) {
    r.Editing? ==> field !in r.edit && (Shows(r.work, field, value) <==> !heir)
  }

  lemma NextDivided(valid: Config -> bool, s: State, step: Step, h: Heirs, field: string, value: string)
    requires Divided(s, h, field, value) && field !in EditOf(step)
    ensures Divided(Next(valid, s, step), NextHeirs(valid, s, step, h), field, value)
  {
    var t, h' := Next(valid, s, step), NextHeirs(valid, s, step, h);
    if step.Finish? && RequestOf(s, step.client).Editing? {
      assert DividedRequest(s.requests[step.client], step.client in h.requests, field, value);
    }
    forall c <- t.requests
      ensures DividedRequest(t.requests[c], c in h'.requests, field, value)
    {
      assert c in s.requests ==> DividedRequest(s.requests[c], c in h.requests, field, value);
    }
  }

  predicate NewsTo(r: Request, field: string, value: string) {
    r.Editing? ==> field !in r.edit && !Shows(r.work, field, value)
  }

  // No request under way and no identity worker has the value.
  ghost predicate NewsToAll(s: State, field: string, value: string) {
    && (forall c <- s.requests :: NewsTo(s.requests[c], field, value))
    && (s.worker.Some? ==> !Shows(s.worker.value.config, field, value))
  }

  // In any state a field shows a value that is new to all requests and to the
  // identity worker under way. However the machine goes on, if nobody sets the field
  // the value stands in the end if and only if the configuration in RAM does not
  // descend, through whatever copies and write-backs, from a copy of before.
  lemma {:induction false} ValueStandsExactly(
    valid: Config -> bool, s: State, more: seq<Step>, field: string, value: string)
    requires Shows(s.ram, field, value) && forall i :: 0 <= i < |more| ==> field !in EditOf(more[i])
    requires NewsToAll(s, field, value)
    ensures Divided(From(valid, s, more), HeirsOf(valid, s, more), field, value)
    ensures Shows(From(valid, s, more).ram, field, value) <==> !HeirsOf(valid, s, more).ram
  {
    if more == [] {
      forall c <- s.requests
        ensures DividedRequest(s.requests[c], c in OpenRequests(s), field, value)
      {
        assert NewsTo(s.requests[c], field, value);
      }
    } else {
      var rest, step := more[..|more| - 1], more[|more| - 1];
      ValueStandsExactly(valid, s, rest, field, value);
      NextDivided(valid, From(valid, s, rest), step, HeirsOf(valid, s, rest), field, value);
    }
  }

  // No request finishes after 2^32 or more commits of others; this time any writer
  // may bypass the revision, only the identity worker saves nothing.
  ghost predicate Prompt(valid: Config -> bool, s: State, more: seq<Step>) {
    forall i :: 0 <= i < |more| ==> PromptStep(From(valid, s, more[..i]), more[i])
  }

  predicate PromptStep(s: State, step: Step) {
    && (step.Finish? && RequestOf(s, step.client).Editing? ==> |s.edits| < RequestOf(s, step.client).at + REVISIONS)
    && !(step.StoreCopy? && step.ok)
  }

  function Left(open: set<nat>, step: Step): set<nat> {
    open - if step.Finish? then {step.client} else {}
  }

  // The clients whose requests were under way in state s and are so still.
  function StillOpen(s: State, more: seq<Step>): set<nat> {
    if more == [] then OpenRequests(s)
    else Left(StillOpen(s, more[..|more| - 1]), more[|more| - 1])
  }

  // A request that was under way in state s is saved since.
  predicate Overwritten(valid: Config -> bool, s: State, more: seq<Step>) {
    more != []
    && (|| Overwritten(valid, s, more[..|more| - 1])
        || (&& SavesRequest(valid, From(valid, s, more[..|more| - 1]), more[|more| - 1])
            && more[|more| - 1].client in StillOpen(s, more[..|more| - 1])))
  }

  // Whatever bypasses the revision, it counts the commits.
  ghost predicate Counts(s: State) {
    && s.revision == |s.edits| % REVISIONS
    && forall c <- s.requests :: CountsRequest(s, s.requests[c])
  }

  predicate CountsRequest(s: State, r: Request) {
    r.Editing? ==> r.at <= |s.edits| && r.seen == r.at % REVISIONS
  }

  lemma NextCounts(valid: Config -> bool, s: State, step: Step)
    requires Counts(s)
    ensures Counts(Next(valid, s, step))
  {
    var t := Next(valid, s, step);
    NextRevision(|s.edits|);
    forall c <- t.requests
      ensures CountsRequest(t, t.requests[c])
    {
      assert c in s.requests ==> CountsRequest(s, s.requests[c]);
    }
  }

  lemma {:induction false} RunCounts(valid: Config -> bool, loaded: Config, steps: seq<Step>)
    ensures Counts(Run(valid, loaded, steps))
  {
    if steps != [] {
      RunCounts(valid, loaded, steps[..|steps| - 1]);
      NextCounts(valid, Run(valid, loaded, steps[..|steps| - 1]), steps[|steps| - 1]);
    }
  }

  // A prompt request is saved only if nothing was committed since its snapshot.
  lemma SavedSeesAll(valid: Config -> bool, s: State, step: Step)
    requires Counts(s) && PromptStep(s, step) && SavesRequest(valid, s, step)
    ensures RequestOf(s, step.client).at == |s.edits|
  {
    assert CountsRequest(s, s.requests[step.client]);
    SameResidue(|s.edits|, RequestOf(s, step.client).at);
  }

  // As long as no old request was saved, the heirs are the old requests. Once one was,
  // RAM is an heir, and so is every request but those that have become stale.
  ghost predicate HeirsFit(s: State, h: Heirs, open: set<nat>, lost: bool) {
    h.ram == lost && forall c <- s.requests :: HeirFits(s, s.requests[c], c in h.requests, c in open, lost)
  }

  predicate HeirFits(s: State, r: Request, heir: bool, isOld: bool, lost: bool) {
    r.Editing? ==> (isOld ==> heir) && (heir || !lost || r.at < |s.edits|) && (heir && !lost ==> isOld)
  }

  lemma NextHeirsFit(valid: Config -> bool, s: State, step: Step, h: Heirs, open: set<nat>, lost: bool)
    requires Counts(s) && PromptStep(s, step) && HeirsFit(s, h, open, lost)
    requires forall c <- open :: RequestOf(s, c).Editing?
    ensures HeirsFit(Next(valid, s, step), NextHeirs(valid, s, step, h), Left(open, step),
                     lost || (SavesRequest(valid, s, step) && step.client in open))
  {
    var t, h' := Next(valid, s, step), NextHeirs(valid, s, step, h);
    var open' := Left(open, step);
    var lost' := lost || (SavesRequest(valid, s, step) && step.client in open);
    if SavesRequest(valid, s, step) {
      SavedSeesAll(valid, s, step);
      assert HeirFits(s, s.requests[step.client], step.client in h.requests, step.client in open, lost);
    }
    forall c <- t.requests
      ensures HeirFits(t, t.requests[c], c in h'.requests, c in open', lost')
    {
      if c in s.requests {
        assert HeirFits(s, s.requests[c], c in h.requests, c in open, lost) && CountsRequest(s, s.requests[c]);
      }
    }
  }

  lemma NextOpen(valid: Config -> bool, s: State, step: Step, open: set<nat>)
    requires forall c <- open :: RequestOf(s, c).Editing?
    ensures forall c <- Left(open, step) :: RequestOf(Next(valid, s, step), c).Editing?
  {
  }

  lemma {:induction false} OverwrittenByHeirs(valid: Config -> bool, s: State, more: seq<Step>)
    requires Counts(s) && Prompt(valid, s, more)
    ensures Counts(From(valid, s, more))
    ensures forall c <- StillOpen(s, more) :: RequestOf(From(valid, s, more), c).Editing?
    ensures HeirsFit(From(valid, s, more), HeirsOf(valid, s, more), StillOpen(s, more), Overwritten(valid, s, more))
  {
    if more != [] {
      var rest, step := more[..|more| - 1], more[|more| - 1];
      var t := From(valid, s, rest);
      forall i | 0 <= i < |rest|
        ensures PromptStep(From(valid, s, rest[..i]), rest[i])
      {
        assert rest[..i] == more[..i];
      }
      OverwrittenByHeirs(valid, s, rest);
      assert more[..|rest|] == rest;
      NextCounts(valid, t, step);
      NextOpen(valid, t, step, StillOpen(s, rest));
      NextHeirsFit(valid, t, step, HeirsOf(valid, s, rest), StillOpen(s, rest), Overwritten(valid, s, rest));
    }
  }

  // After any run, a writer that bypasses the revision sets a field to a value that
  // no copy under way has. If nobody sets the field later, the identity worker saves
  // nothing, and requests finish within 2^32 commits, the value stands in the end if
  // and only if none of the requests that were under way has been saved since.
  lemma BypassSurvivesExactly(
    valid: Config -> bool, loaded: Config, before: seq<Step>, edit: Edit, more: seq<Step>, field: string)
    requires field in edit && forall i :: 0 <= i < |more| ==> field !in EditOf(more[i])
    requires NewsToAll(Run(valid, loaded, before), field, edit[field])
    requires Prompt(valid, Next(valid, Run(valid, loaded, before), Bypass(edit)), more)
    ensures var s := Next(valid, Run(valid, loaded, before), Bypass(edit));
      Shows(From(valid, s, more).ram, field, edit[field]) <==> !Overwritten(valid, s, more)
  {
    RunCounts(valid, loaded, before);
    var s := BypassSets(valid, Run(valid, loaded, before), edit, field);
    HeirIsOverwritten(valid, s, more);
    ValueStandsExactly(valid, s, more, field, edit[field]);
  }

  lemma BypassSets(valid: Config -> bool, r: State, edit: Edit, field: string) returns (s: State)
    requires Counts(r) && field in edit && NewsToAll(r, field, edit[field])
    ensures s == Next(valid, r, Bypass(edit))
    ensures Counts(s) && Shows(s.ram, field, edit[field]) && NewsToAll(s, field, edit[field])
  {
    NextCounts(valid, r, Bypass(edit));
    s := Next(valid, r, Bypass(edit));
  }

  lemma HeirIsOverwritten(valid: Config -> bool, s: State, more: seq<Step>)
    requires Counts(s) && Prompt(valid, s, more)
    ensures HeirsOf(valid, s, more).ram == Overwritten(valid, s, more)
  {
    OverwrittenByHeirs(valid, s, more);
  }

  // It does get lost: by the shortest such run.
  lemma BypassedEditIsLost(valid: Config -> bool, loaded: Config, client: nat, edit: Edit, other: Edit, field: string)
    requires field in other && field !in edit && field !in loaded
    requires valid(loaded + edit)
    ensures var s := Next(valid, Run(valid, loaded, [Begin(client, edit)]), Bypass(other));
      Overwritten(valid, s, [Finish(client, true)]) && field !in From(valid, s, [Finish(client, true)]).ram
  {
    var one := [Begin(client, edit)];
    assert one[..|one| - 1] == [];
    assert Run(valid, loaded, one) == Next(valid, Initial(loaded), Begin(client, edit));
    var last := [Finish(client, true)];
    assert last[..|last| - 1] == [];
  }
}
