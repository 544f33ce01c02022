// Ownership of the device over any sequence of boots, network requests and operator
// actions.
module DeviceRuns {
  import opened ByteSeqs
  import opened Counting
  import opened Options
  import opened Device
  import Hex

  datatype Op =
    | PowerUp(env: BootEnv)
    // whoever is on the network
    | AskChallenge                                              // auth_begin_login_challenge
    | Login(correct: bool)                                      // auth_verify_login
    | AskSalt(salt: Bytes, withSession: bool)                   // auth_new_salt_get_handler
    | SetPassword(post: PasswordPost)                           // auth_password_post_handler
    | OpenWeb(net: Net, withSession: bool)                      // config_post_handler, first half
    | SaveWeb(saveOk: bool)                                     // and second half
    // whoever is at the console or the button
    | SetField(net: Net, counts: bool)                          // gwcfg-set-*
    | SaveConfig(saveOk: bool)                                  // gwcfg-save
    | CopyIdentity                                              // gwcfg-reset-tls-identity, first half
    | StoreIdentity(identity: Option<Identity>, saveOk: bool)   // and second half
    | ReopenOnboarding(secret: Secret, saveOk: bool)            // gwcfg-reopen-onboarding
    | ResetOwner(saveOk: bool)                                  // gwcfg-reset-auth
    | ResetConfig                                               // gwcfg-reset
    | ButtonReset(saveOk: bool)                                 // factory_reset.c

  function Apply(rules: Rules, g: Gateway, op: Op): Gateway {
    match op
    case PowerUp(env) => Boot(rules, g.nvs, env)
    case AskChallenge => g.(nonce := g.nonce || g.ram.auth.passwordSet)
    case Login(correct) => g.(session := g.session || (g.nonce && correct))
    case AskSalt(salt, withSession) =>
      if g.ram.auth.passwordSet && !(withSession && g.session) then g else g.(offer := Some(salt))
    case SetPassword(post) => CommitPassword(rules, g, post).0
    case OpenWeb(net, withSession) => BeginWeb(g, net, withSession)
    case SaveWeb(saveOk) => FinishWeb(rules, g, saveOk)
    case SetField(net, counts) => SetNet(rules, g, net, counts)
    case SaveConfig(saveOk) => g.(nvs := Save(rules, g.nvs, g.ram, saveOk).0)
    case CopyIdentity => CopyForIdentity(g)
    case StoreIdentity(identity, saveOk) => FinishIdentity(rules, g, true, identity, saveOk)
    case ReopenOnboarding(secret, saveOk) => Reopen(rules, g, secret, saveOk)
    case ResetOwner(saveOk) => ResetAuth(rules, g, saveOk)
    case ResetConfig => g.(ram := Defaults(rules))
    case ButtonReset(saveOk) => FactoryReset(rules, g, saveOk)
  }

  function Run(rules: Rules, g: Gateway, ops: seq<Op>): Gateway {
    if ops == [] then g else Apply(rules, Run(rules, g, ops[..|ops| - 1]), ops[|ops| - 1])
  }

  // ------------------------------------------------- an unusable config survives

  // Needs nobody at the console or the button.
  predicate Unattended(op: Op) {
    op.PowerUp? || op.AskChallenge? || op.Login? || op.AskSalt? || op.SetPassword? || op.OpenWeb? || op.SaveWeb?
  }

  // Every boot of the run finds something it cannot use.
  ghost predicate CannotRead(rules: Rules, nvs: Stored, ops: seq<Op>) {
    forall i :: 0 <= i < |ops| && ops[i].PowerUp? ==> Unusable(rules, nvs, ops[i].env.readError)
  }

  // Recovery: no owner, the window closed, nobody logged in, and no way to.
  predicate InRecovery(g: Gateway) {
    && g.recovery && !g.ram.auth.passwordSet && g.ram.auth.everStarted && !g.ram.auth.open
    && !g.nonce && !g.session && g.web.None?
  }

  lemma BootIntoRecovery(rules: Rules, nvs: Stored, env: BootEnv)
    requires Unusable(rules, nvs, env.readError)
    ensures InRecovery(Boot(rules, nvs, env)) && Boot(rules, nvs, env).nvs == nvs
  {
  }

  lemma RecoveryStep(rules: Rules, g: Gateway, op: Op)
    requires InRecovery(g) && Unattended(op)
    requires op.PowerUp? ==> Unusable(rules, g.nvs, op.env.readError)
    ensures InRecovery(Apply(rules, g, op)) && Apply(rules, g, op).nvs == g.nvs
  {
  }

  // From any state of the device, once it has booted on a config it cannot use: any
  // number of unattended boots, logins and claims leaves the store byte-identical,
  // the window closed and nobody logged in.
  lemma {:induction false} RecoveryIsReadOnly(rules: Rules, g: Gateway, ops: seq<Op>)
    requires |ops| > 0 && ops[0].PowerUp?
    requires forall i :: 0 <= i < |ops| ==> Unattended(ops[i])
    requires CannotRead(rules, g.nvs, ops)
    ensures Run(rules, g, ops).nvs == g.nvs
    ensures InRecovery(Run(rules, g, ops)) && !WindowOpen(Run(rules, g, ops).ram)
  {
    var rest, last := ops[..|ops| - 1], ops[|ops| - 1];
    if rest == [] {
      assert Run(rules, g, rest) == g;
      BootIntoRecovery(rules, g.nvs, last.env);
    } else {
      assert rest[0] == ops[0];
      RecoveryIsReadOnly(rules, g, rest);
      RecoveryStep(rules, Run(rules, g, rest), last);
    }
  }

  // ------------------------------------------------- a closed window stays closed

  // The actions meant to open a window, now or at the next boot.
  predicate Reopens(op: Op) {
    op.ReopenOnboarding? || op.ResetOwner? || op.ResetConfig? || op.ButtonReset?
  }

  predicate Closed(c: Config) {
    c.auth.passwordSet || (c.auth.everStarted && !c.auth.open)
  }

  // No boot from this store opens a window.
  predicate StoreClosed(rules: Rules, nvs: Stored) {
    !nvs.Missing? && (nvs.Blob? && Usable(rules, nvs.config) ==> Closed(nvs.config))
  }

  // The live window is closed, and so is any that a boot would find.
  predicate Shut(rules: Rules, g: Gateway) {
    Closed(g.ram) && StoreClosed(rules, g.nvs)
  }

  // The write-back of an identity worker that holds this copy saves it.
  predicate StoresCopy(rules: Rules, copy: Config, op: Op) {
    op.StoreIdentity? && op.identity.Some? && op.saveOk && Valid(rules, copy)
  }

  // So does that of a web request.
  predicate StoresWeb(rules: Rules, copy: Config, op: Op) {
    op.SaveWeb? && op.saveOk && Valid(rules, copy)
  }

  predicate EndsWorker(op: Op) {
    op.StoreIdentity? || op.PowerUp?
  }

  predicate OpenCopy(g: Gateway) {
    g.worker.Some? && !Closed(g.worker.value)
  }

  predicate OpenRequest(g: Gateway) {
    g.web.Some? && !Closed(g.web.value)
  }

  // A copy is saved that was taken while the window was not closed.
  predicate SavesOpen(rules: Rules, g: Gateway, op: Op) {
    || (OpenCopy(g) && StoresCopy(rules, g.worker.value, op))
    || (OpenRequest(g) && StoresWeb(rules, g.web.value, op))
  }

  // The worker that holds this copy when the run begins saves it.
  predicate SavedLate(rules: Rules, copy: Config, ops: seq<Op>) {
    exists i :: 0 <= i < |ops| && StoresCopy(rules, copy, ops[i]) && forall j :: 0 <= j < i ==> !EndsWorker(ops[j])
  }

  lemma ShutBoot(rules: Rules, nvs: Stored, env: BootEnv)
    requires StoreClosed(rules, nvs)
    ensures Shut(rules, Boot(rules, nvs, env))
  {
  }

  lemma BootHasNoCopy(rules: Rules, nvs: Stored, env: BootEnv)
    ensures Boot(rules, nvs, env).worker.None? && Boot(rules, nvs, env).web.None?
  {
  }

  lemma ShutStore(rules: Rules, g: Gateway, op: Op)
    requires Shut(rules, g) && (op.StoreIdentity? || op.SaveWeb?) && !SavesOpen(rules, g, op)
    ensures Shut(rules, Apply(rules, g, op))
  {
  }

  predicate WritesBack(op: Op) {
    op.PowerUp? || op.StoreIdentity? || op.SaveWeb?
  }

  lemma ShutRequest(rules: Rules, g: Gateway, op: Op)
    requires Shut(rules, g) && !Reopens(op) && !WritesBack(op)
    ensures Shut(rules, Apply(rules, g, op))
  {
  }

  lemma ShutStep(rules: Rules, g: Gateway, op: Op)
    requires Shut(rules, g) && !Reopens(op) && !SavesOpen(rules, g, op)
    ensures Shut(rules, Apply(rules, g, op))
  {
    if op.PowerUp? {
      ShutBoot(rules, g.nvs, op.env);
    } else if WritesBack(op) {
      ShutStore(rules, g, op);
    } else {
      ShutRequest(rules, g, op);
    }
  }

  // What a step does to the two copies: nothing, drop one, or take one of RAM.
  lemma CopyStep(rules: Rules, g: Gateway, op: Op)
    ensures var after := Apply(rules, g, op);
      && (after.worker == g.worker || after.worker.None? || after.worker == Some(g.ram))
      && (after.worker.Some? && after.worker == g.worker ==> !EndsWorker(op))
      && (after.web == g.web || after.web.None? || (after.web.Some? && after.web.value.auth == g.ram.auth))
      && (g.worker.Some? && !EndsWorker(op) ==> after.worker == g.worker)
  {
    if op.PowerUp? {
      BootHasNoCopy(rules, g.nvs, op.env);
    }
  }

  // Only a copy from before the run can be of an open window.
  lemma {:induction false} ShutUnlessSavedLate(rules: Rules, g: Gateway, ops: seq<Op>)
    requires Shut(rules, g) && !OpenRequest(g) && forall i :: 0 <= i < |ops| ==> !Reopens(ops[i])
    requires !(OpenCopy(g) && SavedLate(rules, g.worker.value, ops))
    ensures Shut(rules, Run(rules, g, ops)) && !OpenRequest(Run(rules, g, ops))
    ensures OpenCopy(Run(rules, g, ops)) ==>
      OpenCopy(g) && Run(rules, g, ops).worker == g.worker && forall i :: 0 <= i < |ops| ==> !EndsWorker(ops[i])
  {
    if ops != [] {
      var rest, op := ops[..|ops| - 1], ops[|ops| - 1];
      SavedSooner(rules, ops, |rest|);
      ShutUnlessSavedLate(rules, g, rest);
      ShutStep(rules, Run(rules, g, rest), op);
      CopyStep(rules, Run(rules, g, rest), op);
    }
  }

  lemma SavedSooner(rules: Rules, ops: seq<Op>, k: nat)
    requires k <= |ops|
    ensures forall copy :: SavedLate(rules, copy, ops[..k]) ==> SavedLate(rules, copy, ops)
  {
    forall copy | SavedLate(rules, copy, ops[..k])
      ensures SavedLate(rules, copy, ops)
    {
      var i :| 0 <= i < k && StoresCopy(rules, copy, ops[..k][i])
        && forall j :: 0 <= j < i ==> !EndsWorker(ops[..k][j]);
      assert forall j :: 0 <= j < i ==> ops[..k][j] == ops[j];
      assert StoresCopy(rules, copy, ops[i]);
    }
  }

  lemma {:induction false} CopyIsKept(rules: Rules, g: Gateway, ops: seq<Op>)
    requires g.worker.Some? && forall i :: 0 <= i < |ops| ==> !EndsWorker(ops[i])
    ensures Run(rules, g, ops).worker == g.worker
  {
    if ops != [] {
      CopyIsKept(rules, g, ops[..|ops| - 1]);
      CopyStep(rules, Run(rules, g, ops[..|ops| - 1]), ops[|ops| - 1]);
    }
  }

  ghost predicate ShutThroughout(rules: Rules, g: Gateway, ops: seq<Op>) {
    forall k :: 0 <= k <= |ops| ==> Shut(rules, Run(rules, g, ops[..k]))
  }

  lemma RunTo(rules: Rules, g: Gateway, ops: seq<Op>, k: nat)
    requires k < |ops|
    ensures Run(rules, g, ops[..k + 1]) == Apply(rules, Run(rules, g, ops[..k]), ops[k])
  {
    assert ops[..k + 1][..k] == ops[..k];
  }

  lemma SavingOpens(rules: Rules, g: Gateway, op: Op)
    requires SavesOpen(rules, g, op)
    ensures !Shut(rules, Apply(rules, g, op))
  {
  }

  lemma {:induction false} ShutWhileNoneSavesOpen(rules: Rules, g: Gateway, ops: seq<Op>, k: nat)
    requires Shut(rules, g) && forall i :: 0 <= i < |ops| ==> !Reopens(ops[i])
    requires forall i :: 0 <= i < |ops| ==> !SavesOpen(rules, Run(rules, g, ops[..i]), ops[i])
    requires k <= |ops|
    ensures Shut(rules, Run(rules, g, ops[..k]))
  {
    if k > 0 {
      ShutWhileNoneSavesOpen(rules, g, ops, k - 1);
      RunTo(rules, g, ops, k - 1);
      ShutStep(rules, Run(rules, g, ops[..k - 1]), ops[k - 1]);
    }
  }

  // Through any boots, requests and console commands other than the four, saved or
  // not, a closed window stays closed if and only if no web request and no identity
  // worker ever saves a copy that is not of a closed window.
  lemma ClosedStaysClosed(rules: Rules, g: Gateway, ops: seq<Op>)
    requires Shut(rules, g) && forall i :: 0 <= i < |ops| ==> !Reopens(ops[i])
    ensures ShutThroughout(rules, g, ops)
      <==> forall i :: 0 <= i < |ops| ==> !SavesOpen(rules, Run(rules, g, ops[..i]), ops[i])
    ensures ShutThroughout(rules, g, ops) ==> !WindowOpen(Run(rules, g, ops).ram)
  {
    if i :| 0 <= i < |ops| && SavesOpen(rules, Run(rules, g, ops[..i]), ops[i]) {
      SavingOpens(rules, Run(rules, g, ops[..i]), ops[i]);
      RunTo(rules, g, ops, i);
    } else {
      forall k | 0 <= k <= |ops|
        ensures Shut(rules, Run(rules, g, ops[..k]))
      {
        ShutWhileNoneSavesOpen(rules, g, ops, k);
      }
    }
    assert ops[..|ops|] == ops;
  }

  // Such a copy is always from before the run: with no web request under way that
  // holds one, the window stays closed if and only if the identity worker under way,
  // if any, does not save one. With neither it just stays closed.
  lemma OnlyEarlierCopiesOpen(rules: Rules, g: Gateway, ops: seq<Op>)
    requires Shut(rules, g) && !OpenRequest(g) && forall i :: 0 <= i < |ops| ==> !Reopens(ops[i])
    ensures ShutThroughout(rules, g, ops) <==> !(OpenCopy(g) && SavedLate(rules, g.worker.value, ops))
  {
    if OpenCopy(g) && SavedLate(rules, g.worker.value, ops) {
      var i :| 0 <= i < |ops| && StoresCopy(rules, g.worker.value, ops[i])
        && forall j :: 0 <= j < i ==> !EndsWorker(ops[j]);
      CopyIsKept(rules, g, ops[..i]);
      SavingOpens(rules, Run(rules, g, ops[..i]), ops[i]);
      RunTo(rules, g, ops, i);
    } else {
      forall k | 0 <= k <= |ops|
        ensures Shut(rules, Run(rules, g, ops[..k]))
      {
        SavedSooner(rules, ops, k);
        ShutUnlessSavedLate(rules, g, ops[..k]);
      }
    }
  }

  // ------------------------------------------------- the boot budget

  // The store is up to date as far as ownership goes.
  predicate Synced(rules: Rules, g: Gateway) {
    g.nvs.Blob? && Usable(rules, g.nvs.config) && g.nvs.config.auth == g.ram.auth
  }

  predicate KeepsAuth(auth: Ownership, left: nat) {
    !auth.passwordSet && auth.everStarted && auth.bootsLeft == left && (auth.open <==> left > 0)
  }

  // A copy of a closed window, or of one that has some boots left.
  predicate Settled(copy: Option<Config>) {
    copy.Some? ==> Closed(copy.value) || KeepsAuth(copy.value.auth, copy.value.auth.bootsLeft)
  }

  // A window is open and saved, with some boots left. Copies from before may still be
  // under way, but none of a window that never started.
  predicate JustOpen(rules: Rules, g: Gateway) {
    && Synced(rules, g) && WindowOpen(g.ram) && g.ram.auth.everStarted && g.ram.auth.bootsLeft > 0
    && Settled(g.worker) && Settled(g.web)
  }

  // What became of the boots of an open window: how many of them the store has
  // counted, whether the present one is counted in RAM only, whether the present
  // boot did not read the store, and whether the window was closed early. `copy` and
  // `web` are what the ledger will say if the identity worker or the web request
  // under way saves its copy. (A copy of another window may have more boots left than
  // this one had: then `spent` is below zero.)
  datatype Ledger = Ledger(
    spent: int, pending: bool, blind: bool, shut: bool, copy: Option<Entry>, web: Option<Entry>)

  datatype Entry = Entry(spent: int, shut: bool)

  // One of the two saves of a boot that reads the store stores the window.
  predicate BootSaves(nvs: Stored, env: BootEnv) {
    env.authSaveOk || (nvs.Blob? && nvs.config.identity.None? && env.identity.Some? && env.identitySaveOk)
  }

  // What a copy of the live configuration amounts to, once it is saved.
  function EntryOf(l: Ledger): Entry {
    Entry(if l.pending then l.spent + 1 else l.spent, l.shut || l.blind)
  }

  function Posted(l: Ledger, e: Entry): Ledger {
    l.(spent := e.spent, pending := false, blind := false, shut := e.shut)
  }

  function NextLedger(rules: Rules, g: Gateway, op: Op, l: Ledger, budget: nat): Ledger {
    match op
    case PowerUp(env) => BootLedger(g.nvs, env, l.(copy := None, web := None), budget)
    case SetPassword(post) =>
      if CommitPassword(rules, g, post).1.PasswordSet?
      then l.(shut := true, pending := false, blind := false, web := None) else l
    case SaveConfig(saveOk) => if saveOk && Valid(rules, g.ram) then Posted(l, EntryOf(l)) else l
    case SetField(net, counts) => if counts && Valid(rules, g.ram.(net := net)) then l.(web := None) else l
    case OpenWeb(_, withSession) =>
      if withSession && g.session && g.web.None? then l.(web := Some(EntryOf(l))) else l
    case SaveWeb(_) =>
      var done := l.(web := None);
      if l.web.Some? && g.web.Some? && StoresWeb(rules, g.web.value, op) then Posted(done, l.web.value) else done
    case CopyIdentity => if g.worker.None? then l.(copy := Some(EntryOf(l))) else l
    case StoreIdentity(_, _) =>
      var done := l.(copy := None);
      if l.copy.Some? && g.worker.Some? && StoresCopy(rules, g.worker.value, op)
      then Posted(done, l.copy.value) else done
    case _ => l
  }

  function BootLedger(nvs: Stored, env: BootEnv, l: Ledger, budget: nat): Ledger {
    if l.shut then l
    else if env.readError then l.(pending := false, blind := true)
    else if l.spent >= budget then l.(pending := false, blind := false)
    else if BootSaves(nvs, env) then l.(spent := l.spent + 1, pending := false, blind := false)
    else l.(pending := true, blind := false)
  }

  function FirstEntry(copy: Option<Config>, budget: nat): Option<Entry> {
    if copy.None? then None else Some(Entry(
      if Closed(copy.value) then 0 else budget - copy.value.auth.bootsLeft, Closed(copy.value)))
  }

  function FirstLedger(g: Gateway): Ledger {
    var budget := g.ram.auth.bootsLeft;
    Ledger(0, false, false, false, FirstEntry(g.worker, budget), FirstEntry(g.web, budget))
  }

  function Tally(rules: Rules, g: Gateway, ops: seq<Op>): Ledger {
    if ops == [] then FirstLedger(g)
    else
      var rest := ops[..|ops| - 1];
      NextLedger(rules, Run(rules, g, rest), ops[|ops| - 1], Tally(rules, g, rest), g.ram.auth.bootsLeft)
  }

  ghost predicate StoreKeeps(rules: Rules, nvs: Stored, left: nat) {
    nvs.Blob? && Usable(rules, nvs.config) && KeepsAuth(nvs.config.auth, left)
  }

  // The ledger accounts for the store and for the live window,
  ghost predicate Accounts(rules: Rules, g: Gateway, l: Ledger, budget: nat) {
    && l.spent <= budget && (l.blind || l.shut ==> !l.pending)
    && (l.shut ==> Shut(rules, g))
    && (!l.shut ==>
          && StoreKeeps(rules, g.nvs, budget - l.spent)
          && (l.blind ==> !g.ram.auth.passwordSet && g.ram.auth.everStarted && !g.ram.auth.open)
          && (!l.blind && !l.pending ==> g.ram.auth == g.nvs.config.auth)
          && (!l.blind && l.pending ==> l.spent < budget && g.ram.auth == SpendBoot(g.nvs.config.auth)))
  }

  // and for the copies that the identity worker and the web request hold.
  ghost predicate CopyAccounts(copy: Option<Config>, e: Option<Entry>, budget: nat) {
    && (copy.Some? <==> e.Some?)
    && (e.Some? ==> e.value.spent <= budget)
    && (e.Some? && e.value.shut ==> Closed(copy.value))
    && (e.Some? && !e.value.shut ==> KeepsAuth(copy.value.auth, budget - e.value.spent))
  }

  ghost predicate AllAccounts(rules: Rules, g: Gateway, l: Ledger, budget: nat) {
    Accounts(rules, g, l, budget) && CopyAccounts(g.worker, l.copy, budget) && CopyAccounts(g.web, l.web, budget)
  }

  lemma BootAccounts(rules: Rules, g: Gateway, env: BootEnv, l: Ledger, budget: nat)
    requires Accounts(rules, g, l, budget) && !l.shut
    ensures Accounts(rules, Boot(rules, g.nvs, env),
                     BootLedger(g.nvs, env, l.(copy := None, web := None), budget), budget)
  {
    if !env.readError {
      var loaded := Gateway(g.nvs, g.nvs.config, false, false, false, None, None, None);
      var ready := AuthInit(rules, loaded, env.secret, env.authSaveOk);
      assert Boot(rules, g.nvs, env) == IdentityInit(rules, ready, env.identity, env.identitySaveOk);
    }
  }

  lemma CopySaved(rules: Rules, g: Gateway, op: Op)
    requires g.worker.Some? && StoresCopy(rules, g.worker.value, op)
    ensures Apply(rules, g, op).worker.None? && Apply(rules, g, op).ram.auth == g.worker.value.auth
    ensures Synced(rules, Apply(rules, g, op)) && Apply(rules, g, op).web == g.web
  {
  }

  lemma CopyDropped(rules: Rules, g: Gateway, op: Op)
    requires op.StoreIdentity? && !(g.worker.Some? && StoresCopy(rules, g.worker.value, op))
    ensures Apply(rules, g, op) == g.(worker := None)
  {
  }

  lemma StoreAccounts(rules: Rules, g: Gateway, op: Op, l: Ledger, budget: nat)
    requires AllAccounts(rules, g, l, budget) && op.StoreIdentity?
    ensures AllAccounts(rules, Apply(rules, g, op), NextLedger(rules, g, op, l, budget), budget)
  {
    if g.worker.Some? && StoresCopy(rules, g.worker.value, op) {
      CopySaved(rules, g, op);
    } else {
      CopyDropped(rules, g, op);
    }
  }

  lemma WebSaved(rules: Rules, g: Gateway, op: Op)
    requires g.web.Some? && StoresWeb(rules, g.web.value, op)
    ensures Apply(rules, g, op).web.None? && Apply(rules, g, op).ram.auth == g.web.value.auth
    ensures Synced(rules, Apply(rules, g, op)) && Apply(rules, g, op).worker == g.worker
  {
  }

  lemma WebDropped(rules: Rules, g: Gateway, op: Op)
    requires op.SaveWeb? && !(g.web.Some? && StoresWeb(rules, g.web.value, op))
    ensures Apply(rules, g, op) == g.(web := None)
  {
  }

  lemma WebAccounts(rules: Rules, g: Gateway, op: Op, l: Ledger, budget: nat)
    requires AllAccounts(rules, g, l, budget) && op.SaveWeb?
    ensures AllAccounts(rules, Apply(rules, g, op), NextLedger(rules, g, op, l, budget), budget)
  {
    if g.web.Some? && StoresWeb(rules, g.web.value, op) {
      WebSaved(rules, g, op);
    } else {
      WebDropped(rules, g, op);
    }
  }

  // A copy taken now is one of the entry that the ledger makes now.
  lemma TakenAccounts(rules: Rules, g: Gateway, l: Ledger, budget: nat, copy: Config)
    requires Accounts(rules, g, l, budget) && copy.auth == g.ram.auth
    ensures CopyAccounts(Some(copy), Some(EntryOf(l)), budget)
  {
  }

  lemma PasswordAccounts(rules: Rules, g: Gateway, op: Op, l: Ledger, budget: nat)
    requires AllAccounts(rules, g, l, budget) && op.SetPassword?
    ensures AllAccounts(rules, Apply(rules, g, op), NextLedger(rules, g, op, l, budget), budget)
  {
    if l.shut {
      ShutRequest(rules, g, op);
    }
  }

  lemma SaveAccounts(rules: Rules, g: Gateway, op: Op, l: Ledger, budget: nat)
    requires AllAccounts(rules, g, l, budget) && op.SaveConfig?
    ensures AllAccounts(rules, Apply(rules, g, op), NextLedger(rules, g, op, l, budget), budget)
  {
  }

  // The ledger's accounts are of the store and of the ownership in RAM alone.
  lemma SameAccounts(rules: Rules, g: Gateway, after: Gateway, l: Ledger, l': Ledger, budget: nat)
    requires Accounts(rules, g, l, budget) && after.ram.auth == g.ram.auth && after.nvs == g.nvs
    requires l' == l.(copy := l'.copy, web := l'.web)
    ensures Accounts(rules, after, l', budget)
  {
  }

  lemma TakingStep(rules: Rules, g: Gateway, op: Op)
    requires op.OpenWeb? || op.CopyIdentity?
    ensures Apply(rules, g, op).ram == g.ram && Apply(rules, g, op).nvs == g.nvs
  {
  }

  lemma TakingAccounts(rules: Rules, g: Gateway, op: Op, l: Ledger, budget: nat)
    requires AllAccounts(rules, g, l, budget) && (op.OpenWeb? || op.CopyIdentity?)
    ensures AllAccounts(rules, Apply(rules, g, op), NextLedger(rules, g, op, l, budget), budget)
  {
    TakingStep(rules, g, op);
    SameAccounts(rules, g, Apply(rules, g, op), l, NextLedger(rules, g, op, l, budget), budget);
    TakenAccounts(rules, g, l, budget, if op.OpenWeb? then g.ram.(net := op.net) else g.ram);
  }

  // Requests and commands that leave ownership and store alone.
  predicate Bystander(op: Op) {
    op.AskChallenge? || op.Login? || op.AskSalt? || op.SetField?
  }

  lemma BystanderStep(rules: Rules, g: Gateway, op: Op, l: Ledger, budget: nat)
    requires Bystander(op)
    ensures var after, l' := Apply(rules, g, op), NextLedger(rules, g, op, l, budget);
      && after.ram.auth == g.ram.auth && after.nvs == g.nvs && after.worker == g.worker && l'.copy == l.copy
      && l' == l.(web := l'.web)
      && ((after.web == g.web && l'.web == l.web) || (after.web.None? && l'.web.None?))
  {
  }

  lemma BystanderAccounts(rules: Rules, g: Gateway, op: Op, l: Ledger, budget: nat)
    requires AllAccounts(rules, g, l, budget) && Bystander(op)
    ensures AllAccounts(rules, Apply(rules, g, op), NextLedger(rules, g, op, l, budget), budget)
  {
    BystanderStep(rules, g, op, l, budget);
    SameAccounts(rules, g, Apply(rules, g, op), l, NextLedger(rules, g, op, l, budget), budget);
  }

  lemma StepAccounts(rules: Rules, g: Gateway, op: Op, l: Ledger, budget: nat)
    requires AllAccounts(rules, g, l, budget) && !Reopens(op)
    ensures AllAccounts(rules, Apply(rules, g, op), NextLedger(rules, g, op, l, budget), budget)
  {
    match op
    case PowerUp(env) =>
      if l.shut {
        ShutBoot(rules, g.nvs, env);
      } else {
        BootAccounts(rules, g, env, l, budget);
      }
      BootHasNoCopy(rules, g.nvs, env);
    case StoreIdentity(_, _) => StoreAccounts(rules, g, op, l, budget);
    case SaveWeb(_) => WebAccounts(rules, g, op, l, budget);
    case SetPassword(_) => PasswordAccounts(rules, g, op, l, budget);
    case SaveConfig(_) => SaveAccounts(rules, g, op, l, budget);
    case OpenWeb(_, _) => TakingAccounts(rules, g, op, l, budget);
    case CopyIdentity => TakingAccounts(rules, g, op, l, budget);
    case _ => BystanderAccounts(rules, g, op, l, budget);
  }

  lemma {:induction false} RunAccounts(rules: Rules, g: Gateway, ops: seq<Op>)
    requires JustOpen(rules, g) && forall i :: 0 <= i < |ops| ==> !Reopens(ops[i])
    ensures AllAccounts(rules, Run(rules, g, ops), Tally(rules, g, ops), g.ram.auth.bootsLeft)
  {
    if ops != [] {
      var rest := ops[..|ops| - 1];
      RunAccounts(rules, g, rest);
      StepAccounts(rules, Run(rules, g, rest), ops[|ops| - 1], Tally(rules, g, rest), g.ram.auth.bootsLeft);
    }
  }

  // Over any run without the four reopening actions, with any saves and reads
  // failing: the window is open if and only if nothing closed it for good, the
  // present boot has read the store, and the boots that the store has counted, with
  // the present one if only RAM counts it, are fewer than the budget; and unless it
  // was closed for good the store has exactly the uncounted boots left.
  lemma WindowExactly(rules: Rules, g: Gateway, ops: seq<Op>)
    requires JustOpen(rules, g) && forall i :: 0 <= i < |ops| ==> !Reopens(ops[i])
    ensures var l, budget := Tally(rules, g, ops), g.ram.auth.bootsLeft;
      && (WindowOpen(Run(rules, g, ops).ram) <==>
            !l.shut && !l.blind && l.spent + (if l.pending then 1 else 0) < budget)
      && l.spent <= budget
      && (!l.shut ==> StoreKeeps(rules, Run(rules, g, ops).nvs, budget - l.spent))
  {
    RunAccounts(rules, g, ops);
  }

  // The boots that read the store and save the window.
  function SavedBoots(ops: seq<Op>): nat {
    if ops == [] then 0
    else
      var op := ops[|ops| - 1];
      SavedBoots(ops[..|ops| - 1]) + if op.PowerUp? && !op.env.readError && op.env.authSaveOk then 1 else 0
  }

  lemma {:induction false} BootsTally(rules: Rules, g: Gateway, boots: seq<Op>)
    requires JustOpen(rules, g) && g.nvs.config.identity.Some?
    requires forall i :: 0 <= i < |boots| ==> boots[i].PowerUp?
    ensures Run(rules, g, boots).nvs.Blob? && Run(rules, g, boots).nvs.config.identity.Some?
    ensures !Tally(rules, g, boots).shut
    ensures Tally(rules, g, boots).spent == Min(SavedBoots(boots), g.ram.auth.bootsLeft)
  {
    if boots != [] {
      var rest := boots[..|boots| - 1];
      BootsTally(rules, g, rest);
      RunAccounts(rules, g, rest);
      BootKeepsIdentity(rules, Run(rules, g, rest).nvs, boots[|boots| - 1].env);
    }
  }

  lemma BootKeepsIdentity(rules: Rules, nvs: Stored, env: BootEnv)
    requires nvs.Blob? && Usable(rules, nvs.config) && nvs.config.identity.Some?
    ensures Boot(rules, nvs, env).nvs.Blob? && Boot(rules, nvs, env).nvs.config.identity.Some?
  {
  }

  // In closed form, for any boots of a device that has its identity, whichever of
  // their reads and saves fail: the stored budget is what it was less the saved
  // boots, and the window is open after the last boot if and only if that boot has
  // read the store and finds more than one boot left there.
  lemma BootsExactly(rules: Rules, g: Gateway, boots: seq<Op>)
    requires JustOpen(rules, g) && g.nvs.config.identity.Some? && boots != []
    requires forall i :: 0 <= i < |boots| ==> boots[i].PowerUp?
    ensures var budget := g.ram.auth.bootsLeft;
      && StoreKeeps(rules, Run(rules, g, boots).nvs, budget - Min(SavedBoots(boots), budget))
      && (WindowOpen(Run(rules, g, boots).ram) <==>
            !boots[|boots| - 1].env.readError && 1 + SavedBoots(boots[..|boots| - 1]) < budget)
  {
    var rest, last := boots[..|boots| - 1], boots[|boots| - 1];
    BootsTally(rules, g, boots);
    BootsTally(rules, g, rest);
    WindowExactly(rules, g, boots);
    assert Tally(rules, g, boots)
      == NextLedger(rules, Run(rules, g, rest), last, Tally(rules, g, rest), g.ram.auth.bootsLeft);
  }

  function Boots(ops: seq<Op>): nat {
    if ops == [] then 0
    else Boots(ops[..|ops| - 1]) + if ops[|ops| - 1].PowerUp? then 1 else 0
  }

  // The boot reads the store and saves the window's state.
  predicate GoodBoot(op: Op) {
    op.PowerUp? ==> !op.env.readError && op.env.authSaveOk
  }

  predicate EntryIs(e: Option<Entry>, spent: nat) {
    e.Some? && !e.value.shut ==> e.value.spent == spent
  }

  // The ledger says "closed", now or of a copy.
  predicate AnyShut(l: Ledger) {
    l.shut || (l.copy.Some? && l.copy.value.shut) || (l.web.Some? && l.web.value.shut)
  }

  lemma GoodStep(rules: Rules, g: Gateway, op: Op, l: Ledger, budget: nat, boots: nat)
    requires AllAccounts(rules, g, l, budget) && !l.pending && !l.blind && GoodBoot(op)
    requires !l.shut ==> l.spent == Min(boots, budget)
    requires EntryIs(l.copy, Min(boots, budget)) && EntryIs(l.web, Min(boots, budget))
    ensures var l', spent := NextLedger(rules, g, op, l, budget), Min(if op.PowerUp? then boots + 1 else boots, budget);
      && !l'.pending && !l'.blind
      && (!l'.shut ==> l'.spent == spent)
      && EntryIs(l'.copy, spent) && EntryIs(l'.web, spent)
      && (AnyShut(l') ==> AnyShut(l) || op.SetPassword?)
  {
  }

  lemma {:induction false} GoodTally(rules: Rules, g: Gateway, ops: seq<Op>)
    requires JustOpen(rules, g) && g.worker.None? && g.web.None?
    requires forall i :: 0 <= i < |ops| ==> !Reopens(ops[i]) && GoodBoot(ops[i])
    ensures var l, spent := Tally(rules, g, ops), Min(Boots(ops), g.ram.auth.bootsLeft);
      && !l.pending && !l.blind
      && (!l.shut ==> l.spent == spent)
      && EntryIs(l.copy, spent) && EntryIs(l.web, spent)
      && (AnyShut(l) ==> exists i :: 0 <= i < |ops| && ops[i].SetPassword?)
  {
    if ops != [] {
      var rest, op := ops[..|ops| - 1], ops[|ops| - 1];
      GoodTally(rules, g, rest);
      RunAccounts(rules, g, rest);
      GoodStep(rules, Run(rules, g, rest), op, Tally(rules, g, rest), g.ram.auth.bootsLeft, Boots(rest));
      if AnyShut(Tally(rules, g, ops)) && !op.SetPassword? {
        var i :| 0 <= i < |rest| && rest[i].SetPassword?;
        assert ops[i].SetPassword?;
      }
    }
  }

  // So a window that was just opened, and saved, with no copies under way, is open on
  // at most ten boots that read and save, the one that opened it included; on exactly
  // these, if nobody sends a password.
  lemma OpenOnTenBoots(rules: Rules, g: Gateway, ops: seq<Op>)
    requires JustOpen(rules, g) && g.ram.auth.bootsLeft == BOOT_BUDGET && g.worker.None? && g.web.None?
    requires forall i :: 0 <= i < |ops| ==> !Reopens(ops[i]) && GoodBoot(ops[i])
    ensures WindowOpen(Run(rules, g, ops).ram) ==> 1 + Boots(ops) <= BOOT_BUDGET
    ensures (forall i :: 0 <= i < |ops| ==> !ops[i].SetPassword?) && 1 + Boots(ops) <= BOOT_BUDGET
      ==> WindowOpen(Run(rules, g, ops).ram)
  {
    WindowExactly(rules, g, ops);
    GoodTally(rules, g, ops);
  }

  // Such a window opens on a device that has no config at all, or one that was reset.
  lemma FreshBootOpens(rules: Rules, nvs: Stored, env: BootEnv)
    requires !env.readError && env.authSaveOk
    requires (nvs.Missing? && rules.netOk(rules.defaultNet))
          || (nvs.Blob? && Usable(rules, nvs.config) && nvs.config.auth == NO_OWNER)
    ensures Synced(rules, Boot(rules, nvs, env)) && WindowOpen(Boot(rules, nvs, env).ram)
    ensures Boot(rules, nvs, env).ram.auth.everStarted
    ensures Boot(rules, nvs, env).ram.auth.bootsLeft == BOOT_BUDGET
    ensures Boot(rules, nvs, env).ram.auth.secret == env.secret
  {
  }

  // A new code at the console opens such a window at once, on an unowned device in
  // whatever state - recovery included - and touches nothing else; an owned device
  // refuses it.
  lemma ReopenOpens(rules: Rules, g: Gateway, secret: Secret, saveOk: bool)
    ensures var after := Apply(rules, g, ReopenOnboarding(secret, saveOk));
      if g.ram.auth.passwordSet then after == g
      else && WindowOpen(after.ram) && after.ram.auth.everStarted
           && after.ram.auth.bootsLeft == 10 && after.ram.auth.secret == secret
           && after.ram.net == g.ram.net && after.ram.identity == g.ram.identity
           && after == g.(ram := after.ram, nvs := after.nvs)
           && after.nvs == if saveOk && rules.netOk(g.ram.net) then Blob(after.ram.(stamped := true)) else g.nvs
  {
  }

  // The button, once its save succeeds, makes any device a new one: whatever was
  // stored before, the next boot opens a window with that boot's secret, and nobody
  // is logged in. If the save fails, RAM is as new, and the store as it was.
  lemma ButtonStartsOver(rules: Rules, g: Gateway, env: BootEnv)
    requires rules.netOk(rules.defaultNet) && !env.readError && env.authSaveOk
    ensures var after := Boot(rules, Apply(rules, g, ButtonReset(true)).nvs, env);
      && Synced(rules, after) && WindowOpen(after.ram) && !after.session && !after.nonce
      && after.ram.auth.bootsLeft == BOOT_BUDGET && after.ram.auth.secret == env.secret
      && after.ram.net == rules.defaultNet
    ensures var after := Apply(rules, g, ButtonReset(false));
      && !after.ram.auth.passwordSet && !after.ram.auth.everStarted && after.ram.identity.None?
      && after.ram.net == rules.defaultNet && after.nvs == g.nvs
  {
    FreshBootOpens(rules, FactoryReset(rules, g, true).nvs, env);
  }

  // gwcfg-reset is the same in RAM alone.
  lemma ConfigResetIsInRam(rules: Rules, g: Gateway)
    ensures Apply(rules, g, ResetConfig) == g.(ram := Apply(rules, g, ButtonReset(false)).ram)
  {
  }

  // Clearing the owner at the console ends all sessions at once and keeps the other
  // settings; the window opens with the next boot.
  lemma ClearedOwnerReopensAtBoot(rules: Rules, g: Gateway, env: BootEnv)
    requires rules.netOk(g.ram.net) && !env.readError && env.authSaveOk
    ensures var cleared := Apply(rules, g, ResetOwner(true));
      && !cleared.session && !WindowOpen(cleared.ram) && !cleared.ram.auth.passwordSet
      && cleared.ram.net == g.ram.net && cleared.ram.identity == g.ram.identity
    ensures var after := Boot(rules, Apply(rules, g, ResetOwner(true)).nvs, env);
      WindowOpen(after.ram) && after.ram.auth.bootsLeft == BOOT_BUDGET && after.ram.net == g.ram.net
    ensures Apply(rules, g, ResetOwner(false)) == Apply(rules, g, ResetOwner(true)).(nvs := g.nvs)
  {
    var c := ClearedStore(rules, g);
    FreshBootOpens(rules, Blob(c), env);
    BootKeepsSettings(rules, c, env);
  }

  lemma ClearedStore(rules: Rules, g: Gateway) returns (c: Config)
    requires rules.netOk(g.ram.net)
    ensures ResetAuth(rules, g, true).nvs == Blob(c)
    ensures Usable(rules, c) && c.auth == NO_OWNER && c.net == g.ram.net
  {
    c := ResetAuth(rules, g, true).nvs.config;
  }

  lemma BootKeepsSettings(rules: Rules, c: Config, env: BootEnv)
    requires Usable(rules, c) && !env.readError
    ensures Boot(rules, Blob(c), env).ram.net == c.net
  {
  }

  // ------------------------------------------------- what a boot finds

  // The stored configuration is this firmware's, its settings are in order, and an
  // owner's key is one that can be checked.
  predicate Readable(rules: Rules, nvs: Stored) {
    && nvs.Blob? && nvs.config.stamped && rules.netOk(nvs.config.net)
    && (nvs.config.auth.passwordSet ==> nvs.config.auth.iterations > 0)
  }

  // A boot goes into recovery if and only if there is something stored that it cannot
  // read or use. It starts from the stored configuration if it can use that, and else
  // without an owner; RAM always bears this firmware's stamp, and nothing is pending
  // from before.
  lemma BootFinds(rules: Rules, nvs: Stored, env: BootEnv)
    ensures var after := Boot(rules, nvs, env);
      && (after.recovery <==> env.readError || (!nvs.Missing? && !Readable(rules, nvs)))
      && (!after.recovery && nvs.Blob? ==>
            after.ram.net == nvs.config.net
            && (nvs.config.auth.passwordSet ==> after.ram.auth == nvs.config.auth)
            && (nvs.config.identity.Some? ==> after.ram.identity == nvs.config.identity))
      && (after.recovery || nvs.Missing? ==> !after.ram.auth.passwordSet && after.ram.net == rules.defaultNet)
      && after.ram.stamped && !after.nonce && !after.session
      && after.offer.None? && after.worker.None? && after.web.None?
  {
  }

  // An owned device boots as it is, and writes nothing, once it has an identity.
  lemma OwnedBootWritesNothing(rules: Rules, nvs: Stored, env: BootEnv)
    requires Readable(rules, nvs) && nvs.config.auth.passwordSet && nvs.config.identity.Some? && !env.readError
    ensures Boot(rules, nvs, env).ram == nvs.config && Boot(rules, nvs, env).nvs == nvs
  {
  }

  // On an unowned device a boot opens the window the first time, takes one boot off an
  // open one and closes it with the last, and leaves a closed one alone; the code of a
  // window that stays open stays the same.
  lemma WindowAtBoot(rules: Rules, nvs: Stored, env: BootEnv)
    requires Readable(rules, nvs) && !nvs.config.auth.passwordSet && !env.readError
    ensures var was, now := nvs.config.auth, Boot(rules, nvs, env).ram.auth;
      if !was.everStarted
      then now == was.(everStarted := true, open := true, bootsLeft := 10, secret := env.secret)
      else if !was.open then now == was
      else if was.bootsLeft <= 1 then now == was.(open := false, bootsLeft := 0)
      else now == was.(bootsLeft := was.bootsLeft - 1)
  {
  }

  // ------------------------------------------------- the identity

  // A boot keeps the identity it finds. Without one, what it makes serves this boot and,
  // if it can be saved, all later ones - unless it boots into recovery: then the store
  // is left alone.
  lemma IdentityAtBoot(rules: Rules, nvs: Stored, env: BootEnv)
    requires env.identity.Some?
    ensures var loaded, after := Load(rules, nvs, env.readError), Boot(rules, nvs, env);
      && (loaded.0.identity.Some? ==> after.ram.identity == loaded.0.identity)
      && (loaded.0.identity.None? && (loaded.1 || (env.identitySaveOk && Valid(rules, loaded.0))) ==>
            after.ram.identity == env.identity)
      && (loaded.0.identity.None? && !loaded.1 && env.identitySaveOk && Valid(rules, loaded.0) ==>
            after.nvs == Blob(after.ram.(stamped := true)))
      && (loaded.1 ==> after.nvs == nvs)
  {
  }

  // The console's new identity reaches RAM and store together, or neither: with all
  // else as the worker's copy has it.
  lemma NewIdentityIsStored(rules: Rules, g: Gateway, made: Option<Identity>, saveOk: bool)
    requires g.worker.Some?
    ensures var copy, after := g.worker.value, Apply(rules, g, StoreIdentity(made, saveOk));
      && after.worker.None?
      && if made.Some? && saveOk && rules.netOk(copy.net) && (copy.auth.passwordSet ==> copy.auth.iterations != 0)
         then after.ram.identity == made && after.ram.auth == copy.auth && after.ram.net == copy.net
              && after.nvs == Blob(after.ram.(stamped := true))
         else after.ram == g.ram && after.nvs == g.nvs
  {
  }

  // ------------------------------------------------- who is logged in

  // The operation opens a session: a correct answer to a challenge, or a password post.
  predicate OpensSession(rules: Rules, g: Gateway, op: Op) {
    (op == Login(true) && g.nonce) || (op.SetPassword? && CommitPassword(rules, g, op.post).1.PasswordSet?)
  }

  // It ends all of them: a boot, or the auth reset.
  predicate EndsSessions(op: Op) {
    op.PowerUp? || op.ResetOwner?
  }

  // Operation i opens a session, and none ends it up to the end of the run.
  predicate OpenedAt(rules: Rules, g: Gateway, ops: seq<Op>, i: nat) {
    && i < |ops| && OpensSession(rules, Run(rules, g, ops[..i]), ops[i])
    && forall j :: i < j < |ops| ==> !EndsSessions(ops[j])
  }

  // It hands out a challenge, which only an owned device does, and there is no boot up
  // to the end of the run.
  predicate AskedAt(rules: Rules, g: Gateway, ops: seq<Op>, i: nat) {
    && i < |ops| && ops[i].AskChallenge? && Run(rules, g, ops[..i]).ram.auth.passwordSet
    && forall j :: i < j < |ops| ==> !ops[j].PowerUp?
  }

  lemma SessionStep(rules: Rules, g: Gateway, op: Op)
    ensures Apply(rules, g, op).session <==> OpensSession(rules, g, op) || (g.session && !EndsSessions(op))
    ensures Apply(rules, g, op).nonce <==>
      (op.AskChallenge? && g.ram.auth.passwordSet) || (g.nonce && !op.PowerUp?)
  {
  }

  lemma OneMoreOp(rules: Rules, g: Gateway, rest: seq<Op>, op: Op, i: nat)
    ensures OpenedAt(rules, g, rest + [op], i) <==>
      || (OpenedAt(rules, g, rest, i) && !EndsSessions(op))
      || (i == |rest| && OpensSession(rules, Run(rules, g, rest), op))
    ensures AskedAt(rules, g, rest + [op], i) <==>
      || (AskedAt(rules, g, rest, i) && !op.PowerUp?)
      || (i == |rest| && op.AskChallenge? && Run(rules, g, rest).ram.auth.passwordSet)
  {
    var ops := rest + [op];
    assert ops[|rest|] == op && forall j :: 0 <= j < |rest| ==> ops[j] == rest[j];
    if i <= |rest| {
      assert ops[..i] == rest[..i] && rest[..|rest|] == rest;
    }
  }

  // Somebody is logged in if and only if a session was opened, or there was one, and
  // nothing has ended it since.
  lemma {:induction false} SessionsExactly(rules: Rules, g: Gateway, ops: seq<Op>)
    ensures Run(rules, g, ops).session <==>
      || (g.session && forall j :: 0 <= j < |ops| ==> !EndsSessions(ops[j]))
      || exists i: nat :: OpenedAt(rules, g, ops, i)
  {
    if ops != [] {
      var rest, op := ops[..|ops| - 1], ops[|ops| - 1];
      assert ops == rest + [op];
      SessionsExactly(rules, g, rest);
      SessionStep(rules, Run(rules, g, rest), op);
      OneMoreOp(rules, g, rest, op, |rest|);
      if i: nat :| OpenedAt(rules, g, rest, i) {
        OneMoreOp(rules, g, rest, op, i);
      }
      if i: nat :| OpenedAt(rules, g, ops, i) {
        OneMoreOp(rules, g, rest, op, i);
      }
    }
  }

  // A challenge may be out if and only if one was asked for while the device had an
  // owner, or one was out, and it has not booted since.
  lemma {:induction false} ChallengesExactly(rules: Rules, g: Gateway, ops: seq<Op>)
    ensures Run(rules, g, ops).nonce <==>
      || (g.nonce && forall j :: 0 <= j < |ops| ==> !ops[j].PowerUp?)
      || exists i: nat :: AskedAt(rules, g, ops, i)
  {
    if ops != [] {
      var rest, op := ops[..|ops| - 1], ops[|ops| - 1];
      assert ops == rest + [op];
      ChallengesExactly(rules, g, rest);
      SessionStep(rules, Run(rules, g, rest), op);
      OneMoreOp(rules, g, rest, op, |rest|);
      if i: nat :| AskedAt(rules, g, rest, i) {
        OneMoreOp(rules, g, rest, op, i);
      }
      if i: nat :| AskedAt(rules, g, ops, i) {
        OneMoreOp(rules, g, rest, op, i);
      }
    }
  }

  // A salt is offered to anybody as long as there is no owner, and later to who has a
  // session; nothing else changes by it.
  lemma SaltExactly(rules: Rules, g: Gateway, salt: Bytes, withSession: bool)
    ensures Apply(rules, g, AskSalt(salt, withSession))
         == if !g.ram.auth.passwordSet || (withSession && g.session) then g.(offer := Some(salt)) else g
  {
  }

  // ------------------------------------------------- the settings

  // A web request whose session holds and that nobody overtakes stores its settings,
  // with credential and identity as they were; if they are invalid or the store fails,
  // it changes nothing.
  lemma WebSaveStores(rules: Rules, g: Gateway, net: Net, withSession: bool, saveOk: bool)
    requires g.web.None?
    ensures var after := Apply(rules, Apply(rules, g, OpenWeb(net, withSession)), SaveWeb(saveOk));
      if withSession && g.session && saveOk && Valid(rules, g.ram.(net := net))
      then after == g.(ram := g.ram.(net := net), nvs := Blob(g.ram.(net := net, stamped := true)))
      else after == g
  {
  }

  // A console setter reaches RAM only, and overtakes a web request if it counts a
  // revision; what gwcfg-save stores is RAM.
  lemma SettersReachRam(rules: Rules, g: Gateway, net: Net, saveOk: bool)
    requires Valid(rules, g.ram.(net := net))
    ensures Apply(rules, g, SetField(net, true)) == g.(ram := g.ram.(net := net), web := None)
    ensures Apply(rules, g, SetField(net, false)) == g.(ram := g.ram.(net := net))
    ensures Apply(rules, g.(ram := g.ram.(net := net)), SaveConfig(saveOk)).nvs
         == if saveOk then Blob(g.ram.(net := net, stamped := true)) else g.nvs
  {
  }

  // ------------------------------------------------- the first claim

  // A claim succeeds exactly with the window open, the current secret, a pending
  // salt in time, a well-formed key and a working store.
  lemma ClaimExactly(rules: Rules, g: Gateway, p: PasswordPost)
    requires !g.ram.auth.passwordSet
    ensures CommitPassword(rules, g, p).1.PasswordSet? <==>
      && WindowOpen(g.ram)
      && p.secretText.Some? && Hex.IsHex(p.secretText.value, SECRET_LEN)
      && Hex.Decode(p.secretText.value, SECRET_LEN).value == g.ram.auth.secret
      && g.offer.Some? && p.offerInTime && Hex.IsHex(p.keyText, 32)
      && rules.netOk(g.ram.net) && p.saveOk
  {
  }

  // A change of the password succeeds exactly with a session, under the same conditions
  // on salt, key and store.
  lemma ChangeExactly(rules: Rules, g: Gateway, p: PasswordPost)
    requires g.ram.auth.passwordSet
    ensures CommitPassword(rules, g, p).1.PasswordSet? <==>
      && p.withSession && g.session
      && g.offer.Some? && p.offerInTime && Hex.IsHex(p.keyText, 32)
      && rules.netOk(g.ram.net) && p.saveOk
  {
  }

  // What is in force afterwards, in RAM and in the store: the key that was posted, under
  // the salt that was offered and 100,000 iterations; the window is closed and its code
  // erased, and everything else is as it was.
  lemma ClaimStores(rules: Rules, g: Gateway, p: PasswordPost)
    requires CommitPassword(rules, g, p).1.PasswordSet?
    ensures var after := CommitPassword(rules, g, p).0;
      && after.nvs == Blob(after.ram.(stamped := true))
      && Hex.Decode(p.keyText, 32) == Some(after.ram.auth.storedKey)
      && g.offer == Some(after.ram.auth.salt) && after.offer.None?
      && after.ram.auth.iterations == 100_000 && after.ram.auth.passwordSet
      && !after.ram.auth.open && after.ram.auth.secret == NO_SECRET
      && after.ram.auth.everStarted == g.ram.auth.everStarted && after.ram.auth.bootsLeft == g.ram.auth.bootsLeft
      && after.ram.net == g.ram.net && after.ram.identity == g.ram.identity && after.session
  {
  }

  // A refused post changes nothing; one whose save fails has used up its salt.
  lemma RefusedPostChangesNothing(rules: Rules, g: Gateway, p: PasswordPost)
    requires !CommitPassword(rules, g, p).1.PasswordSet?
    ensures CommitPassword(rules, g, p).0
         == if CommitPassword(rules, g, p).1.SaveFailed? then g.(offer := None) else g
  {
  }

  // What a refusal is called: the code is checked before the salt, and the salt before
  // the key.
  lemma RefusalTellsTheCause(rules: Rules, g: Gateway, p: PasswordPost)
    ensures var result := CommitPassword(rules, g, p).1;
      var admitted := if g.ram.auth.passwordSet then p.withSession && g.session
                      else && g.ram.auth.open && p.secretText.Some?
                           && Hex.Decode(p.secretText.value, SECRET_LEN) == Some(g.ram.auth.secret);
      var offered := g.offer.Some? && p.offerInTime;
      && (result.NeedsSession? <==> !admitted && g.ram.auth.passwordSet)
      && (result.BadSetupSecret? <==> !admitted && !g.ram.auth.passwordSet)
      && (result.NoPendingSalt? <==> admitted && !offered)
      && (result.BadKey? <==> admitted && offered && Hex.Decode(p.keyText, 32).None?)
      && (result.SaveFailed? <==>
            admitted && offered && Hex.Decode(p.keyText, 32).Some? && !(rules.netOk(g.ram.net) && p.saveOk))
  {
  }

  // The operator who types the code as it was shown gets in.
  lemma ShownSecretClaims(rules: Rules, g: Gateway, p: PasswordPost)
    requires WindowOpen(g.ram) && p.secretText == Some(Hex.Encode(g.ram.auth.secret))
    requires g.offer.Some? && p.offerInTime && Hex.IsHex(p.keyText, 32) && rules.netOk(g.ram.net) && p.saveOk
    ensures CommitPassword(rules, g, p).1.PasswordSet?
  {
    Hex.DecodeEncode(g.ram.auth.secret);
    ClaimExactly(rules, g, p);
  }

  // What may happen between the two halves of a claim without touching the window.
  predicate LeavesWindow(rules: Rules, g: Gateway, op: Op) {
    && !op.PowerUp? && !Reopens(op) && !(op.SetPassword? && CommitPassword(rules, g, op.post).1.PasswordSet?)
    && !(op.StoreIdentity? && g.worker.Some? && g.worker.value.auth != g.ram.auth)
    && !(op.SaveWeb? && g.web.Some? && g.web.value.auth != g.ram.auth)
  }

  ghost predicate WindowLeft(rules: Rules, g: Gateway, between: seq<Op>) {
    forall i :: 0 <= i < |between| ==> LeavesWindow(rules, Run(rules, g, between[..i]), between[i])
  }

  lemma LeavingKeepsOwner(rules: Rules, g: Gateway, op: Op)
    requires LeavesWindow(rules, g, op)
    ensures Apply(rules, g, op).ram.auth == g.ram.auth
  {
  }

  lemma {:induction false} WindowLeftKeepsOwner(rules: Rules, g: Gateway, between: seq<Op>)
    requires WindowLeft(rules, g, between)
    ensures Run(rules, g, between).ram.auth == g.ram.auth
  {
    if between != [] {
      var n := |between| - 1;
      forall i | 0 <= i < n
        ensures LeavesWindow(rules, Run(rules, g, between[..n][..i]), between[..n][i])
      {
        assert between[..n][..i] == between[..i];
      }
      WindowLeftKeepsOwner(rules, g, between[..n]);
      LeavingKeepsOwner(rules, Run(rules, g, between[..n]), between[n]);
    }
  }

  // A claim checks the code and commits later. What is committed was claimed with the
  // code that is current at the commit, under an open window, if and only if the
  // window is still open and its code the one of the check; so it is whenever nothing
  // in between reopened, reset, claimed or booted.
  lemma SplitClaimExactly(rules: Rules, g: Gateway, p: PasswordPost, between: seq<Op>)
    requires !g.ram.auth.passwordSet && ClaimCheck(g, p).None?
    requires CommitChecked(rules, Run(rules, g, between), p).1.PasswordSet?
    ensures var after := Run(rules, g, between).ram;
      SecretOk(after, p.secretText) <==> after.auth.open && after.auth.secret == g.ram.auth.secret
    ensures WindowLeft(rules, g, between) ==>
      SecretOk(Run(rules, g, between).ram, p.secretText) && !Run(rules, g, between).ram.auth.passwordSet
  {
    if WindowLeft(rules, g, between) {
      WindowLeftKeepsOwner(rules, g, between);
    }
  }

  // A new code at the console in between lets the superseded one claim.
  lemma SupersededCodeClaims(rules: Rules, g: Gateway, p: PasswordPost, secret: Secret)
    requires WindowOpen(g.ram) && ClaimCheck(g, p).None? && secret != g.ram.auth.secret
    requires g.offer.Some? && p.offerInTime && Hex.IsHex(p.keyText, 32) && rules.netOk(g.ram.net) && p.saveOk
    ensures var after := Run(rules, g, [ReopenOnboarding(secret, true)]);
      CommitChecked(rules, after, p).1.PasswordSet? && !SecretOk(after.ram, p.secretText)
  {
    var one := [ReopenOnboarding(secret, true)];
    assert one[..|one| - 1] == [];
  }

  // After a claim or a change the device is owned, in RAM and in the store alike,
  // the window closed and the secret erased; and so it stays, through anything but
  // the four actions that reopen, if and only if no identity worker saves a copy
  // that it took before.
  lemma ClaimCloses(rules: Rules, g: Gateway, p: PasswordPost, ops: seq<Op>)
    requires g.ram.stamped && CommitPassword(rules, g, p).1.PasswordSet?
    requires forall i :: 0 <= i < |ops| ==> !Reopens(ops[i])
    ensures var after := CommitPassword(rules, g, p).0;
      && after.nvs == Blob(after.ram) && after.ram.auth.passwordSet
      && !after.ram.auth.open && after.ram.auth.secret == NO_SECRET
    ensures var after := CommitPassword(rules, g, p).0;
      ShutThroughout(rules, after, ops) <==> !(OpenCopy(g) && SavedLate(rules, g.worker.value, ops))
  {
    OnlyEarlierCopiesOpen(rules, CommitPassword(rules, g, p).0, ops);
  }

  // It does happen: the console begins an identity reset, the claim comes in, and the
  // worker saves its copy. The device is unowned again, in RAM and in the store, and
  // open under the code that was just used.
  lemma LateIdentityUndoesClaim(rules: Rules, g: Gateway, p: PasswordPost, made: Identity)
    requires WindowOpen(g.ram) && g.worker.None? && CommitPassword(rules, g, p).1.PasswordSet?
    ensures var late := Run(rules, g, [CopyIdentity, SetPassword(p), StoreIdentity(Some(made), true)]);
      && WindowOpen(late.ram) && late.ram.auth == g.ram.auth && SecretOk(late.ram, p.secretText)
      && late.nvs == Blob(late.ram.(stamped := true)) && late.session
  {
    var one, two := [CopyIdentity], [CopyIdentity, SetPassword(p)];
    var three := two + [StoreIdentity(Some(made), true)];
    assert one[..0] == [] && two[..1] == one && three[..2] == two;
    assert three == [CopyIdentity, SetPassword(p), StoreIdentity(Some(made), true)];
    assert Run(rules, g, one) == g.(worker := Some(g.ram));
    ClaimBeside(rules, g, p);
  }

  lemma ClaimBeside(rules: Rules, g: Gateway, p: PasswordPost)
    requires WindowOpen(g.ram) && CommitPassword(rules, g, p).1.PasswordSet?
    ensures Valid(rules, g.ram) && SecretOk(g.ram, p.secretText)
    ensures var after := CommitPassword(rules, g.(worker := Some(g.ram)), p);
      after.1.PasswordSet? && after.0.session && after.0.worker == Some(g.ram)
  {
  }
}
