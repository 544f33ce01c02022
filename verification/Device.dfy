// The stored and the live configuration as far as ownership is concerned: loading
// and saving (main/provisioning.c), the onboarding window and the first claim
// (main/auth.c), the boot-time TLS identity (main/tls_identity.c) and the boot order
// (main/app_main.c).
module Device {
  import opened ByteSeqs
  import opened Options
  import Hex

  const BOOT_BUDGET: nat := 10
  const SECRET_LEN: nat := 16

  type Secret = s: Bytes | |s| == SECRET_LEN witness [0, 0, 0, 0, 0, 0, 0, 0, 0, 0, 0, 0, 0, 0, 0, 0]
  type Net = string      // all settings outside .auth and .tls
  type Identity = Bytes  // a generated key and certificate

  datatype Ownership = Ownership(
    passwordSet: bool, salt: Bytes, iterations: nat, storedKey: Bytes,
    everStarted: bool, open: bool, secret: Secret, bootsLeft: nat)

  // `stamped`: magic and version are this firmware's.
  datatype Config = Config(stamped: bool, auth: Ownership, identity: Option<Identity>, net: Net)

  // What the store holds: nothing, something of another size, or a whole config.
  datatype Stored = Missing | Foreign(raw: Bytes) | Blob(config: Config)

  // The parts of the program that stay uninterpreted: the rules for the other
  // settings, and their default values.
  datatype Rules = Rules(netOk: Net -> bool, defaultNet: Net)

  datatype Gateway = Gateway(
    nvs: Stored, ram: Config, recovery: bool,
    nonce: bool,              // some login challenge may be outstanding
    session: bool,            // some session may be live
    offer: Option<Bytes>,     // the pending salt
    worker: Option<Config>,   // the copy that a running identity worker holds
    web: Option<Config>)      // the edited copy of a web request, while its revision is current

  const NO_SECRET: Secret := [0, 0, 0, 0, 0, 0, 0, 0, 0, 0, 0, 0, 0, 0, 0, 0]
  const NO_OWNER := Ownership(false, [], 0, [], false, false, NO_SECRET, 0)

  function WithOwner(c: Config, auth: Ownership): Config {
    c.(auth := auth)
  }

  // ------------------------------------------------- load and save

  predicate Valid(rules: Rules, c: Config) {
    rules.netOk(c.net) && (c.auth.passwordSet ==> c.auth.iterations != 0)
  }

  predicate Usable(rules: Rules, c: Config) {
    c.stamped && Valid(rules, c)
  }

  function Defaults(rules: Rules): Config {
    Config(true, NO_OWNER, None, rules.defaultNet)
  }

  function RecoveryDefaults(rules: Rules): Config {
    Defaults(rules).(auth := NO_OWNER.(everStarted := true))
  }

  // Something was found, but this firmware cannot use it.
  predicate Unusable(rules: Rules, nvs: Stored, readError: bool) {
    readError || nvs.Foreign? || (nvs.Blob? && !Usable(rules, nvs.config))
  }

  // provisioning_load, with the recovery flag it leaves behind
  function Load(rules: Rules, nvs: Stored, readError: bool): (Config, bool) {
    if Unusable(rules, nvs, readError) then (RecoveryDefaults(rules), true)
    else if nvs.Missing? then (Defaults(rules), false)
    else (nvs.config, false)
  }

  // provisioning_save; `ok` says whether the store accepts the write.
  function Save(rules: Rules, nvs: Stored, c: Config, ok: bool): (Stored, bool) {
    if Valid(rules, c) && ok then (Blob(c.(stamped := true)), true) else (nvs, false)
  }

  // ------------------------------------------------- the onboarding window

  function OpenWindow(auth: Ownership, secret: Secret): Ownership {
    auth.(secret := secret, everStarted := true, open := true, bootsLeft := BOOT_BUDGET)
  }

  function SpendBoot(auth: Ownership): Ownership {
    var left := if auth.bootsLeft > 0 then auth.bootsLeft - 1 else 0;
    auth.(bootsLeft := left, open := left != 0)
  }

  predicate WindowOpen(c: Config) {
    !c.auth.passwordSet && c.auth.open
  }

  // auth_init: the new RAM state, and whether it has to be saved.
  function NextWindow(auth: Ownership, secret: Secret): (Ownership, bool) {
    if auth.passwordSet then (auth, false)
    else if !auth.everStarted then (OpenWindow(auth, secret), true)
    else if auth.open then (SpendBoot(auth), true)
    else (auth, false)
  }

  function AuthInit(rules: Rules, g: Gateway, secret: Secret, saveOk: bool): Gateway {
    var next := NextWindow(g.ram.auth, secret);
    var ram := WithOwner(g.ram, next.0);
    g.(ram := ram, nvs := if next.1 then Save(rules, g.nvs, ram, saveOk).0 else g.nvs)
  }

  // The first half of identity_worker_task: a copy of the whole configuration. There
  // is one worker at a time, since its caller waits for it.
  function CopyForIdentity(g: Gateway): Gateway {
    if g.worker.Some? then g else g.(worker := Some(g.ram))
  }

  // Its second half, under another hold of the lock: the copy is saved and written
  // back with the new identity, whatever became of the configuration meanwhile.
  function FinishIdentity(rules: Rules, g: Gateway, force: bool, made: Option<Identity>, saveOk: bool): Gateway {
    if g.worker.None? then g
    else
      var copy, done := g.worker.value, g.(worker := None);
      if copy.identity.Some? && !force then IdentityWriteBack(rules, done, copy, force, saveOk)
      else if made.None? then done
      else IdentityWriteBack(rules, done, copy.(identity := made), force, saveOk)
  }

  function IdentityWriteBack(rules: Rules, g: Gateway, work: Config, force: bool, saveOk: bool): Gateway {
    if !force && g.recovery then g.(ram := work)
    else
      var saved := Save(rules, g.nvs, work, saveOk);
      if saved.1 then g.(nvs := saved.0, ram := work) else g
  }

  // Both halves with nobody in between, as at boot
  function IdentityWorker(rules: Rules, g: Gateway, force: bool, made: Option<Identity>, saveOk: bool): Gateway {
    FinishIdentity(rules, CopyForIdentity(g), force, made, saveOk)
  }

  // tls_identity_init
  function IdentityInit(rules: Rules, g: Gateway, made: Option<Identity>, saveOk: bool): Gateway {
    if g.ram.identity.Some? then g else IdentityWorker(rules, g, false, made, saveOk)
  }

  // What one boot meets: the read, the random secret, the generated identity, and
  // how the two saves go.
  datatype BootEnv = BootEnv(
    readError: bool, secret: Secret, authSaveOk: bool, identity: Option<Identity>, identitySaveOk: bool)

  // RAM starts empty; load, auth_init and tls_identity_init in the order of app_main.
  function Boot(rules: Rules, nvs: Stored, env: BootEnv): Gateway {
    var load := Load(rules, nvs, env.readError);
    var loaded := Gateway(nvs, load.0, load.1, false, false, None, None, None);
    var ready := AuthInit(rules, loaded, env.secret, env.authSaveOk);
    IdentityInit(rules, ready, env.identity, env.identitySaveOk)
  }

  // ------------------------------------------------- the credential

  // POST /api/auth/password with what it carries, and how its save goes.
  datatype PasswordPost = PasswordPost(
    withSession: bool, secretText: Option<string>, keyText: string, offerInTime: bool, saveOk: bool)

  datatype PasswordResult = PasswordSet | NeedsSession | BadSetupSecret | NoPendingSalt | BadKey | SaveFailed

  predicate SecretOk(c: Config, secretText: Option<string>) {
    c.auth.open && secretText.Some? && Hex.Decode(secretText.value, SECRET_LEN) == Some(c.auth.secret)
  }

  const PBKDF2_ITERATIONS: nat := 100_000

  // The claim, or the change: the salt comes from the offer, never from the request.
  function Claimed(c: Config, salt: Bytes, key: Bytes): Config {
    WithOwner(c, c.auth.(salt := salt, iterations := PBKDF2_ITERATIONS, storedKey := key,
                         passwordSet := true, open := false, secret := NO_SECRET))
  }

  // The session check of auth_password_post_handler and the claim check at the head of
  // auth_commit_password, after which the configuration lock is given back.
  function ClaimCheck(g: Gateway, p: PasswordPost): Option<PasswordResult> {
    if g.ram.auth.passwordSet && !(p.withSession && g.session) then Some(NeedsSession)
    else if !g.ram.auth.passwordSet && !SecretOk(g.ram, p.secretText) then Some(BadSetupSecret)
    else None
  }

  // The rest of auth_commit_password, which does not look at the secret again.
  function CommitChecked(rules: Rules, g: Gateway, p: PasswordPost): (Gateway, PasswordResult) {
    if g.offer.None? || !p.offerInTime then (g, NoPendingSalt)
    else if !Hex.IsHex(p.keyText, 32) then (g, BadKey)
    else
      var work := Claimed(g.ram, g.offer.value, Hex.Decode(p.keyText, 32).value);
      var taken := g.(offer := None);
      var saved := Save(rules, g.nvs, work, p.saveOk);
      if !saved.1 then (taken, SaveFailed)
      else (taken.(nvs := saved.0, ram := work, session := true, web := None), PasswordSet)
  }

  function CommitPassword(rules: Rules, g: Gateway, p: PasswordPost): (Gateway, PasswordResult) {
    match ClaimCheck(g, p)
    case Some(refusal) => (g, refusal)
    case None => CommitChecked(rules, g, p)
  }

  // auth_reopen_onboarding
  function Reopen(rules: Rules, g: Gateway, secret: Secret, saveOk: bool): Gateway {
    if g.ram.auth.passwordSet then g
    else
      var ram := WithOwner(g.ram, OpenWindow(g.ram.auth, secret));
      g.(ram := ram, nvs := Save(rules, g.nvs, ram, saveOk).0)
  }

  // cmd_gwcfg_reset_auth
  function ResetAuth(rules: Rules, g: Gateway, saveOk: bool): Gateway {
    var ram := WithOwner(g.ram, NO_OWNER);
    g.(ram := ram, nvs := Save(rules, g.nvs, ram, saveOk).0, session := false)
  }

  // do_factory_reset, up to the restart
  function FactoryReset(rules: Rules, g: Gateway, saveOk: bool): Gateway {
    var ram := Defaults(rules);
    g.(ram := ram, nvs := Save(rules, g.nvs, ram, saveOk).0)
  }

  // config_post_handler up to its validation, on the one task that serves requests
  function BeginWeb(g: Gateway, net: Net, withSession: bool): Gateway {
    if withSession && g.session && g.web.None? then g.(web := Some(g.ram.(net := net))) else g
  }

  // The rest of it. Had anything been committed since, the request would be refused.
  function FinishWeb(rules: Rules, g: Gateway, saveOk: bool): Gateway {
    if g.web.None? then g
    else
      var saved := Save(rules, g.nvs, g.web.value, saveOk);
      if saved.1 then g.(nvs := saved.0, ram := g.web.value, web := None) else g.(web := None)
  }

  // A console setter. All but one of them validate, and count a revision.
  function SetNet(rules: Rules, g: Gateway, net: Net, counts: bool): Gateway {
    var work := g.ram.(net := net);
    if !counts then g.(ram := work)
    else if Valid(rules, work) then g.(ram := work, web := None)
    else g
  }

  // ------------------------------------------------- in place

  // The global configuration, the store, and the flags beside them.
  class Firmware {
    const rules: Rules
    var nvs: Stored
    var cfg: Config
    var recovery: bool
    var nonce: bool
    var session: bool
    var offer: Option<Bytes>
    var worker: Option<Config>
    var web: Option<Config>

    ghost function View(): Gateway
      reads this
    {
      Gateway(nvs, cfg, recovery, nonce, session, offer, worker, web)
    }

    // app_main: the store survives, everything else starts anew.
    constructor (rules: Rules, nvs: Stored, env: BootEnv)
      ensures this.rules == rules
      ensures View() == Boot(rules, nvs, env)
    {
      this.rules := rules;
      this.nvs := nvs;
      cfg, recovery, nonce, session, offer := Defaults(rules), false, false, false, None;
      worker, web := None, None;
      new;
      ProvisioningLoad(env.readError);
      AuthInitInPlace(env.secret, env.authSaveOk);
      if cfg.identity.None? {
        RunIdentityWorker(false, env.identity, env.identitySaveOk);
      }
    }

    method ProvisioningLoad(readError: bool)
      requires !recovery
      modifies this`cfg, this`recovery
      ensures (cfg, recovery) == Load(rules, nvs, readError)
    {
      if !readError && nvs.Missing? {
        cfg := Defaults(rules);
        return;
      }
      if readError || nvs.Foreign? {
        GetRecoveryDefaults();
        return;
      }
      cfg := nvs.config;
      if !cfg.stamped {
        GetRecoveryDefaults();
        return;
      }
      if !Valid(rules, cfg) {
        GetRecoveryDefaults();
      }
    }

    method GetRecoveryDefaults()
      modifies this`cfg, this`recovery
      ensures cfg == RecoveryDefaults(rules) && recovery
    {
      cfg := Defaults(rules);
      cfg := cfg.(auth := cfg.auth.(everStarted := true, open := false, bootsLeft := 0));
      recovery := true;
    }

    method ProvisioningSave(c: Config, ok: bool) returns (saved: bool)
      modifies this`nvs
      ensures (nvs, saved) == Save(rules, old(nvs), c, ok)
    {
      saved := Valid(rules, c) && ok;
      if saved {
        nvs := Blob(c.(stamped := true));
      }
    }

    method AuthInitInPlace(secret: Secret, saveOk: bool)
      modifies this`cfg, this`nvs
      ensures View() == AuthInit(rules, old(View()), secret, saveOk)
    {
      if cfg.auth.passwordSet {
        return;
      }
      var changed := false;
      if !cfg.auth.everStarted {
        cfg := cfg.(auth := cfg.auth.(secret := secret, everStarted := true));
        cfg := cfg.(auth := cfg.auth.(open := true, bootsLeft := BOOT_BUDGET));
        changed := true;
      } else if cfg.auth.open {
        if cfg.auth.bootsLeft > 0 {
          cfg := cfg.(auth := cfg.auth.(bootsLeft := cfg.auth.bootsLeft - 1));
        }
        if cfg.auth.bootsLeft == 0 {
          cfg := cfg.(auth := cfg.auth.(open := false));
        }
        changed := true;
      }
      if changed {
        var saved := ProvisioningSave(cfg, saveOk);
      }
    }

    method CopyConfig()
      modifies this`worker
      ensures View() == CopyForIdentity(old(View()))
    {
      if worker.None? {
        worker := Some(cfg);
      }
    }

    method WriteCopyBack(force: bool, made: Option<Identity>, saveOk: bool)
      modifies this`cfg, this`nvs, this`worker
      ensures View() == FinishIdentity(rules, old(View()), force, made, saveOk)
    {
      if worker.None? {
        return;
      }
      var work := worker.value;
      worker := None;
      if !(work.identity.Some? && !force) {
        if made.None? {
          return;
        }
        work := work.(identity := made);
      }
      if !force && recovery {
        cfg := work;
      } else {
        var saved := ProvisioningSave(work, saveOk);
        if saved {
          cfg := work;
        }
      }
    }

    method RunIdentityWorker(force: bool, made: Option<Identity>, saveOk: bool)
      modifies this`cfg, this`nvs, this`worker
      ensures View() == IdentityWorker(rules, old(View()), force, made, saveOk)
    {
      CopyConfig();
      WriteCopyBack(force, made, saveOk);
    }

    method CommitPasswordInPlace(p: PasswordPost) returns (r: PasswordResult)
      modifies this
      ensures (View(), r) == CommitPassword(rules, old(View()), p)
    {
      if cfg.auth.passwordSet && !(p.withSession && session) {
        return NeedsSession;
      }
      if !cfg.auth.passwordSet {
        var secretOk := cfg.auth.open && p.secretText.Some? && Hex.IsHex(p.secretText.value, SECRET_LEN)
          && Hex.Decode(p.secretText.value, SECRET_LEN).value == cfg.auth.secret;
        if !secretOk {
          return BadSetupSecret;
        }
      }
      if offer.None? || !p.offerInTime {
        return NoPendingSalt;
      }
      if !Hex.IsHex(p.keyText, 32) {
        return BadKey;
      }
      var salt := offer.value;
      offer := None;
      var work := cfg;
      work := work.(auth := work.auth.(salt := salt, iterations := PBKDF2_ITERATIONS));
      work := work.(auth := work.auth.(storedKey := Hex.Decode(p.keyText, 32).value, passwordSet := true));
      work := work.(auth := work.auth.(open := false, secret := NO_SECRET));
      var saved := ProvisioningSave(work, p.saveOk);
      if !saved {
        return SaveFailed;
      }
      cfg := work;
      web := None;
      session := true;
      return PasswordSet;
    }

    method ReopenOnboarding(secret: Secret, saveOk: bool) returns (refused: bool)
      modifies this`cfg, this`nvs
      ensures View() == Reopen(rules, old(View()), secret, saveOk)
      ensures refused == old(cfg).auth.passwordSet
    {
      if cfg.auth.passwordSet {
        return true;
      }
      cfg := cfg.(auth := cfg.auth.(secret := secret, everStarted := true, open := true, bootsLeft := BOOT_BUDGET));
      var saved := ProvisioningSave(cfg, saveOk);
      return false;
    }

    method ResetAuthInPlace(saveOk: bool)
      modifies this`cfg, this`nvs, this`session
      ensures View() == ResetAuth(rules, old(View()), saveOk)
    {
      cfg := cfg.(auth := NO_OWNER);
      var saved := ProvisioningSave(cfg, saveOk);
      session := false;
    }

    method DoFactoryReset(saveOk: bool) returns (restart: bool)
      modifies this`cfg, this`nvs
      ensures View() == FactoryReset(rules, old(View()), saveOk)
      ensures restart ==> nvs == Blob(Defaults(rules))
    {
      cfg := Defaults(rules);
      restart := ProvisioningSave(cfg, saveOk);
    }
  }
}
