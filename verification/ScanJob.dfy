// The asynchronous HaLow scan job of main/uplink_halow.c: a start that may fail, a
// poll that finalizes, and driver callbacks that arrive late.
module ScanJob {
  type Entry = int // one access point record, as scan_rx_cb copies it out

  const MAX_RESULTS := 32
  const WRAP := 0x1_0000_0000

  datatype Cache = Cache(results: seq<Entry>, complete: bool, hasResult: bool)

  // The module's own variables; `result` always has MAX_RESULTS elements.
  datatype Job = Job(
    lockHeld: bool, running: bool, generation: nat, result: seq<Entry>, count: nat,
    done: bool, deadline: int, cache: Cache)

  function First<T>(xs: seq<T>): (r: seq<T>)
    ensures r <= xs && |r| <= MAX_RESULTS
    ensures |r| == MAX_RESULTS || r == xs
  {
    if |xs| <= MAX_RESULTS then xs else xs[..MAX_RESULTS]
  }

  // finalize_scan
  function Finalize(j: Job, ok: bool): Job
    requires |j.result| == MAX_RESULTS
  {
    var delivered := if j.count < MAX_RESULTS then j.count else MAX_RESULTS;
    j.(generation := (j.generation + 1) % WRAP, cache := Cache(j.result[..delivered], ok, true),
       running := false, lockHeld := false)
  }

  // uplink_halow_scan_start up to the submission; only when the lock is free.
  function Begin(j: Job): Job {
    j.(lockHeld := true, generation := (j.generation + 1) % WRAP, count := 0, done := false)
  }

  // The rest of uplink_halow_scan_start.
  function Submitted(j: Job, ok: bool, now: int, timeoutMs: nat): Job
    requires |j.result| == MAX_RESULTS
  {
    if ok then j.(deadline := now + timeoutMs * 1000, running := true) else Finalize(j, false)
  }

  // The second half of scan_rx_cb, after its generation test.
  function Store(j: Job, e: Entry): Job
    requires |j.result| == MAX_RESULTS
  {
    j.(result := if j.count < MAX_RESULTS then j.result[j.count := e] else j.result, count := j.count + 1)
  }

  // uplink_halow_scan_poll
  function Poll(j: Job, now: int): Job
    requires |j.result| == MAX_RESULTS
  {
    if !j.running then j
    else if j.done then Finalize(j.(done := false), true)
    else if now >= j.deadline then Finalize(j, false)
    else j
  }

  // The module as the firmware has it.
  class Scanner {
    var lockHeld: bool
    var running: bool
    var generation: nat
    const result: array<Entry>
    var count: nat
    var done: bool
    var deadline: int
    const cacheResult: array<Entry>
    var cacheCount: nat
    var cacheComplete: bool
    var cacheHasResult: bool

    ghost predicate Valid()
      reads this
    {
      result.Length == MAX_RESULTS && cacheResult.Length == MAX_RESULTS && cacheCount <= MAX_RESULTS
      && result != cacheResult
    }

    ghost function View(): (j: Job)
      requires Valid()
      reads this, result, cacheResult
      ensures |j.result| == MAX_RESULTS
    {
      Job(lockHeld, running, generation, result[..], count, done, deadline,
          Cache(cacheResult[..cacheCount], cacheComplete, cacheHasResult))
    }

    constructor ()
      ensures Valid() && fresh(result) && fresh(cacheResult)
      ensures !View().lockHeld && !View().running && View().generation == 0 && !View().cache.hasResult
    {
      result, cacheResult := new Entry[MAX_RESULTS], new Entry[MAX_RESULTS];
      lockHeld, running, generation, count, done, deadline := false, false, 0, 0, false, 0;
      cacheCount, cacheComplete, cacheHasResult := 0, false, false;
    }

    method FinalizeScan(ok: bool)
      requires Valid()
      modifies this, cacheResult
      ensures Valid() && View() == Finalize(old(View()), ok)
    {
      generation := (generation + 1) % WRAP;
      var delivered := if count < MAX_RESULTS then count else MAX_RESULTS;
      var i := 0;
      while i < delivered
        invariant i <= delivered
        invariant cacheResult[..i] == result[..i]
        modifies cacheResult
      {
        cacheResult[i] := result[i];
        i := i + 1;
      }
      assert cacheResult[..delivered] == result[..][..delivered];
      cacheCount, cacheComplete, cacheHasResult := delivered, ok, true;
      running := false;
      lockHeld := false;
    }

    // False: another scan is already running.
    method BeginScan() returns (taken: bool)
      requires Valid()
      modifies this
      ensures Valid() && taken == !old(lockHeld)
      ensures View() == if taken then Begin(old(View())) else old(View())
    {
      if lockHeld {
        return false;
      }
      lockHeld := true;
      generation := (generation + 1) % WRAP;
      count := 0;
      done := false;
      return true;
    }

    method ScanSubmitted(ok: bool, now: int, timeoutMs: nat)
      requires Valid()
      modifies this, cacheResult
      ensures Valid() && View() == Submitted(old(View()), ok, now, timeoutMs)
    {
      if !ok {
        FinalizeScan(false);
        return;
      }
      deadline := now + timeoutMs * 1000;
      running := true;
    }

    method StoreResult(e: Entry)
      requires Valid()
      modifies this`count, result
      ensures Valid() && View() == Store(old(View()), e)
    {
      if count < MAX_RESULTS {
        result[count] := e;
      }
      count := count + 1;
    }

    method PollScan(now: int) returns (stillRunning: bool)
      requires Valid()
      modifies this, cacheResult
      ensures Valid() && View() == Poll(old(View()), now)
      ensures stillRunning == View().running
    {
      if !running {
        return false;
      }
      if done {
        done := false;
        FinalizeScan(true);
        return false;
      }
      if now >= deadline {
        FinalizeScan(false);
        return false;
      }
      return true;
    }
  }

  // ------------------------------------------------------------ runs

  // What the driver's callback thread is in the middle of: it has passed the
  // generation test at epoch `seen` for a callback registered at epoch `carried`.
  datatype InFlight = Nothing | Storing(e: Entry, carried: nat, seen: nat) | Signalling(carried: nat, seen: nat)

  // `epoch` counts every bump of the generation, without wrapping (history).
  datatype State = State(job: Job, starting: bool, epoch: nat, inFlight: InFlight)

  datatype Step =
    | TryStart
    | Submit(ok: bool, now: int, timeoutMs: nat)
    | PollAt(now: int)
    | RxTest(carried: nat, e: Entry)
    | DoneTest(carried: nat)
    | Land // the callback in flight stores its record, or gives s_scan_done

  function Initial(): State {
    State(Job(false, false, 0, seq(MAX_RESULTS, _ => 0), 0, false, 0, Cache([], false, false)), false, 0, Nothing)
  }

  // Scans register their callbacks right after the bump of a start.
  predicate Registered(s: State, carried: nat) {
    carried % 2 == 1 && carried <= s.epoch
  }

  function Next(s: State, step: Step): (t: State)
    requires |s.job.result| == MAX_RESULTS
    ensures |t.job.result| == MAX_RESULTS
  {
    match step
    case TryStart =>
      if s.job.lockHeld then s else State(Begin(s.job), true, s.epoch + 1, s.inFlight)
    case Submit(ok, now, timeoutMs) =>
      if !s.starting then s
      else State(Submitted(s.job, ok, now, timeoutMs), false, if ok then s.epoch else s.epoch + 1, s.inFlight)
    case PollAt(now) =>
      var j := Poll(s.job, now);
      s.(job := j, epoch := if j.lockHeld == s.job.lockHeld then s.epoch else s.epoch + 1)
    case RxTest(carried, e) =>
      if s.inFlight != Nothing || !Registered(s, carried) || carried % WRAP != s.job.generation then s
      else s.(inFlight := Storing(e, carried, s.epoch))
    case DoneTest(carried) =>
      if s.inFlight != Nothing || !Registered(s, carried) || carried % WRAP != s.job.generation then s
      else s.(inFlight := Signalling(carried, s.epoch))
    case Land =>
      match s.inFlight
      case Nothing => s
      case Storing(e, _, _) => s.(job := Store(s.job, e), inFlight := Nothing)
      case Signalling(_, _) => s.(job := s.job.(done := true), inFlight := Nothing)
  }

  function Run(steps: seq<Step>): (s: State)
    ensures |s.job.result| == MAX_RESULTS
  {
    if steps == [] then Initial() else Next(Run(steps[..|steps| - 1]), steps[|steps| - 1])
  }

  predicate Finalizes(s: State, step: Step)
    requires |s.job.result| == MAX_RESULTS
  {
    s.job.lockHeld && !Next(s, step).job.lockHeld
  }

  // A record in the scratch area: what it says, the epoch its callback was
  // registered for, and the epoch at which the callback passed its test.
  datatype Landing = Landing(e: Entry, carried: nat, seen: nat)

  // The record that the step stores, if it stores one.
  function Stored(s: State, step: Step): seq<Landing> {
    if step == Land && s.inFlight.Storing?
    then [Landing(s.inFlight.e, s.inFlight.carried, s.inFlight.seen)] else []
  }

  // The completion that the step signals, by the epoch it was registered for.
  function Signalled(s: State, step: Step): seq<nat> {
    if step == Land && s.inFlight.Signalling? then [s.inFlight.carried] else []
  }

  predicate Starts(s: State, step: Step) {
    step == TryStart && !s.job.lockHeld
  }

  // Every record stored since the last scan was started, for whatever scan.
  function Landed(steps: seq<Step>): seq<Landing> {
    if steps == [] then []
    else
      var before, step := Run(steps[..|steps| - 1]), steps[|steps| - 1];
      if Starts(before, step) then [] else Landed(steps[..|steps| - 1]) + Stored(before, step)
  }

  // Every completion signalled since the last scan was started.
  function Signals(steps: seq<Step>): seq<nat> {
    if steps == [] then []
    else
      var before, step := Run(steps[..|steps| - 1]), steps[|steps| - 1];
      if Starts(before, step) then [] else Signals(steps[..|steps| - 1]) + Signalled(before, step)
  }

  // The records that landed for callbacks of epoch g, in the whole run.
  function Heard(steps: seq<Step>, g: nat): seq<Landing> {
    if steps == [] then []
    else Heard(steps[..|steps| - 1], g) + Of(Stored(Run(steps[..|steps| - 1]), steps[|steps| - 1]), g)
  }

  // Whether a completion of epoch g was signalled, in the whole run.
  predicate Completed(steps: seq<Step>, g: nat) {
    steps != [] && (Completed(steps[..|steps| - 1], g) || g in Signalled(Run(steps[..|steps| - 1]), steps[|steps| - 1]))
  }

  // Those of the records that carry epoch g.
  function Of(xs: seq<Landing>, g: nat): seq<Landing> {
    if xs == [] then []
    else Of(xs[..|xs| - 1], g) + if xs[|xs| - 1].carried == g then [xs[|xs| - 1]] else []
  }

  function Entries(xs: seq<Landing>): (r: seq<Entry>)
    ensures |r| == |xs|
  {
    seq(|xs|, i requires 0 <= i < |xs| => xs[i].e)
  }

  // The lock is held exactly while a scan is being started or runs: for any run,
  // however late or torn its callbacks.
  ghost predicate LockInv(s: State) {
    && s.job.generation == s.epoch % WRAP
    && (s.job.lockHeld <==> s.epoch % 2 == 1)
    && (s.job.lockHeld <==> s.starting || s.job.running)
    && !(s.starting && s.job.running)
  }

  lemma NextEpoch(generation: nat, epoch: nat)
    requires generation == epoch % WRAP
    ensures (generation + 1) % WRAP == (epoch + 1) % WRAP
    ensures (epoch + 1) % 2 == 1 - epoch % 2
  {
  }

  lemma StartKeepsLock(s: State)
    requires |s.job.result| == MAX_RESULTS && LockInv(s)
    ensures LockInv(Next(s, TryStart))
  {
    NextEpoch(s.job.generation, s.epoch);
  }

  lemma SubmitKeepsLock(s: State, ok: bool, now: int, timeoutMs: nat)
    requires |s.job.result| == MAX_RESULTS && LockInv(s)
    ensures LockInv(Next(s, Submit(ok, now, timeoutMs)))
  {
    NextEpoch(s.job.generation, s.epoch);
  }

  lemma PollKeepsLock(s: State, now: int)
    requires |s.job.result| == MAX_RESULTS && LockInv(s)
    ensures LockInv(Next(s, PollAt(now)))
  {
    NextEpoch(s.job.generation, s.epoch);
  }

  lemma NextKeepsLock(s: State, step: Step)
    requires |s.job.result| == MAX_RESULTS && LockInv(s)
    ensures LockInv(Next(s, step))
  {
    match step
    case TryStart => StartKeepsLock(s);
    case Submit(ok, now, timeoutMs) => SubmitKeepsLock(s, ok, now, timeoutMs);
    case PollAt(now) => PollKeepsLock(s, now);
    case _ =>
  }

  lemma {:induction false} LockHeldWhileInFlight(steps: seq<Step>)
    ensures LockInv(Run(steps))
  {
    if steps != [] {
      LockHeldWhileInFlight(steps[..|steps| - 1]);
      NextKeepsLock(Run(steps[..|steps| - 1]), steps[|steps| - 1]);
    }
  }

  lemma NextKeepsCache(s: State, step: Step)
    requires |s.job.result| == MAX_RESULTS && LockInv(s) && !Finalizes(s, step)
    ensures Next(s, step).job.cache == s.job.cache
  {
  }

  // After `steps`, no step of `more` finalizes a scan.
  predicate NoneFinalizes(steps: seq<Step>, more: seq<Step>) {
    more == [] || (
      && NoneFinalizes(steps, more[..|more| - 1])
      && !Finalizes(Run(steps + more[..|more| - 1]), more[|more| - 1]))
  }

  // No callback, start or poll changes a finalized cache; only the next
  // finalization does. Torn and late callbacks are included.
  lemma {:induction false} CacheStable(steps: seq<Step>, more: seq<Step>)
    requires NoneFinalizes(steps, more)
    ensures Run(steps + more).job.cache == Run(steps).job.cache
  {
    if more == [] {
      assert steps + more == steps;
    } else {
      var init := more[..|more| - 1];
      CacheStable(steps, init);
      assert (steps + more)[..|steps + more| - 1] == steps + init;
      LockHeldWhileInFlight(steps + init);
      NextKeepsCache(Run(steps + init), more[|more| - 1]);
    }
  }

  // ------------------------------------------------------------ what a cache holds

  // The scratch area holds the first records landed since the start, and a running
  // scan is done exactly if a completion was signalled since.
  ghost predicate Scratch(s: State, landed: seq<Landing>, signals: seq<nat>) {
    && s.job.count == |landed|
    && First(Entries(landed)) <= s.job.result
    && (s.job.lockHeld ==> (s.job.done <==> signals != []))
  }

  lemma NextKeepsScratch(s: State, step: Step, landed: seq<Landing>, signals: seq<nat>)
    requires |s.job.result| == MAX_RESULTS && LockInv(s) && Scratch(s, landed, signals)
    ensures if Starts(s, step) then Scratch(Next(s, step), [], [])
            else Scratch(Next(s, step), landed + Stored(s, step), signals + Signalled(s, step))
  {
    assert landed + [] == landed && signals + [] == signals;
    if step == Land && s.inFlight.Storing? {
      StoreKeepsScratch(s.job, landed, Landing(s.inFlight.e, s.inFlight.carried, s.inFlight.seen));
    }
  }

  lemma StoreKeepsScratch(j: Job, landed: seq<Landing>, x: Landing)
    requires |j.result| == MAX_RESULTS && j.count == |landed| && First(Entries(landed)) <= j.result
    ensures First(Entries(landed + [x])) <= Store(j, x.e).result
  {
    assert Entries(landed + [x]) == Entries(landed) + [x.e];
  }

  lemma {:induction false} ScratchHoldsLanded(steps: seq<Step>)
    ensures LockInv(Run(steps)) && Scratch(Run(steps), Landed(steps), Signals(steps))
  {
    LockHeldWhileInFlight(steps);
    if steps != [] {
      var before := steps[..|steps| - 1];
      ScratchHoldsLanded(before);
      NextKeepsScratch(Run(before), steps[|steps| - 1], Landed(before), Signals(before));
    }
  }

  lemma FinalizeDelivers(s: State, step: Step, landed: seq<Landing>, signals: seq<nat>)
    requires |s.job.result| == MAX_RESULTS && LockInv(s) && Scratch(s, landed, signals) && Finalizes(s, step)
    ensures Next(s, step).job.cache
      == Cache(First(Entries(landed)), step.PollAt? && signals != [], true)
  {
    assert s.job.result[..|First(Entries(landed))|] == First(Entries(landed));
  }

  // In every run, however late or torn its callbacks: a finalized cache is the first
  // min(n, 32) of the records stored since that scan was started, in order; it is
  // complete exactly if a poll found a completion signalled since; and it stays so
  // until the next finalization.
  lemma CacheIsWhatLanded(steps: seq<Step>, step: Step, more: seq<Step>)
    requires Finalizes(Run(steps), step) && NoneFinalizes(steps + [step], more)
    ensures Run(steps + [step] + more).job.cache
      == Cache(First(Entries(Landed(steps))), step.PollAt? && Signals(steps) != [], true)
  {
    ScratchHoldsLanded(steps);
    FinalizeDelivers(Run(steps), step, Landed(steps), Signals(steps));
    assert (steps + [step])[..|steps|] == steps;
    CacheStable(steps + [step], more);
  }

  // A callback passes its test exactly if no other is in flight and the scan it was
  // registered for has begun, a multiple of 2^32 generations ago; it lands as what it is.
  lemma CallbacksExactly(steps: seq<Step>, carried: nat, e: Entry)
    ensures var s := Run(steps);
      var passes := s.inFlight == Nothing && carried % 2 == 1 && carried <= s.epoch && (s.epoch - carried) % WRAP == 0;
      && Next(s, RxTest(carried, e)) == (if passes then s.(inFlight := Storing(e, carried, s.epoch)) else s)
      && Next(s, DoneTest(carried)) == (if passes then s.(inFlight := Signalling(carried, s.epoch)) else s)
      && Next(s, Land).inFlight == Nothing
  {
    LockHeldWhileInFlight(steps);
    if carried <= Run(steps).epoch {
      TestPasses(Run(steps), carried);
    }
  }

  // ------------------------------------------------------------ the deadline

  // When the scan submitted last is due: `timeoutMs` milliseconds after its submission,
  // in microseconds.
  function Due(steps: seq<Step>): int {
    if steps == [] then 0
    else
      var before, step := Run(steps[..|steps| - 1]), steps[|steps| - 1];
      if step.Submit? && step.ok && before.starting then step.now + step.timeoutMs * 1000
      else Due(steps[..|steps| - 1])
  }

  lemma {:induction false} DeadlineIsDue(steps: seq<Step>)
    ensures Run(steps).job.deadline == Due(steps)
  {
    if steps != [] {
      DeadlineIsDue(steps[..|steps| - 1]);
    }
  }

  // A poll ends a running scan if and only if its completion was signalled, or it is
  // due; it is called complete exactly in the first case, and the signal is used up.
  lemma PollEndsExactly(steps: seq<Step>, now: int)
    requires Run(steps).job.running
    ensures Finalizes(Run(steps), PollAt(now)) <==> Signals(steps) != [] || now >= Due(steps)
    ensures Finalizes(Run(steps), PollAt(now)) ==>
      && (Run(steps + [PollAt(now)]).job.cache.complete <==> Signals(steps) != [])
      && !Run(steps + [PollAt(now)]).job.done
  {
    ScratchHoldsLanded(steps);
    DeadlineIsDue(steps);
    assert (steps + [PollAt(now)])[..|steps|] == steps;
  }

  // ------------------------------------------------------------ attribution

  // A callback in flight was registered no later than it was tested, a multiple of
  // 2^32 generations before.
  ghost predicate Flies(s: State) {
    s.inFlight != Nothing ==>
      s.inFlight.carried <= s.inFlight.seen <= s.epoch && (s.inFlight.seen - s.inFlight.carried) % WRAP == 0
  }

  lemma NextFlies(s: State, step: Step)
    requires |s.job.result| == MAX_RESULTS && LockInv(s) && Flies(s)
    ensures Flies(Next(s, step)) && Next(s, step).epoch >= s.epoch
  {
    if step.RxTest? && Registered(s, step.carried) { TestPasses(s, step.carried); }
    if step.DoneTest? && Registered(s, step.carried) { TestPasses(s, step.carried); }
  }

  // Nothing has landed for a scan that is still to come.
  lemma {:induction false} NothingBeforeItsScan(steps: seq<Step>, g: nat)
    requires g > Run(steps).epoch
    ensures LockInv(Run(steps)) && Flies(Run(steps)) && Heard(steps, g) == [] && !Completed(steps, g)
  {
    LockHeldWhileInFlight(steps);
    if steps != [] {
      var before := steps[..|steps| - 1];
      LockHeldWhileInFlight(before);
      EpochGrows(steps);
      NothingBeforeItsScan(before, g);
      NextFlies(Run(before), steps[|steps| - 1]);
    }
  }

  lemma EpochGrows(steps: seq<Step>)
    requires steps != []
    ensures Run(steps[..|steps| - 1]).epoch <= Run(steps).epoch
  {
    NextGrows(Run(steps[..|steps| - 1]), steps[|steps| - 1]);
  }

  lemma NextGrows(s: State, step: Step)
    requires |s.job.result| == MAX_RESULTS
    ensures s.epoch <= Next(s, step).epoch
  {
  }

  lemma OfAppend(xs: seq<Landing>, ys: seq<Landing>, g: nat)
    requires |ys| <= 1
    ensures Of(xs + ys, g) == Of(xs, g) + Of(ys, g)
  {
    if ys == [] {
      assert xs + ys == xs;
    } else {
      assert (xs + ys)[..|xs|] == xs && ys[..0] == [];
    }
  }

  // While a scan holds the lock, everything that was heard for it has landed since
  // its start.
  ghost predicate SinceStart(steps: seq<Step>, g: nat) {
    Together(g, Heard(steps, g), Completed(steps, g), Landed(steps), Signals(steps))
  }

  ghost predicate Together(g: nat, heard: seq<Landing>, completed: bool, landed: seq<Landing>, signals: seq<nat>) {
    && heard == Of(landed, g)
    && (completed <==> g in signals)
    && forall i :: 0 <= i < |landed| ==> LandedAt(landed[i], g)
  }

  lemma TogetherGrows(
    s: State, step: Step, heard: seq<Landing>, completed: bool, landed: seq<Landing>, signals: seq<nat>)
    requires Flies(s) && Together(s.epoch, heard, completed, landed, signals)
    ensures Together(s.epoch, heard + Of(Stored(s, step), s.epoch), completed || s.epoch in Signalled(s, step),
                     landed + Stored(s, step), signals + Signalled(s, step))
  {
    OfAppend(landed, Stored(s, step), s.epoch);
  }

  lemma Unroll(steps: seq<Step>, g: nat) returns (before: seq<Step>, s: State, step: Step)
    requires steps != []
    ensures before == steps[..|steps| - 1] && |before| < |steps| && s == Run(before) && step == steps[|steps| - 1]
    ensures |s.job.result| == MAX_RESULTS && Run(steps) == Next(s, step) && LockInv(s)
    ensures Landed(steps) == if Starts(s, step) then [] else Landed(before) + Stored(s, step)
    ensures Signals(steps) == if Starts(s, step) then [] else Signals(before) + Signalled(s, step)
    ensures Heard(steps, g) == Heard(before, g) + Of(Stored(s, step), g)
    ensures Completed(steps, g) <==> Completed(before, g) || g in Signalled(s, step)
  {
    before, step := steps[..|steps| - 1], steps[|steps| - 1];
    s := Run(before);
    LockHeldWhileInFlight(before);
  }

  predicate LandedAt(x: Landing, epoch: nat) {
    x.carried <= x.seen <= epoch && (x.seen - x.carried) % WRAP == 0
  }

  lemma {:induction false} HeardSinceStart(steps: seq<Step>, g: nat)
    requires Run(steps).job.lockHeld && Run(steps).epoch == g
    ensures Flies(Run(steps)) && SinceStart(steps, g)
    decreases |steps|
  {
    var before, s, step := Unroll(steps, g);
    if s.job.lockHeld {
      HeldEpoch(s, step);
      HeardSinceStart(before, g);
      NextFlies(s, step);
      TogetherGrows(s, step, Heard(before, g), Completed(before, g), Landed(before), Signals(before));
    } else {
      OnlyStartsTake(s, step);
      NothingBeforeItsScan(before, g);
      NextFlies(s, step);
    }
  }

  lemma OnlyStartsTake(s: State, step: Step)
    requires |s.job.result| == MAX_RESULTS && LockInv(s) && !s.job.lockHeld && Next(s, step).job.lockHeld
    ensures Starts(s, step) && Next(s, step).epoch == s.epoch + 1
  {
  }

  lemma HeldEpoch(s: State, step: Step)
    requires |s.job.result| == MAX_RESULTS && LockInv(s) && s.job.lockHeld && Next(s, step).job.lockHeld
    ensures Next(s, step).epoch == s.epoch && !Starts(s, step)
  {
  }

  // Every one of the first 32 records is of the scan itself.
  predicate OwnRecords(landed: seq<Landing>, epoch: nat) {
    forall i :: 0 <= i < |First(landed)| ==> landed[i].carried == epoch
  }

  // The callback's two halves met one and the same scan, less than 2^32 generations
  // after its own.
  predicate OnTime(x: Landing, epoch: nat) {
    x.seen == epoch && x.seen < x.carried + WRAP
  }

  lemma OnTimeIsOwn(x: Landing, epoch: nat)
    requires LandedAt(x, epoch)
    ensures x.carried == epoch <==> OnTime(x, epoch)
  {
    if OnTime(x, epoch) {
      assert x.seen - x.carried < WRAP;
    }
  }

  lemma {:induction false} OfKeepsOwn(xs: seq<Landing>, g: nat)
    ensures forall i :: 0 <= i < |Of(xs, g)| ==> Of(xs, g)[i].carried == g
    ensures (forall i :: 0 <= i < |xs| ==> xs[i].carried == g) ==> Of(xs, g) == xs
  {
    if xs != [] {
      OfKeepsOwn(xs[..|xs| - 1], g);
    }
  }

  lemma {:induction false} OfPrefix(xs: seq<Landing>, n: nat, g: nat)
    requires n <= |xs|
    ensures Of(xs[..n], g) <= Of(xs, g)
  {
    if n < |xs| {
      OfPrefix(xs[..|xs| - 1], n, g);
      assert xs[..|xs| - 1][..n] == xs[..n];
    } else {
      assert xs[..n] == xs;
    }
  }

  lemma FirstOfOwn(xs: seq<Landing>, g: nat)
    ensures First(xs) == First(Of(xs, g)) <==> OwnRecords(xs, g)
  {
    var n := |First(xs)|;
    OfKeepsOwn(xs, g);
    OfKeepsOwn(xs[..n], g);
    OfPrefix(xs, n, g);
    if OwnRecords(xs, g) {
      assert Of(xs[..n], g) == xs[..n];
      assert n < MAX_RESULTS ==> xs[..n] == xs;
    }
    if First(xs) == First(Of(xs, g)) {
      assert forall i :: 0 <= i < n ==> xs[i] == First(Of(xs, g))[i];
    }
  }

  // A finalized cache is that scan's own - the first min(n, 32) of the records that
  // its own callbacks delivered - if and only if every one of the first 32 records
  // stored since its start carries its epoch: if and only if none of these callbacks
  // was cut in two by a change of generation, or 2^32 or more generations late.
  // Likewise it is rightly called complete if and only if a completion that was
  // signalled since its start carries its epoch.
  lemma ScanAttribution(steps: seq<Step>, step: Step, more: seq<Step>)
    requires Finalizes(Run(steps), step) && NoneFinalizes(steps + [step], more)
    ensures First(Landed(steps)) == First(Heard(steps, Run(steps).epoch))
      <==> OwnRecords(Landed(steps), Run(steps).epoch)
    ensures OwnRecords(Landed(steps), Run(steps).epoch) <==>
      forall i :: 0 <= i < |First(Landed(steps))| ==> OnTime(Landed(steps)[i], Run(steps).epoch)
    ensures OwnRecords(Landed(steps), Run(steps).epoch) ==>
      Run(steps + [step] + more).job.cache.results == First(Entries(Heard(steps, Run(steps).epoch)))
    ensures (Run(steps + [step] + more).job.cache.complete ==> Completed(steps, Run(steps).epoch)) <==>
      !step.PollAt? || Signals(steps) == [] || Run(steps).epoch in Signals(steps)
  {
    var g, landed := Run(steps).epoch, Landed(steps);
    HeardSinceStart(steps, g);
    CacheIsWhatLanded(steps, step, more);
    FirstOfOwn(landed, g);
    forall i | 0 <= i < |First(landed)|
      ensures landed[i].carried == g <==> OnTime(landed[i], g)
    {
      OnTimeIsOwn(landed[i], g);
    }
    FirstEntries(landed);
    FirstEntries(Heard(steps, g));
  }

  lemma FirstEntries(xs: seq<Landing>)
    ensures First(Entries(xs)) == Entries(First(xs))
  {
  }

  // ------------------------------------------------------------ both exceptions occur

  lemma Snoc(steps: seq<Step>, step: Step)
    ensures Run(steps + [step]) == Next(Run(steps), step)
    ensures Landed(steps + [step]) == if Starts(Run(steps), step) then [] else Landed(steps) + Stored(Run(steps), step)
  {
    assert (steps + [step])[..|steps|] == steps;
  }

  // A callback that is cut in two by a time-out and a new start delivers its record
  // to the new scan.
  lemma TornCallbackIsMisattributed(e: Entry) returns (steps: seq<Step>)
    ensures Finalizes(Run(steps), PollAt(2000)) && Run(steps).epoch == 3
    ensures Landed(steps) == [Landing(e, 1, 1)]
    ensures Run(steps + [PollAt(2000)]).job.cache.results == [e]
  {
    var s4 := AbandonedCallback(e);
    var s5 := s4 + [TryStart];
    var s6 := s5 + [Submit(true, 1000, 1)];
    Snoc(s4, TryStart);
    Snoc(s5, Submit(true, 1000, 1));
    steps := DeliversIt(s6, Landing(e, 1, 1), 2000);
  }

  // A first scan ends while a callback of it stands between test and effect.
  lemma AbandonedCallback(e: Entry) returns (steps: seq<Step>)
    ensures Run(steps).inFlight == Storing(e, 1, 1) && Run(steps).epoch == 2 && !Run(steps).job.lockHeld
  {
    var s2 := RunningScan();
    var s3 := s2 + [RxTest(1, e)];
    steps := s3 + [PollAt(1000)];
    Snoc(s2, RxTest(1, e));
    TimesOut(s3);
  }

  lemma TimesOut(steps: seq<Step>)
    requires Run(steps).job.running && !Run(steps).job.done && Run(steps).job.deadline <= 1000
    ensures Run(steps + [PollAt(1000)]).inFlight == Run(steps).inFlight
    ensures Run(steps).job.lockHeld ==> Run(steps + [PollAt(1000)]).epoch == Run(steps).epoch + 1
    ensures !Run(steps + [PollAt(1000)]).job.lockHeld
  {
    Snoc(steps, PollAt(1000));
  }

  lemma RunningScan() returns (steps: seq<Step>)
    ensures Run(steps).epoch == 1 && Run(steps).job.generation == 1 && Run(steps).inFlight == Nothing
    ensures Run(steps).job.running && Run(steps).job.lockHeld && !Run(steps).starting
    ensures !Run(steps).job.done && Run(steps).job.deadline == 1000
  {
    var s1 := [] + [TryStart];
    steps := s1 + [Submit(true, 0, 1)];
    Snoc([], TryStart);
    Snoc(s1, Submit(true, 0, 1));
  }

  // n starts whose submission fails.
  function FailedStarts(n: nat): seq<Step> {
    if n == 0 then [] else FailedStarts(n - 1) + [TryStart, Submit(false, 0, 0)]
  }

  ghost predicate AtRest(s: State, epoch: nat) {
    s.epoch == epoch && !s.job.lockHeld && s.inFlight == Nothing
  }

  lemma {:induction false} FailedStartsBump(steps: seq<Step>, n: nat)
    requires AtRest(Run(steps), Run(steps).epoch)
    ensures AtRest(Run(steps + FailedStarts(n)), Run(steps).epoch + 2 * n)
  {
    if n == 0 {
      assert steps + FailedStarts(0) == steps;
    } else {
      var before := steps + FailedStarts(n - 1);
      FailedStartsBump(steps, n - 1);
      FailedStart(before);
      assert steps + FailedStarts(n) == before + [TryStart] + [Submit(false, 0, 0)];
    }
  }

  lemma FailedStart(steps: seq<Step>)
    requires AtRest(Run(steps), Run(steps).epoch)
    ensures AtRest(Run(steps + [TryStart] + [Submit(false, 0, 0)]), Run(steps).epoch + 2)
  {
    Snoc(steps, TryStart);
    Snoc(steps + [TryStart], Submit(false, 0, 0));
  }

  lemma HalfLap() returns (n: nat)
    ensures 2 + 2 * n == WRAP
  {
    n := WRAP / 2 - 1;
  }

  // A callback exactly 2^32 generations late is taken for a current one: after a
  // first scan has timed out and 2^31 - 1 starts have failed, the next scan delivers
  // a record that was registered for the first.
  lemma LateCallback(e: Entry) returns (steps: seq<Step>)
    ensures Finalizes(Run(steps), PollAt(1000)) && Run(steps).epoch == 1 + WRAP
    ensures Landed(steps) == [Landing(e, 1, 1 + WRAP)]
    ensures Run(steps + [PollAt(1000)]).job.cache.results == [e]
  {
    var s2 := RunningScan();
    var s3 := s2 + [PollAt(1000)];
    TimesOut(s2);
    var n := HalfLap();
    FailedStartsBump(s3, n);
    var s4 := s3 + FailedStarts(n);
    steps := LateScan(s4, e);
  }

  lemma LateScan(rest: seq<Step>, e: Entry) returns (steps: seq<Step>)
    requires AtRest(Run(rest), WRAP)
    ensures Finalizes(Run(steps), PollAt(1000)) && Run(steps).epoch == 1 + WRAP
    ensures Landed(steps) == [Landing(e, 1, 1 + WRAP)]
    ensures Run(steps + [PollAt(1000)]).job.cache.results == [e]
  {
    var s6 := NextScan(rest);
    var s7 := s6 + [RxTest(1, e)];
    Snoc(s6, RxTest(1, e));
    steps := DeliversIt(s7, Landing(e, 1, 1 + WRAP), 1000);
  }

  // What lands in an empty running scan is what its time-out delivers.
  lemma DeliversIt(rest: seq<Step>, x: Landing, now: int) returns (steps: seq<Step>)
    requires Run(rest).job.running && Run(rest).job.lockHeld && !Run(rest).job.done
    requires Run(rest).job.count == 0 && Landed(rest) == [] && now >= Run(rest).job.deadline
    requires Run(rest).inFlight == Storing(x.e, x.carried, x.seen)
    ensures Finalizes(Run(steps), PollAt(now)) && Run(steps).epoch == Run(rest).epoch
    ensures Landed(steps) == [x]
    ensures Run(steps + [PollAt(now)]).job.cache.results == [x.e]
  {
    steps := rest + [Land];
    Snoc(rest, Land);
    Snoc(steps, PollAt(now));
  }

  lemma NextScan(rest: seq<Step>) returns (steps: seq<Step>)
    requires AtRest(Run(rest), WRAP)
    ensures Run(steps).epoch == 1 + WRAP && Run(steps).job.generation == 1 && Run(steps).inFlight == Nothing
    ensures Run(steps).job.running && Run(steps).job.lockHeld && !Run(steps).job.done && Run(steps).job.count == 0
    ensures Run(steps).job.deadline == 1000 && Landed(steps) == []
  {
    var s5 := rest + [TryStart];
    steps := s5 + [Submit(true, 0, 1)];
    LockHeldWhileInFlight(rest);
    Snoc(rest, TryStart);
    Snoc(s5, Submit(true, 0, 1));
  }

  // The generation test passes exactly the callbacks that are a multiple of 2^32
  // generations late: only the current scan's, when none is that late.
  lemma TestPasses(s: State, carried: nat)
    requires LockInv(s) && carried <= s.epoch
    ensures carried % WRAP == s.job.generation <==> (s.epoch - carried) % WRAP == 0
  {
    var q := (s.epoch - carried) / WRAP;
    assert s.epoch == carried + WRAP * q + (s.epoch - carried) % WRAP;
  }
}
