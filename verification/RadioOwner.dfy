// The radio owner task (main/radio_control.c) and the wrappers that share static
// argument and result slots around it (main/uplink_halow.c, main/downlink_halow_ap.c).
//
// The protocol is a machine over atomic steps: any number of calls, each with its
// own completion semaphore, one request slot, one owner task. Timeouts fire at any
// moment. A run is an arbitrary list of steps; a step that is not enabled changes
// nothing.
module RadioOwner {
  import opened Options

  type CallId = nat
  type Slot = nat
  type Value = int

  datatype Result = Ok | Timeout | NoMem | InvalidState

  // The binary completion semaphore of one call.
  datatype Sem = Absent | Live(given: bool) | Deleted

  datatype Phase =
    | Entered                  // holds its result lock, radio_control_run not entered yet
    | Sending                  // blocked in xQueueSend
    | Waiting                  // blocked in xSemaphoreTake
    | Closing(outcome: Result) // about to delete its semaphore
    | Returned(result: Result) // radio_control_run has returned
    | Left(final: Result, read: Option<Value>) // result read, lock released

  // `ticket`, `made` and `used` are history: the call's position in the order in which
  // requests were accepted, what its function has produced, and the arguments that
  // the function found.
  datatype Call = Call(
    slot: Option<Slot>, arg: Value, phase: Phase, sem: Sem, ticket: nat, made: Option<Value>, used: Option<Value>)

  // The static argument structure of a slot; `builder` is history.
  datatype Args = Args(builder: CallId, value: Value)

  datatype Owner = Idle | Running(call: CallId) | Giving(call: CallId)

  // `accepted`, `started`, `finished` count requests (history); `faulted` records
  // that a deleted semaphore was given.
  datatype State = State(
    created: bool, calls: map<CallId, Call>, queue: seq<CallId>, owner: Owner,
    locks: map<Slot, CallId>, args: map<Slot, Args>, slots: map<Slot, Value>,
    accepted: nat, started: nat, finished: nat, faulted: bool)

  const QUEUE_DEPTH := 1

  function Initial(): State {
    State(false, map[], [], Idle, map[], map[], map[], 0, 0, 0, false)
  }

  datatype Step =
    | Init
    | Enter(c: CallId, slot: Option<Slot>, arg: Value)
    | Create(c: CallId, ok: bool)
    | Send(c: CallId)
    | SendTimeout(c: CallId)
    | Take(c: CallId)
    | TakeTimeout(c: CallId)
    | Close(c: CallId)
    | Leave(c: CallId)
    | Receive
    | Execute(v: Value)
    | Give

  function Put(s: State, c: CallId, call: Call): State {
    s.(calls := s.calls[c := call])
  }

  // A wrapper with a static slot takes its lock and then builds the arguments there.
  function EnterStep(s: State, c: CallId, slot: Option<Slot>, arg: Value): State {
    if !CanEnter(s, c, slot) then s
    else
      Put(s, c, Call(slot, arg, Entered, Absent, 0, None, None))
      .(locks := if slot.Some? then s.locks[slot.value := c] else s.locks,
        args := if slot.Some? then s.args[slot.value := Args(c, arg)] else s.args)
  }

  predicate CanEnter(s: State, c: CallId, slot: Option<Slot>) {
    c !in s.calls && (slot.Some? ==> slot.value !in s.locks)
  }

  // A step of a call that touches nothing but the call itself.
  function LocalStep(created: bool, call: Call, step: Step): Call {
    match step
    case Create(_, ok) =>
      if call.phase != Entered then call
      else if !created then call.(phase := Returned(InvalidState))
      else if !ok then call.(phase := Returned(NoMem))
      else call.(phase := Sending, sem := Live(false))
    case SendTimeout(_) =>
      if call.phase != Sending then call else call.(phase := Closing(NoMem))
    case Take(_) =>
      if call.phase != Waiting || call.sem != Live(true) then call
      else call.(phase := Closing(Ok), sem := Live(false))
    case TakeTimeout(_) =>
      if call.phase != Waiting then call else call.(phase := Returned(Timeout))
    case Close(_) =>
      if !call.phase.Closing? then call
      else call.(phase := Returned(call.phase.outcome), sem := Deleted)
    case _ => call
  }

  function SendStep(s: State, c: CallId): State
    requires c in s.calls
  {
    if s.calls[c].phase != Sending || |s.queue| >= QUEUE_DEPTH then s
    else
      Put(s, c, s.calls[c].(phase := Waiting, ticket := s.accepted))
      .(queue := s.queue + [c], accepted := s.accepted + 1)
  }

  // The wrapper reads its slot if the call came back OK, then releases the lock.
  function LeaveStep(s: State, c: CallId): State
    requires c in s.calls
  {
    var call := s.calls[c];
    if !call.phase.Returned? then s
    else if call.slot.None? then Put(s, c, call.(phase := Left(call.phase.result, None)))
    else
      var read := if call.phase.result == Ok && call.slot.value in s.slots
                  then Some(s.slots[call.slot.value]) else None;
      Put(s, c, call.(phase := Left(call.phase.result, read))).(locks := s.locks - {call.slot.value})
  }

  function ReceiveStep(s: State): State {
    if s.owner != Idle || s.queue == [] then s
    else s.(owner := Running(s.queue[0]), queue := s.queue[1..], started := s.started + 1)
  }

  // The driver function runs: it reads the arguments in the call's slot, and stores
  // its result there.
  function ExecuteStep(s: State, v: Value): State {
    if !s.owner.Running? || s.owner.call !in s.calls then s
    else
      var c := s.owner.call;
      var slot := s.calls[c].slot;
      Put(s, c, s.calls[c].(made := Some(v), used := ArgsIn(s, slot)))
      .(owner := Giving(c), finished := s.finished + 1,
        slots := if slot.Some? then s.slots[slot.value := v] else s.slots)
  }

  function ArgsIn(s: State, slot: Option<Slot>): Option<Value> {
    if slot.Some? && slot.value in s.args then Some(s.args[slot.value].value) else None
  }

  function GiveStep(s: State): State {
    if !s.owner.Giving? then s
    else if s.owner.call !in s.calls || !s.calls[s.owner.call].sem.Live? then s.(owner := Idle, faulted := true)
    else Put(s, s.owner.call, s.calls[s.owner.call].(sem := Live(true))).(owner := Idle)
  }

  function Next(s: State, step: Step): State {
    match step
    case Init => s.(created := true)
    case Enter(c, slot, arg) => EnterStep(s, c, slot, arg)
    case Send(c) => if c in s.calls then SendStep(s, c) else s
    case Leave(c) => if c in s.calls then LeaveStep(s, c) else s
    case Receive => ReceiveStep(s)
    case Execute(v) => ExecuteStep(s, v)
    case Give => GiveStep(s)
    case _ => if step.c in s.calls then Put(s, step.c, LocalStep(s.created, s.calls[step.c], step)) else s
  }

  function Run(steps: seq<Step>): State {
    if steps == [] then Initial() else Next(Run(steps[..|steps| - 1]), steps[|steps| - 1])
  }

  // ---------------------------------------------------------------- invariant

  predicate PassedTheQueue(p: Phase) {
    p == Waiting || p == Closing(Ok) || p == Returned(Ok) || p == Returned(Timeout)
    || (p.Left? && (p.final == Ok || p.final == Timeout))
  }

  predicate CompletedOk(p: Phase) {
    p == Closing(Ok) || p == Returned(Ok) || (p.Left? && p.final == Ok)
  }

  ghost predicate Has(s: State, c: CallId, ticket: nat) {
    c in s.calls && PassedTheQueue(s.calls[c].phase) && s.calls[c].ticket == ticket
  }

  // Queue, owner and counters fit together.
  ghost predicate OrderInv(s: State) {
    && !s.faulted
    && |s.queue| <= QUEUE_DEPTH
    && s.accepted == s.started + |s.queue|
    && s.started == s.finished + (if s.owner.Running? then 1 else 0)
    && (s.queue != [] ==> Has(s, s.queue[0], s.started))
    && (s.owner.Running? ==> Has(s, s.owner.call, s.finished))
    && (s.owner.Giving? ==> s.finished > 0 && Has(s, s.owner.call, s.finished - 1))
  }

  // What is true of one call when `finished` functions have returned; `giving`
  // says that the owner is about to give this call's semaphore.
  predicate CallOk(call: Call, accepted: nat, finished: nat, giving: bool) {
    var passed := PassedTheQueue(call.phase);
    && (passed ==> call.ticket < accepted)
    && (passed && (call.ticket >= finished || giving) ==> call.sem == Live(false) && !CompletedOk(call.phase))
    && (call.sem == Live(true) ==> passed)
    && (call.phase == Sending ==> call.sem == Live(false))
    && (call.phase == Waiting || call.phase.Closing? ==> call.sem.Live?)
    && (call.phase.Closing? ==> call.phase.outcome == Ok || call.phase.outcome == NoMem)
    && (call.made.Some? <==> passed && call.ticket < finished)
    && (call.phase.Left? ==>
          call.phase.read == if call.phase.final == Ok && call.slot.Some? then call.made else None)
  }

  ghost predicate CallsInv(s: State) {
    forall c :: c in s.calls ==> CallOk(s.calls[c], s.accepted, s.finished, s.owner == Giving(c))
  }

  ghost predicate TicketInv(s: State) {
    forall c, d :: c in s.calls && d in s.calls && c != d
      && PassedTheQueue(s.calls[c].phase) && PassedTheQueue(s.calls[d].phase)
      ==> s.calls[c].ticket != s.calls[d].ticket
  }

  // A guarded call holds its slot's lock from Enter to Leave, and nobody else does.
  ghost predicate LockInv(s: State) {
    && (forall c :: c in s.calls && s.calls[c].slot.Some? && !s.calls[c].phase.Left?
          ==> s.calls[c].slot.value in s.locks && s.locks[s.calls[c].slot.value] == c)
    && (forall k :: k in s.locks ==>
          s.locks[k] in s.calls && s.calls[s.locks[k]].slot == Some(k) && !s.calls[s.locks[k]].phase.Left?)
  }

  // Nothing on slot k was accepted behind the holder of k's lock ...
  ghost predicate NoneBehind(s: State) {
    forall k, d :: k in s.locks && s.locks[k] in s.calls && d in s.calls && s.calls[d].slot == Some(k)
      && PassedTheQueue(s.calls[s.locks[k]].phase) && PassedTheQueue(s.calls[d].phase)
      ==> s.calls[d].ticket <= s.calls[s.locks[k]].ticket
  }

  // ... so once the holder's function has run, the slot keeps what it produced.
  ghost predicate SlotInv(s: State) {
    forall k :: k in s.locks && s.locks[k] in s.calls && s.calls[s.locks[k]].made.Some?
      ==> k in s.slots && s.calls[s.locks[k]].made == Some(s.slots[k])
  }

  ghost predicate Inv(s: State) {
    OrderInv(s) && CallsInv(s) && TicketInv(s) && LockInv(s) && NoneBehind(s) && SlotInv(s)
  }

  // Two records of one call that the queue, the locks and the slots cannot tell apart.
  predicate Alike(a: Call, b: Call) {
    && a.slot == b.slot && a.ticket == b.ticket && a.made == b.made
    && (PassedTheQueue(a.phase) <==> PassedTheQueue(b.phase))
    && (a.phase.Left? <==> b.phase.Left?)
  }

  lemma AlikeKeepsOrder(s: State, c: CallId, call: Call)
    requires OrderInv(s) && c in s.calls && Alike(s.calls[c], call)
    ensures OrderInv(Put(s, c, call))
  {
  }

  lemma AlikeKeepsTickets(s: State, c: CallId, call: Call)
    requires TicketInv(s) && c in s.calls && Alike(s.calls[c], call)
    ensures TicketInv(Put(s, c, call))
  {
  }

  lemma AlikeKeepsLocks(s: State, c: CallId, call: Call)
    requires LockInv(s) && c in s.calls && Alike(s.calls[c], call)
    ensures LockInv(Put(s, c, call))
  {
  }

  lemma AlikeKeepsBehind(s: State, c: CallId, call: Call)
    requires NoneBehind(s) && c in s.calls && Alike(s.calls[c], call)
    ensures NoneBehind(Put(s, c, call))
  {
  }

  lemma AlikeKeepsSlots(s: State, c: CallId, call: Call)
    requires SlotInv(s) && c in s.calls && Alike(s.calls[c], call)
    ensures SlotInv(Put(s, c, call))
  {
  }

  lemma AlikeKeepsInv(s: State, c: CallId, call: Call)
    requires Inv(s) && c in s.calls && Alike(s.calls[c], call)
    requires CallOk(call, s.accepted, s.finished, s.owner == Giving(c))
    ensures Inv(Put(s, c, call))
  {
    PutKeepsCalls(s, c, call);
    AlikeKeepsOrder(s, c, call);
    AlikeKeepsTickets(s, c, call);
    AlikeKeepsLocks(s, c, call);
    AlikeKeepsBehind(s, c, call);
    AlikeKeepsSlots(s, c, call);
  }

  lemma PutKeepsCalls(s: State, c: CallId, call: Call)
    requires CallsInv(s) && CallOk(call, s.accepted, s.finished, s.owner == Giving(c))
    ensures CallsInv(Put(s, c, call))
  {
  }

  lemma EnterKeepsOrder(s: State, c: CallId, slot: Option<Slot>, arg: Value)
    requires OrderInv(s)
    ensures OrderInv(EnterStep(s, c, slot, arg))
  {
  }

  lemma EnterKeepsLocks(s: State, c: CallId, slot: Option<Slot>, arg: Value)
    requires LockInv(s)
    ensures LockInv(EnterStep(s, c, slot, arg))
  {
  }

  lemma EnterKeepsTickets(s: State, c: CallId, slot: Option<Slot>, arg: Value)
    requires TicketInv(s) && LockInv(s) && NoneBehind(s)
    ensures TicketInv(EnterStep(s, c, slot, arg))
    ensures NoneBehind(EnterStep(s, c, slot, arg))
  {
  }

  lemma EnterKeepsSlots(s: State, c: CallId, slot: Option<Slot>, arg: Value)
    requires LockInv(s) && SlotInv(s)
    ensures SlotInv(EnterStep(s, c, slot, arg))
  {
  }

  lemma EnterKeepsInv(s: State, c: CallId, slot: Option<Slot>, arg: Value)
    requires Inv(s)
    ensures Inv(EnterStep(s, c, slot, arg))
  {
    EnterKeepsOrder(s, c, slot, arg);
    EnterKeepsLocks(s, c, slot, arg);
    EnterKeepsTickets(s, c, slot, arg);
    EnterKeepsSlots(s, c, slot, arg);
    EnterKeepsCalls(s, c, slot, arg);
  }

  lemma EnterKeepsCalls(s: State, c: CallId, slot: Option<Slot>, arg: Value)
    requires CallsInv(s)
    ensures CallsInv(EnterStep(s, c, slot, arg))
  {
    if CanEnter(s, c, slot) {
      PutKeepsCalls(s, c, Call(slot, arg, Entered, Absent, 0, None, None));
    }
  }

  lemma LocalKeepsInv(s: State, c: CallId, step: Step)
    requires Inv(s) && c in s.calls
    ensures Inv(Put(s, c, LocalStep(s.created, s.calls[c], step)))
  {
    assert CallOk(s.calls[c], s.accepted, s.finished, s.owner == Giving(c));
    var call := LocalCall(s.created, s.calls[c], step, s.accepted, s.finished, s.owner == Giving(c));
    AlikeKeepsInv(s, c, call);
  }

  lemma LocalCall(created: bool, before: Call, step: Step, accepted: nat, finished: nat, giving: bool)
    returns (after: Call)
    requires CallOk(before, accepted, finished, giving)
    ensures after == LocalStep(created, before, step)
    ensures Alike(before, after) && CallOk(after, accepted, finished, giving)
  {
    after := LocalStep(created, before, step);
  }

  lemma SendKeepsOrder(s: State, c: CallId)
    requires OrderInv(s) && CallsInv(s) && c in s.calls
    ensures OrderInv(SendStep(s, c)) && CallsInv(SendStep(s, c))
  {
  }

  lemma SendKeepsLocks(s: State, c: CallId)
    requires CallsInv(s) && c in s.calls && LockInv(s)
    ensures LockInv(SendStep(s, c))
  {
  }

  lemma SendKeepsTickets(s: State, c: CallId)
    requires CallsInv(s) && c in s.calls && TicketInv(s)
    ensures TicketInv(SendStep(s, c))
  {
  }

  lemma SendKeepsBehind(s: State, c: CallId)
    requires CallsInv(s) && c in s.calls && LockInv(s) && NoneBehind(s)
    ensures NoneBehind(SendStep(s, c))
  {
  }

  lemma SendKeepsSlots(s: State, c: CallId)
    requires CallsInv(s) && c in s.calls && LockInv(s) && SlotInv(s)
    ensures SlotInv(SendStep(s, c))
  {
  }

  lemma SendKeepsInv(s: State, c: CallId)
    requires Inv(s) && c in s.calls
    ensures Inv(SendStep(s, c))
  {
    SendKeepsOrder(s, c);
    SendKeepsLocks(s, c);
    SendKeepsTickets(s, c);
    SendKeepsBehind(s, c);
    SendKeepsSlots(s, c);
  }

  // State t is s with call c gone: its lock released, its result taken.
  ghost predicate HasLeft(s: State, c: CallId, t: State) {
    && c in s.calls && c in t.calls && t.calls == s.calls[c := t.calls[c]]
    && t.queue == s.queue && t.owner == s.owner && t.slots == s.slots && t.faulted == s.faulted
    && t.accepted == s.accepted && t.started == s.started && t.finished == s.finished
    && var a, b := s.calls[c], t.calls[c];
       && a.phase.Returned? && b.phase.Left? && b.phase.final == a.phase.result
       && b == a.(phase := b.phase) && (PassedTheQueue(a.phase) <==> PassedTheQueue(b.phase))
       && b.phase.read == (if a.slot.Some? && a.phase.result == Ok && a.slot.value in s.slots
                           then Some(s.slots[a.slot.value]) else None)
       && t.locks == if a.slot.Some? then s.locks - {a.slot.value} else s.locks
  }

  lemma LeaveUnguarded(s: State, c: CallId)
    requires c in s.calls && s.calls[c].phase.Returned? && s.calls[c].slot.None?
    ensures HasLeft(s, c, LeaveStep(s, c))
  {
  }

  lemma LeaveGuarded(s: State, c: CallId)
    requires c in s.calls && s.calls[c].phase.Returned? && s.calls[c].slot.Some?
    ensures HasLeft(s, c, LeaveStep(s, c))
  {
  }

  lemma LeaveShape(s: State, c: CallId) returns (t: State)
    requires c in s.calls
    ensures t == LeaveStep(s, c)
    ensures t == s || HasLeft(s, c, t)
  {
    t := LeaveStep(s, c);
    if s.calls[c].phase.Returned? {
      if s.calls[c].slot.None? {
        LeaveUnguarded(s, c);
      } else {
        LeaveGuarded(s, c);
      }
    }
  }

  lemma LeaveKeepsOrder(s: State, c: CallId, t: State)
    requires OrderInv(s) && HasLeft(s, c, t)
    ensures OrderInv(t)
  {
  }

  lemma LeftCallOk(s: State, c: CallId, t: State)
    requires CallsInv(s) && LockInv(s) && SlotInv(s) && HasLeft(s, c, t)
    ensures CallOk(t.calls[c], s.accepted, s.finished, s.owner == Giving(c))
  {
    assert CallOk(s.calls[c], s.accepted, s.finished, s.owner == Giving(c));
  }

  lemma LeaveKeepsCalls(s: State, c: CallId, t: State)
    requires CallsInv(s) && LockInv(s) && SlotInv(s) && HasLeft(s, c, t)
    ensures CallsInv(t)
  {
    LeftCallOk(s, c, t);
    OneCallChanged(s, c, t.calls[c], t);
  }

  lemma OneCallChanged(s: State, c: CallId, call: Call, t: State)
    requires CallsInv(s) && t.calls == s.calls[c := call]
    requires t.accepted == s.accepted && t.finished == s.finished && t.owner == s.owner
    requires CallOk(call, s.accepted, s.finished, s.owner == Giving(c))
    ensures CallsInv(t)
  {
  }

  lemma LeaveKeepsLocks(s: State, c: CallId, t: State)
    requires LockInv(s) && HasLeft(s, c, t)
    ensures LockInv(t)
  {
  }

  lemma LeaveKeepsTickets(s: State, c: CallId, t: State)
    requires TicketInv(s) && HasLeft(s, c, t)
    ensures TicketInv(t)
  {
  }

  lemma LeaveKeepsBehind(s: State, c: CallId, t: State)
    requires NoneBehind(s) && HasLeft(s, c, t)
    ensures NoneBehind(t)
  {
  }

  lemma LeaveKeepsSlots(s: State, c: CallId, t: State)
    requires SlotInv(s) && HasLeft(s, c, t)
    ensures SlotInv(t)
  {
  }

  lemma LeaveKeepsInv(s: State, c: CallId)
    requires Inv(s) && c in s.calls
    ensures Inv(LeaveStep(s, c))
  {
    var t := LeaveShape(s, c);
    if t != s {
      LeaveKeepsOrder(s, c, t);
      LeaveKeepsCalls(s, c, t);
      LeaveKeepsLocks(s, c, t);
      LeaveKeepsTickets(s, c, t);
      LeaveKeepsBehind(s, c, t);
      LeaveKeepsSlots(s, c, t);
    }
  }

  lemma ReceiveKeepsInv(s: State)
    requires Inv(s)
    ensures Inv(ReceiveStep(s))
  {
  }

  lemma ExecuteKeepsOrder(s: State, v: Value)
    requires OrderInv(s) && CallsInv(s) && TicketInv(s)
    ensures OrderInv(ExecuteStep(s, v)) && CallsInv(ExecuteStep(s, v))
  {
  }

  lemma ExecuteKeepsTickets(s: State, v: Value)
    requires TicketInv(s) && NoneBehind(s)
    ensures TicketInv(ExecuteStep(s, v)) && NoneBehind(ExecuteStep(s, v))
  {
  }

  lemma ExecuteKeepsLocks(s: State, v: Value)
    requires LockInv(s)
    ensures LockInv(ExecuteStep(s, v))
  {
  }

  // The running request is the oldest unfinished one, so it cannot be an abandoned
  // request writing over the value of a holder that has already finished.
  lemma ExecuteKeepsSlots(s: State, v: Value)
    requires Inv(s)
    ensures SlotInv(ExecuteStep(s, v))
  {
  }

  lemma ExecuteKeepsInv(s: State, v: Value)
    requires Inv(s)
    ensures Inv(ExecuteStep(s, v))
  {
    ExecuteKeepsOrder(s, v);
    ExecuteKeepsTickets(s, v);
    ExecuteKeepsLocks(s, v);
    ExecuteKeepsSlots(s, v);
  }

  lemma GiveKeepsInv(s: State)
    requires Inv(s)
    ensures Inv(GiveStep(s))
  {
    if s.owner.Giving? {
      var c := s.owner.call;
      var call := s.calls[c].(sem := Live(true));
      AlikeKeepsOrder(s, c, call);
      AlikeKeepsTickets(s, c, call);
      AlikeKeepsLocks(s, c, call);
      AlikeKeepsBehind(s, c, call);
      AlikeKeepsSlots(s, c, call);
    }
  }

  lemma NextKeepsInv(s: State, step: Step)
    requires Inv(s)
    ensures Inv(Next(s, step))
  {
    match step
    case Init =>
    case Enter(c, slot, arg) => EnterKeepsInv(s, c, slot, arg);
    case Send(c) => if c in s.calls { SendKeepsInv(s, c); }
    case Leave(c) => if c in s.calls { LeaveKeepsInv(s, c); }
    case Receive => ReceiveKeepsInv(s);
    case Execute(v) => ExecuteKeepsInv(s, v);
    case Give => GiveKeepsInv(s);
    case _ => if step.c in s.calls { LocalKeepsInv(s, step.c, step); }
  }

  lemma {:induction false} RunKeepsInv(steps: seq<Step>)
    ensures Inv(Run(steps))
  {
    if steps != [] {
      RunKeepsInv(steps[..|steps| - 1]);
      NextKeepsInv(Run(steps[..|steps| - 1]), steps[|steps| - 1]);
    }
  }

  // ------------------------------------------------------------ what a run shows

  // The requests, in the order in which xQueueSend took them.
  function Accepted(steps: seq<Step>): seq<CallId> {
    if steps == [] then []
    else
      var before, last := steps[..|steps| - 1], steps[|steps| - 1];
      Accepted(before) + if last.Send? && Run(steps).accepted > Run(before).accepted then [last.c] else []
  }

  // What the driver saw: a function entered, a function returned.
  datatype Mark = Began(call: CallId) | Ended(call: CallId)

  function Marks(before: Owner, after: Owner): seq<Mark> {
    if after.Running? && !before.Running? then [Began(after.call)]
    else if before.Running? && !after.Running? then [Ended(before.call)]
    else []
  }

  function DriverLog(steps: seq<Step>): seq<Mark> {
    if steps == [] then []
    else DriverLog(steps[..|steps| - 1]) + Marks(Run(steps[..|steps| - 1]).owner, Run(steps).owner)
  }

  // The log of a driver that serves `served` one after the other, in that order.
  function Serial(served: seq<CallId>): seq<Mark> {
    if served == [] then []
    else Serial(served[..|served| - 1]) + [Began(served[|served| - 1]), Ended(served[|served| - 1])]
  }

  ghost predicate Matches(s: State, order: seq<CallId>) {
    && |order| == s.accepted
    && (forall i :: 0 <= i < |order| ==> Has(s, order[i], i))
    && (forall c :: c in s.calls && PassedTheQueue(s.calls[c].phase) ==>
          s.calls[c].ticket < |order| && order[s.calls[c].ticket] == c)
  }

  // No step but an accepting Send makes a call pass the queue, and none takes that back.
  ghost predicate Passes(s: State, step: Step, t: State) {
    && (t.accepted == s.accepted || (step.Send? && t.accepted == s.accepted + 1 && Has(t, step.c, s.accepted)))
    && (forall d: CallId, n: nat :: Has(s, d, n) ==> Has(t, d, n))
    && (forall d: CallId, n: nat :: Has(t, d, n) && !Has(s, d, n) ==>
          step.Send? && d == step.c && n == s.accepted && t.accepted == n + 1)
  }

  lemma LocalPasses(s: State, c: CallId, step: Step)
    requires CallsInv(s) && c in s.calls
    ensures Passes(s, step, Put(s, c, LocalStep(s.created, s.calls[c], step)))
  {
    assert CallOk(s.calls[c], s.accepted, s.finished, s.owner == Giving(c));
    var call := LocalCall(s.created, s.calls[c], step, s.accepted, s.finished, s.owner == Giving(c));
    AlikePasses(s, c, call, step);
  }

  lemma AlikePasses(s: State, c: CallId, call: Call, step: Step)
    requires c in s.calls && Alike(s.calls[c], call)
    ensures Passes(s, step, Put(s, c, call))
  {
  }

  lemma FreshPasses(s: State, step: Step, t: State, c: CallId)
    requires c !in s.calls && c in t.calls && t.calls == s.calls[c := t.calls[c]] && t.accepted == s.accepted
    requires !PassedTheQueue(t.calls[c].phase)
    ensures Passes(s, step, t)
  {
  }

  lemma EnterPasses(s: State, c: CallId, slot: Option<Slot>, arg: Value)
    ensures Passes(s, Enter(c, slot, arg), EnterStep(s, c, slot, arg))
  {
    if CanEnter(s, c, slot) {
      FreshPasses(s, Enter(c, slot, arg), EnterStep(s, c, slot, arg), c);
    }
  }

  lemma ExecutePasses(s: State, v: Value)
    ensures Passes(s, Execute(v), ExecuteStep(s, v))
  {
  }

  lemma GivePasses(s: State)
    ensures Passes(s, Give, GiveStep(s))
  {
  }

  lemma SendPasses(s: State, c: CallId)
    requires c in s.calls
    ensures Passes(s, Send(c), SendStep(s, c))
  {
  }

  lemma LeavePasses(s: State, c: CallId)
    requires c in s.calls
    ensures Passes(s, Leave(c), LeaveStep(s, c))
  {
    var t := LeaveShape(s, c);
  }

  lemma NextPasses(s: State, step: Step)
    requires OrderInv(s) && CallsInv(s)
    ensures Passes(s, step, Next(s, step))
  {
    match step
    case Init =>
    case Enter(c, slot, arg) => EnterPasses(s, c, slot, arg);
    case Send(c) => if c in s.calls { SendPasses(s, c); }
    case Leave(c) => if c in s.calls { LeavePasses(s, c); }
    case Receive =>
    case Execute(v) => ExecutePasses(s, v);
    case Give => GivePasses(s);
    case _ => if step.c in s.calls { LocalPasses(s, step.c, step); }
  }

  lemma {:induction false} AcceptedMatches(steps: seq<Step>)
    ensures Matches(Run(steps), Accepted(steps))
  {
    if steps != [] {
      var before := steps[..|steps| - 1];
      RunKeepsInv(before);
      AcceptedMatches(before);
      NextPasses(Run(before), steps[|steps| - 1]);
      var s, t := Run(before), Run(steps);
      forall c | c in t.calls && PassedTheQueue(t.calls[c].phase)
        ensures t.calls[c].ticket < |Accepted(steps)| && Accepted(steps)[t.calls[c].ticket] == c
      {
        assert Has(t, c, t.calls[c].ticket);
        if Has(s, c, t.calls[c].ticket) {
        }
      }
    }
  }

  lemma EnterKeepsOwner(s: State, c: CallId, slot: Option<Slot>, arg: Value)
    ensures EnterStep(s, c, slot, arg).owner == s.owner && EnterStep(s, c, slot, arg).finished == s.finished
  {
  }

  lemma LeaveKeepsOwner(s: State, c: CallId)
    requires c in s.calls
    ensures LeaveStep(s, c).owner == s.owner && LeaveStep(s, c).finished == s.finished
  {
  }

  lemma CallsKeepOwner(s: State, step: Step)
    requires !step.Receive? && !step.Execute? && !step.Give?
    ensures Next(s, step).owner == s.owner && Next(s, step).finished == s.finished
  {
    match step
    case Enter(c, slot, arg) => EnterKeepsOwner(s, c, slot, arg);
    case Leave(c) => if c in s.calls { LeaveKeepsOwner(s, c); }
    case _ =>
  }

  lemma NextOwner(s: State, step: Step)
    requires OrderInv(s)
    ensures Next(s, step).finished ==
      s.finished + (if s.owner.Running? && !Next(s, step).owner.Running? then 1 else 0)
    ensures s.owner.Running? && Next(s, step).owner.Running? ==> Next(s, step).owner == s.owner
  {
    if !step.Receive? && !step.Execute? && !step.Give? {
      CallsKeepOwner(s, step);
    }
  }

  lemma {:induction false} AcceptedDistinct(steps: seq<Step>, i: nat, j: nat)
    requires i < j < |Accepted(steps)|
    ensures Accepted(steps)[i] != Accepted(steps)[j]
  {
    AcceptedMatches(steps);
  }

  // One driver function at a time, in the order in which the requests were
  // accepted, each at most once (see AcceptedDistinct): at every moment of every
  // run the driver's log is that of serving the first `finished` requests one by
  // one, plus at most one function that has been entered and not left.
  lemma {:induction false} DriverIsSerial(steps: seq<Step>)
    ensures Run(steps).finished <= |Accepted(steps)|
    ensures Run(steps).owner.Running? ==> Run(steps).finished < |Accepted(steps)|
    ensures DriverLog(steps) == Served(Accepted(steps), Run(steps).finished, Run(steps).owner.Running?)
  {
    AcceptedMatches(steps);
    RunKeepsInv(steps);
    if steps != [] {
      var before := steps[..|steps| - 1];
      DriverIsSerial(before);
      RunKeepsInv(before);
      AcceptedMatches(before);
      NextOwner(Run(before), steps[|steps| - 1]);
      ServedStep(Run(before), Run(steps), Accepted(before), Accepted(steps));
    }
  }

  function Served(order: seq<CallId>, finished: nat, running: bool): seq<Mark>
    requires finished <= |order| && (running ==> finished < |order|)
  {
    Serial(order[..finished]) + if running then [Began(order[finished])] else []
  }

  lemma ServedStep(s: State, t: State, before: seq<CallId>, after: seq<CallId>)
    requires OrderInv(s) && OrderInv(t) && Matches(s, before) && Matches(t, after) && before <= after
    requires t.finished == s.finished + (if s.owner.Running? && !t.owner.Running? then 1 else 0)
    requires s.owner.Running? && t.owner.Running? ==> t.owner == s.owner
    ensures Served(after, t.finished, t.owner.Running?)
         == Served(before, s.finished, s.owner.Running?) + Marks(s.owner, t.owner)
  {
    if t.finished == s.finished {
      assert after[..t.finished] == before[..s.finished];
    } else {
      assert after[..t.finished][..s.finished] == before[..s.finished];
      assert after[..t.finished][s.finished] == s.owner.call;
    }
  }

  // What radio_control_run has returned to call c, if it has returned.
  function Outcome(s: State, c: CallId): Option<Result> {
    if c !in s.calls then None
    else match s.calls[c].phase
      case Returned(r) => Some(r)
      case Left(r, _) => Some(r)
      case _ => None
  }

  // The queue and the owner know only calls that have passed the queue.
  lemma GiversKnow(s: State, c: CallId)
    requires OrderInv(s) && (c in s.queue || s.owner == Running(c) || s.owner == Giving(c))
    ensures c in s.calls && PassedTheQueue(s.calls[c].phase)
    ensures s.calls[c].ticket >= s.finished || s.owner == Giving(c)
  {
    if c in s.queue {
      assert s.queue[0] == c;
    }
  }

  lemma GiversFindTheSemaphore(s: State, c: CallId)
    requires OrderInv(s) && CallsInv(s) && (c in s.queue || s.owner == Running(c) || s.owner == Giving(c))
    ensures c in s.calls && s.calls[c].sem == Live(false)
  {
    GiversKnow(s, c);
    assert CallOk(s.calls[c], s.accepted, s.finished, s.owner == Giving(c));
  }

  // No semaphore is deleted while the queue or the owner task can still give it,
  // and no deleted semaphore was ever given.
  lemma SemaphoresOutliveTheirGivers(steps: seq<Step>, c: CallId)
    ensures !Run(steps).faulted
    ensures c in Run(steps).queue || Run(steps).owner == Running(c) || Run(steps).owner == Giving(c)
      ==> c in Run(steps).calls && Run(steps).calls[c].sem == Live(false)
  {
    RunKeepsInv(steps);
    var s := Run(steps);
    if c in s.queue || s.owner == Running(c) || s.owner == Giving(c) {
      GiversFindTheSemaphore(s, c);
    }
  }

  // OK: the caller's own function has completed (once, by AcceptedDistinct).
  // Timeout: the request was accepted, and its function may still run.
  lemma OutcomeMeaning(steps: seq<Step>, c: CallId)
    ensures Outcome(Run(steps), c) == Some(Ok) ==>
      Run(steps).finished <= |Accepted(steps)| && c in Accepted(steps)[..Run(steps).finished]
    ensures Outcome(Run(steps), c) == Some(Timeout) ==> c in Accepted(steps)
  {
    RunKeepsInv(steps);
    AcceptedMatches(steps);
    var s := Run(steps);
    if Outcome(s, c) == Some(Ok) {
      assert Accepted(steps)[..s.finished][s.calls[c].ticket] == c;
    }
  }

  predicate Refused(s: State, c: CallId) {
    Outcome(s, c) == Some(NoMem) || Outcome(s, c) == Some(InvalidState)
  }

  lemma RefusedIsNotAccepted(steps: seq<Step>, c: CallId)
    requires Refused(Run(steps), c)
    ensures c !in Accepted(steps)
  {
    AcceptedMatches(steps);
  }

  lemma RunAppend(before: seq<Step>, step: Step)
    ensures Run(before + [step]) == Next(Run(before), step)
  {
    assert (before + [step])[..|before|] == before;
  }

  lemma SplitLast(steps: seq<Step>, more: seq<Step>) returns (before: seq<Step>, last: Step)
    requires more != []
    ensures before == steps + more[..|more| - 1] && last == more[|more| - 1] && steps + more == before + [last]
  {
    before, last := steps + more[..|more| - 1], more[|more| - 1];
  }

  lemma {:induction false} RefusalStays(steps: seq<Step>, more: seq<Step>, c: CallId)
    requires Refused(Run(steps), c)
    ensures Outcome(Run(steps + more), c) == Outcome(Run(steps), c)
  {
    if more == [] {
      assert steps + more == steps;
    } else {
      RefusalStays(steps, more[..|more| - 1], c);
      var before, last := SplitLast(steps, more);
      RunAppend(before, last);
      OutcomeStays(Run(before), last, c);
    }
  }

  // NoMem (slot occupied, or no semaphore) and InvalidState: the function never
  // runs, however the run continues.
  lemma RefusedNeverRuns(steps: seq<Step>, more: seq<Step>, c: CallId)
    requires Outcome(Run(steps), c) == Some(NoMem) || Outcome(Run(steps), c) == Some(InvalidState)
    ensures Outcome(Run(steps + more), c) == Outcome(Run(steps), c)
    ensures c !in Accepted(steps + more)
  {
    RefusalStays(steps, more, c);
    RefusedIsNotAccepted(steps + more, c);
  }

  // A step of call c that only c can make, and that changes nothing else.
  predicate IsLocal(step: Step) {
    step.Create? || step.SendTimeout? || step.Take? || step.TakeTimeout? || step.Close?
  }

  // What a step does to one call: nothing, or what its own kind of step does.
  ghost predicate CallAfter(s: State, step: Step, a: Call, b: Call, c: CallId) {
    || b == a
    || (IsLocal(step) && step.c == c && b == LocalStep(s.created, a, step))
    || (step == Send(c) && a.phase == Sending && b == a.(phase := Waiting, ticket := s.accepted))
    || (step == Leave(c) && a.phase.Returned? && b.phase.Left? && b.phase.final == a.phase.result
        && b == a.(phase := b.phase))
    || (step.Execute? && s.owner == Running(c) && b == a.(made := Some(step.v), used := ArgsIn(s, a.slot)))
    || (step == Give && s.owner == Giving(c) && b == a.(sem := Live(true)))
  }

  lemma EnterLeavesOthers(s: State, c: CallId, slot: Option<Slot>, arg: Value, d: CallId)
    requires d in s.calls
    ensures d in EnterStep(s, c, slot, arg).calls && EnterStep(s, c, slot, arg).calls[d] == s.calls[d]
  {
  }

  lemma ExecuteOnCall(s: State, v: Value, c: CallId)
    requires c in s.calls
    ensures c in ExecuteStep(s, v).calls && CallAfter(s, Execute(v), s.calls[c], ExecuteStep(s, v).calls[c], c)
  {
  }

  lemma SendOnCall(s: State, d: CallId, c: CallId)
    requires c in s.calls && d in s.calls
    ensures c in SendStep(s, d).calls && CallAfter(s, Send(d), s.calls[c], SendStep(s, d).calls[c], c)
  {
  }

  lemma GiveElsewhere(s: State, c: CallId)
    requires c in s.calls && s.owner != Giving(c)
    ensures c in GiveStep(s).calls && GiveStep(s).calls[c] == s.calls[c]
  {
  }

  lemma GiveOnCall(s: State, c: CallId)
    requires c in s.calls
    ensures c in GiveStep(s).calls && CallAfter(s, Give, s.calls[c], GiveStep(s).calls[c], c)
  {
    if s.owner != Giving(c) {
      GiveElsewhere(s, c);
    }
  }

  lemma LocalStepOnCall(s: State, step: Step, c: CallId)
    requires c in s.calls && IsLocal(step)
    ensures c in Next(s, step).calls && CallAfter(s, step, s.calls[c], Next(s, step).calls[c], c)
  {
  }

  lemma StepOnCall(s: State, step: Step, c: CallId)
    requires c in s.calls
    ensures c in Next(s, step).calls && CallAfter(s, step, s.calls[c], Next(s, step).calls[c], c)
  {
    match step
    case Init =>
    case Enter(d, slot, arg) => EnterLeavesOthers(s, d, slot, arg, c);
    case Send(d) => if d in s.calls { SendOnCall(s, d, c); }
    case Leave(d) => if d in s.calls { var t := LeaveShape(s, d); }
    case Receive =>
    case Execute(v) => ExecuteOnCall(s, v, c);
    case Give => GiveOnCall(s, c);
    case _ => LocalStepOnCall(s, step, c);
  }

  lemma OutcomeStays(s: State, step: Step, c: CallId)
    requires Refused(s, c)
    ensures Outcome(Next(s, step), c) == Outcome(s, c)
  {
    StepOnCall(s, step, c);
  }

  // ------------------------------------------------------------ every outcome has its cause

  // What radio_control_run is about to return, or has returned.
  function Decided(phase: Phase): Option<Result> {
    match phase
    case Closing(r) => Some(r)
    case Returned(r) => Some(r)
    case Left(r, _) => Some(r)
    case _ => None
  }

  function DecidedFor(s: State, c: CallId): Option<Result> {
    if c in s.calls then Decided(s.calls[c].phase) else None
  }

  // In state s the step settles what call c is told: OK if it takes its given
  // semaphore, a timeout if it gives up waiting for it, no memory if the semaphore
  // cannot be created or the queue stays full, an invalid state if there is no queue.
  predicate Settles(s: State, step: Step, c: CallId, r: Result) {
    && c in s.calls
    && match r
       case Ok => step == Take(c) && s.calls[c].phase == Waiting && s.calls[c].sem == Live(true)
       case Timeout => step == TakeTimeout(c) && s.calls[c].phase == Waiting
       case NoMem =>
         || (step == Create(c, false) && s.calls[c].phase == Entered && s.created)
         || (step == SendTimeout(c) && s.calls[c].phase == Sending)
       case InvalidState => step.Create? && step.c == c && s.calls[c].phase == Entered && !s.created
  }

  lemma LocalOnCall(s: State, step: Step, c: CallId)
    requires IsLocal(step) && step.c == c && c in s.calls
    ensures c in Next(s, step).calls && Next(s, step).calls[c] == LocalStep(s.created, s.calls[c], step)
  {
  }

  lemma LocalSettles(created: bool, call: Call, step: Step, r: Result)
    requires IsLocal(step)
    ensures Decided(LocalStep(created, call, step).phase) == Some(r) <==>
      || Decided(call.phase) == Some(r)
      || match r
         case Ok => step.Take? && call.phase == Waiting && call.sem == Live(true)
         case Timeout => step.TakeTimeout? && call.phase == Waiting
         case NoMem => (step.Create? && !step.ok && call.phase == Entered && created)
                    || (step.SendTimeout? && call.phase == Sending)
         case InvalidState => step.Create? && call.phase == Entered && !created
  {
  }

  lemma StepSettles(s: State, step: Step, c: CallId, r: Result)
    ensures DecidedFor(Next(s, step), c) == Some(r)
      <==> DecidedFor(s, c) == Some(r) || Settles(s, step, c, r)
  {
    if c !in s.calls {
      if c in Next(s, step).calls {
        NewCall(s, step, c);
      }
    } else if IsLocal(step) && step.c == c {
      LocalOnCall(s, step, c);
      LocalSettles(s.created, s.calls[c], step, r);
    } else {
      StepOnCall(s, step, c);
    }
  }

  predicate SettledAt(steps: seq<Step>, k: nat, c: CallId, r: Result) {
    k < |steps| && Settles(Run(steps[..k]), steps[k], c, r)
  }

  lemma SettledSooner(before: seq<Step>, step: Step, k: nat, c: CallId, r: Result)
    ensures SettledAt(before + [step], k, c, r)
      <==> SettledAt(before, k, c, r) || (k == |before| && Settles(Run(before), step, c, r))
  {
    if k < |before| {
      assert (before + [step])[..k] == before[..k];
    } else {
      assert (before + [step])[..|before|] == before;
    }
  }

  // A call is told r if and only if some step of the run has settled that, so each is
  // told one thing only, and for one of the reasons that Settles lists.
  lemma {:induction false} SettledExactly(steps: seq<Step>, c: CallId, r: Result)
    ensures DecidedFor(Run(steps), c) == Some(r) <==> exists k :: SettledAt(steps, k, c, r)
  {
    if steps != [] {
      var before, step := steps[..|steps| - 1], steps[|steps| - 1];
      SettledExactly(before, c, r);
      RunAppend(before, step);
      assert steps == before + [step];
      StepSettles(Run(before), step, c, r);
      SettledMore(before, step, c, r);
    }
  }

  lemma SettledMore(before: seq<Step>, step: Step, c: CallId, r: Result)
    ensures (exists k :: SettledAt(before + [step], k, c, r))
      <==> (exists k :: SettledAt(before, k, c, r)) || Settles(Run(before), step, c, r)
  {
    SettledSooner(before, step, |before|, c, r);
    if k :| SettledAt(before + [step], k, c, r) {
      SettledSooner(before, step, k, c, r);
    }
    if k :| SettledAt(before, k, c, r) {
      SettledSooner(before, step, k, c, r);
    }
  }

  // What becomes of a call's semaphore: whoever is told OK, or was refused the queue,
  // has deleted it; after a timeout it is left to the owner task for good.
  predicate SemFits(call: Call, giving: bool) {
    && (call.phase == Waiting && call.made.Some? && !giving ==> call.sem == Live(true))
    && (call.phase == Returned(Ok) ==> call.sem == Deleted)
    && (call.phase == Returned(Timeout) ==> call.sem.Live?)
    && (call.phase == Returned(NoMem) ==> call.sem == Deleted || call.sem == Absent)
    && (call.phase == Returned(InvalidState) || call.phase == Entered ==> call.sem == Absent)
    && (call.phase == Sending || call.phase == Waiting || call.phase.Closing? ==> call.sem.Live?)
    && (call.phase.Closing? ==> call.phase.outcome == Ok || call.phase.outcome == NoMem)
  }

  ghost predicate SemsFit(s: State) {
    forall c :: c in s.calls ==> SemFits(s.calls[c], s.owner == Giving(c))
  }

  lemma LocalKeepsSem(created: bool, call: Call, step: Step, giving: bool)
    requires SemFits(call, giving)
    ensures SemFits(LocalStep(created, call, step), giving)
  {
  }

  lemma GivenBy(s: State, step: Step, c: CallId)
    requires OrderInv(s)
    ensures Next(s, step).owner == Giving(c)
      <==> (s.owner == Giving(c) && !step.Give?) || (s.owner == Running(c) && step.Execute?)
  {
    if !step.Receive? && !step.Execute? && !step.Give? {
      CallsKeepOwner(s, step);
    }
  }

  lemma NewKeepsSem(s: State, step: Step, c: CallId)
    requires c !in s.calls && c in Next(s, step).calls
    ensures SemFits(Next(s, step).calls[c], false) && SemFits(Next(s, step).calls[c], true)
  {
    NewCall(s, step, c);
  }

  lemma GiveKeepsSem(s: State, c: CallId)
    requires OrderInv(s) && CallsInv(s) && s.owner == Giving(c) && c in s.calls && SemFits(s.calls[c], true)
    ensures c in GiveStep(s).calls && SemFits(GiveStep(s).calls[c], false) && GiveStep(s).owner == Idle
  {
    GiversFindTheSemaphore(s, c);
    assert CallOk(s.calls[c], s.accepted, s.finished, true);
  }

  lemma OtherKeepsSem(s: State, step: Step, a: Call, b: Call, c: CallId, giving: bool)
    requires SemFits(a, s.owner == Giving(c)) && CallOk(a, s.accepted, s.finished, s.owner == Giving(c))
    requires CallAfter(s, step, a, b, c) && !(IsLocal(step) && step.c == c) && !(step.Give? && s.owner == Giving(c))
    requires giving <==> s.owner == Giving(c) || (s.owner == Running(c) && step.Execute?)
    ensures SemFits(b, giving)
  {
  }

  lemma StepKeepsSem(s: State, step: Step, c: CallId)
    requires Inv(s) && SemsFit(s) && c in Next(s, step).calls
    ensures SemFits(Next(s, step).calls[c], Next(s, step).owner == Giving(c))
  {
    GivenBy(s, step, c);
    if c !in s.calls {
      NewKeepsSem(s, step, c);
    } else {
      assert SemFits(s.calls[c], s.owner == Giving(c));
      assert CallOk(s.calls[c], s.accepted, s.finished, s.owner == Giving(c));
      if IsLocal(step) && step.c == c {
        LocalOnCall(s, step, c);
        LocalKeepsSem(s.created, s.calls[c], step, s.owner == Giving(c));
      } else if step.Give? && s.owner == Giving(c) {
        GiveKeepsSem(s, c);
      } else {
        StepOnCall(s, step, c);
        OtherKeepsSem(s, step, s.calls[c], Next(s, step).calls[c], c, Next(s, step).owner == Giving(c));
      }
    }
  }

  lemma {:induction false} RunKeepsSems(steps: seq<Step>)
    ensures SemsFit(Run(steps))
  {
    if steps != [] {
      var before, step := steps[..|steps| - 1], steps[|steps| - 1];
      RunKeepsSems(before);
      RunKeepsInv(before);
      forall c | c in Run(steps).calls
        ensures SemFits(Run(steps).calls[c], Run(steps).owner == Giving(c))
      {
        StepKeepsSem(Run(before), step, c);
      }
    }
  }

  // A caller that still waits when its function has completed and the owner task has
  // moved on finds its semaphore given, takes it, is told OK, and has deleted it then.
  lemma CompletedIsToldOk(steps: seq<Step>, c: CallId)
    requires c in Run(steps).calls && Run(steps).calls[c].phase == Waiting
    requires Run(steps).calls[c].made.Some? && Run(steps).owner != Giving(c)
    ensures Run(steps).calls[c].sem == Live(true)
    ensures Run(steps + [Take(c)]).calls[c].sem == Live(false)
    ensures Outcome(Run(steps + [Take(c)] + [Close(c)]), c) == Some(Ok)
    ensures Run(steps + [Take(c)] + [Close(c)]).calls[c].sem == Deleted
  {
    RunKeepsSems(steps);
    assert SemFits(Run(steps).calls[c], false);
    RunAppend(steps, Take(c));
    RunAppend(steps + [Take(c)], Close(c));
    LocalOnCall(Run(steps), Take(c), c);
    LocalOnCall(Run(steps + [Take(c)]), Close(c), c);
  }

  // The owner is idle and the queue empty.
  ghost predicate AtRest(s: State) {
    s.created && s.owner == Idle && s.queue == []
  }

  // A call at an owner at rest: it enters and sends its request,
  lemma Requests(s: State, c: CallId, slot: Option<Slot>, arg: Value) returns (t: State)
    requires AtRest(s) && CanEnter(s, c, slot)
    ensures t == Next(Next(Next(s, Enter(c, slot, arg)), Create(c, true)), Send(c))
    ensures t.created && t.owner == Idle && t.queue == [c] && c in t.calls
    ensures t.calls[c] == Call(slot, arg, Waiting, Live(false), s.accepted, None, None)
    ensures slot.Some? ==> slot.value in t.args && t.args[slot.value].value == arg && slot.value in t.locks
  {
    var entered := EnterStep(s, c, slot, arg);
    var sending := Put(entered, c, entered.calls[c].(phase := Sending, sem := Live(false)));
    t := SendStep(sending, c);
  }

  // the owner takes it up,
  lemma IsReceived(s: State, c: CallId) returns (t: State)
    requires s.owner == Idle && s.queue == [c]
    ensures t == Next(s, Receive) == s.(owner := Running(c), queue := [], started := s.started + 1)
  {
    t := ReceiveStep(s);
  }

  // runs its function,
  lemma IsRun(s: State, c: CallId, v: Value) returns (t: State)
    requires s.owner == Running(c) && c in s.calls
    ensures t == Next(s, Execute(v)) && t.owner == Giving(c) && c in t.calls
    ensures t.calls[c] == s.calls[c].(made := Some(v), used := ArgsIn(s, s.calls[c].slot))
    ensures t.created == s.created && t.queue == s.queue && t.locks == s.locks && t.args == s.args
    ensures s.calls[c].slot.Some? ==> s.calls[c].slot.value in t.slots && t.slots[s.calls[c].slot.value] == v
  {
    t := ExecuteStep(s, v);
  }

  // and gives its semaphore,
  lemma IsGiven(s: State, c: CallId) returns (t: State)
    requires s.owner == Giving(c) && c in s.calls && s.calls[c].sem.Live?
    ensures t == Next(s, Give) && c in t.calls && t.calls[c] == s.calls[c].(sem := Live(true)) && t.owner == Idle
    ensures t.created == s.created && t.queue == s.queue && t.locks == s.locks && t.slots == s.slots
  {
    t := GiveStep(s);
  }

  lemma IsServed(s: State, c: CallId, v: Value) returns (t: State)
    requires s.owner == Idle && s.queue == [c] && c in s.calls && s.calls[c].phase == Waiting && s.calls[c].sem.Live?
    ensures t == Next(Next(Next(s, Receive), Execute(v)), Give)
    ensures t.created == s.created && t.owner == Idle && t.queue == [] && c in t.calls && t.locks == s.locks
    ensures t.calls[c] == s.calls[c].(made := Some(v), used := ArgsIn(s, s.calls[c].slot), sem := Live(true))
    ensures s.calls[c].slot.Some? ==> s.calls[c].slot.value in t.slots && t.slots[s.calls[c].slot.value] == v
  {
    var running := IsReceived(s, c);
    var ran := IsRun(running, c, v);
    t := IsGiven(ran, c);
  }

  // and it takes it, and leaves with what its function produced.
  lemma Collects(s: State, c: CallId, v: Value) returns (t: State)
    requires c in s.calls && s.calls[c].phase == Waiting && s.calls[c].sem == Live(true)
    requires s.calls[c].slot.Some? ==> s.calls[c].slot.value in s.slots && s.slots[s.calls[c].slot.value] == v
    ensures t == Next(Next(Next(s, Take(c)), Close(c)), Leave(c))
    ensures t.created == s.created && t.owner == s.owner && t.queue == s.queue && c in t.calls
    ensures t.calls[c] == s.calls[c].(
      sem := Deleted, phase := Left(Ok, if s.calls[c].slot.Some? then Some(v) else None))
    ensures t.locks == if s.calls[c].slot.Some? then s.locks - {s.calls[c].slot.value} else s.locks
  {
    var took := Put(s, c, s.calls[c].(phase := Closing(Ok), sem := Live(false)));
    var closed := Put(took, c, took.calls[c].(phase := Returned(Ok), sem := Deleted));
    t := LeaveStep(closed, c);
  }

  // So a call that nobody disturbs is told OK and reads the result of its function, run
  // with its own arguments; its semaphore is deleted, its slot unlocked, and the owner
  // is at rest again.
  lemma UndisturbedCallSucceeds(steps: seq<Step>, c: CallId, slot: Option<Slot>, arg: Value, v: Value)
    requires AtRest(Run(steps)) && CanEnter(Run(steps), c, slot)
    ensures var s := Run(steps + [Enter(c, slot, arg), Create(c, true), Send(c)] + [Receive, Execute(v), Give]
                         + [Take(c), Close(c), Leave(c)]);
      && AtRest(s) && c in s.calls && s.calls[c].sem == Deleted
      && s.calls[c].phase == Left(Ok, if slot.Some? then Some(v) else None)
      && s.calls[c].used == (if slot.Some? then Some(arg) else None)
      && (slot.Some? ==> slot.value !in s.locks)
  {
    var asked := steps + [Enter(c, slot, arg), Create(c, true), Send(c)];
    var served := Requests(Run(steps), c, slot, arg);
    RunMore(steps, Enter(c, slot, arg), Create(c, true), Send(c));
    var given := IsServed(served, c, v);
    RunMore(asked, Receive, Execute(v), Give);
    var done := Collects(given, c, v);
    RunMore(asked + [Receive, Execute(v), Give], Take(c), Close(c), Leave(c));
  }

  // Whoever was told OK has deleted its semaphore; after a timeout it stays, since the
  // owner task may still give it.
  lemma SemaphoreFate(steps: seq<Step>, c: CallId)
    requires c in Run(steps).calls
    ensures Run(steps).calls[c].phase == Returned(Ok) ==> Run(steps).calls[c].sem == Deleted
    ensures Run(steps).calls[c].phase == Returned(Timeout) ==> Run(steps).calls[c].sem.Live?
  {
    RunKeepsSems(steps);
    assert SemFits(Run(steps).calls[c], Run(steps).owner == Giving(c));
  }

  // Step k of the run is the driver function of call c producing v.
  predicate Produced(steps: seq<Step>, k: nat, c: CallId, v: Value) {
    k < |steps| && steps[k] == Execute(v) && Run(steps[..k]).owner == Running(c)
  }

  lemma {:induction false} MadeWasProduced(steps: seq<Step>, c: CallId)
    requires c in Run(steps).calls && Run(steps).calls[c].made.Some?
    ensures exists k: nat :: Produced(steps, k, c, Run(steps).calls[c].made.value)
  {
    var last := |steps| - 1;
    var v := Run(steps).calls[c].made.value;
    MadeBefore(Run(steps[..last]), steps[last], c, v);
    if Made(Run(steps[..last]), c, v) {
      MadeWasProduced(steps[..last], c);
      var k: nat :| Produced(steps[..last], k, c, v);
      assert steps[..last][..k] == steps[..k];
      assert Produced(steps, k, c, v);
    } else {
      assert Produced(steps, last, c, v);
    }
  }

  predicate Made(s: State, c: CallId, v: Value) {
    c in s.calls && s.calls[c].made == Some(v)
  }

  lemma SendAddsNone(s: State, d: CallId, c: CallId)
    requires d in s.calls && c !in s.calls
    ensures c !in SendStep(s, d).calls
  {
  }

  lemma ExecuteAddsNone(s: State, v: Value, c: CallId)
    requires c !in s.calls
    ensures c !in ExecuteStep(s, v).calls
  {
  }

  lemma OnlyEnterAdds(s: State, step: Step, c: CallId)
    requires !step.Enter? && c !in s.calls
    ensures c !in Next(s, step).calls
  {
    match step
    case Init =>
    case Send(d) => if d in s.calls { SendAddsNone(s, d, c); }
    case Leave(d) => if d in s.calls { var t := LeaveShape(s, d); }
    case Receive =>
    case Execute(v) => ExecuteAddsNone(s, v, c);
    case Give =>
    case _ =>
  }

  lemma NewCall(s: State, step: Step, c: CallId)
    requires c !in s.calls && c in Next(s, step).calls
    ensures step.Enter? && step.c == c && CanEnter(s, c, step.slot)
    ensures Next(s, step).calls[c] == Call(step.slot, step.arg, Entered, Absent, 0, None, None)
  {
    if !step.Enter? {
      OnlyEnterAdds(s, step, c);
    }
  }

  lemma MadeBefore(s: State, step: Step, c: CallId, v: Value)
    requires Made(Next(s, step), c, v)
    ensures Made(s, c, v) || (step == Execute(v) && s.owner == Running(c))
  {
    if c in s.calls {
      StepOnCall(s, step, c);
    } else {
      NewCall(s, step, c);
    }
  }

  // A wrapper that holds its result lock and gets OK reads the value that its own
  // request's function stored: no abandoned earlier request on the same static slot
  // writes in between. Without OK it reads nothing.
  lemma WrapperReadsItsOwnResult(steps: seq<Step>, c: CallId)
    requires c in Run(steps).calls && Run(steps).calls[c].phase.Left? && Run(steps).calls[c].slot.Some?
    ensures Run(steps).calls[c].phase.final == Ok ==>
      && Run(steps).calls[c].phase.read.Some?
      && exists k: nat :: Produced(steps, k, c, Run(steps).calls[c].phase.read.value)
    ensures Run(steps).calls[c].phase.final != Ok ==> Run(steps).calls[c].phase.read == None
  {
    RunKeepsInv(steps);
    if Run(steps).calls[c].phase.final == Ok {
      MadeWasProduced(steps, c);
    }
  }

  // ------------------------------------------------------------ the arguments

  // The arguments in a slot are those of the call that entered it last, which is the
  // holder of its lock if there is one.
  ghost predicate ArgsInv(s: State) {
    && (forall k :: k in s.args ==>
          s.args[k].builder in s.calls && s.calls[s.args[k].builder].arg == s.args[k].value)
    && (forall k :: k in s.locks ==> k in s.args && s.args[k].builder == s.locks[k])
  }

  // A function that ran before its caller gave up has found the caller's arguments.
  predicate FoundOwn(call: Call) {
    call.slot.Some? && call.made.Some? && (call.phase.Left? ==> call.phase.final == Ok) ==> call.used == Some(call.arg)
  }

  ghost predicate UsedInv(s: State) {
    forall c :: c in s.calls ==> FoundOwn(s.calls[c])
  }

  // What a step can do to the argument structures: nothing, or one is built anew.
  predicate ArgsAfter(s: State, step: Step, t: State) {
    if step.Enter? && CanEnter(s, step.c, step.slot) && step.slot.Some?
    then t.args == s.args[step.slot.value := Args(step.c, step.arg)]
      && t.locks == s.locks[step.slot.value := step.c]
    else t.args == s.args && (forall k :: k in t.locks ==> k in s.locks && t.locks[k] == s.locks[k])
  }

  lemma LeaveReleases(s: State, c: CallId)
    requires c in s.calls
    ensures ArgsAfter(s, Leave(c), LeaveStep(s, c))
  {
  }

  lemma EnterBuilds(s: State, c: CallId, slot: Option<Slot>, arg: Value)
    ensures ArgsAfter(s, Enter(c, slot, arg), EnterStep(s, c, slot, arg))
  {
  }

  lemma StepOnArgs(s: State, step: Step)
    ensures ArgsAfter(s, step, Next(s, step))
  {
    if step.Leave? && step.c in s.calls {
      LeaveReleases(s, step.c);
    } else if step.Enter? {
      EnterBuilds(s, step.c, step.slot, step.arg);
    }
  }

  lemma StepKeepsArgs(s: State, step: Step)
    requires ArgsInv(s)
    ensures ArgsInv(Next(s, step))
  {
    var t := Next(s, step);
    StepOnArgs(s, step);
    forall k | k in t.args
      ensures t.args[k].builder in t.calls && t.calls[t.args[k].builder].arg == t.args[k].value
    {
      if k in s.args && t.args[k] == s.args[k] {
        StepKeepsArg(s, step, s.args[k].builder);
      }
    }
  }

  lemma StepKeepsArg(s: State, step: Step, c: CallId)
    requires c in s.calls
    ensures c in Next(s, step).calls && Next(s, step).calls[c].arg == s.calls[c].arg
    ensures Next(s, step).calls[c].slot == s.calls[c].slot
  {
    StepOnCall(s, step, c);
    if IsLocal(step) && step.c == c {
      LocalKeepsArg(s.created, s.calls[c], step);
    }
  }

  lemma LocalKeepsArg(created: bool, call: Call, step: Step)
    ensures var after := LocalStep(created, call, step);
      after.arg == call.arg && after.slot == call.slot && after.made == call.made && after.used == call.used
    ensures LocalStep(created, call, step).phase.Left? ==> LocalStep(created, call, step) == call
  {
  }

  lemma StepKeepsUsed(s: State, step: Step, c: CallId)
    requires Inv(s) && ArgsInv(s) && UsedInv(s) && c in Next(s, step).calls
    ensures FoundOwn(Next(s, step).calls[c])
  {
    if c in s.calls {
      StepOnCall(s, step, c);
      assert FoundOwn(s.calls[c]);
      if IsLocal(step) && step.c == c {
        LocalKeepsArg(s.created, s.calls[c], step);
      } else if step.Execute? && s.owner == Running(c) {
        RunningIsNotDone(s, c);
        if s.calls[c].slot.Some? && !s.calls[c].phase.Left? {
          FindsOwn(s, c);
        }
      }
    } else {
      NewCall(s, step, c);
    }
  }

  // As long as the caller holds the lock, nobody else builds arguments in its slot.
  lemma FindsOwn(s: State, c: CallId)
    requires LockInv(s) && ArgsInv(s) && c in s.calls && s.calls[c].slot.Some? && !s.calls[c].phase.Left?
    ensures ArgsIn(s, s.calls[c].slot) == Some(s.calls[c].arg)
  {
  }

  lemma RunningIsNotDone(s: State, c: CallId)
    requires Inv(s) && s.owner == Running(c)
    ensures c in s.calls && !CompletedOk(s.calls[c].phase)
  {
    GiversKnow(s, c);
    assert CallOk(s.calls[c], s.accepted, s.finished, s.owner == Giving(c));
  }

  lemma {:induction false} RunKeepsArgs(steps: seq<Step>)
    ensures ArgsInv(Run(steps)) && UsedInv(Run(steps))
  {
    if steps != [] {
      var before, step := steps[..|steps| - 1], steps[|steps| - 1];
      RunKeepsArgs(before);
      RunKeepsInv(before);
      StepKeepsArgs(Run(before), step);
      forall c | c in Run(steps).calls
        ensures FoundOwn(Run(steps).calls[c])
      {
        StepKeepsUsed(Run(before), step, c);
      }
    }
  }

  // Whoever gets OK had its function run with its own arguments.
  lemma OkRanWithOwnArguments(steps: seq<Step>, c: CallId)
    requires Outcome(Run(steps), c) == Some(Ok) && Run(steps).calls[c].slot.Some?
    ensures Run(steps).calls[c].used == Some(Run(steps).calls[c].arg)
  {
    RunKeepsInv(steps);
    RunKeepsArgs(steps);
    var s := Run(steps);
    assert CallOk(s.calls[c], s.accepted, s.finished, s.owner == Giving(c));
    assert FoundOwn(s.calls[c]);
  }

  // The call that was the last to enter slot k, and so to build the arguments there.
  function LastEntrant(steps: seq<Step>, k: Slot): Option<CallId> {
    if steps == [] then None
    else
      var before, last := steps[..|steps| - 1], steps[|steps| - 1];
      if last.Enter? && last.slot == Some(k) && CanEnter(Run(before), last.c, last.slot) then Some(last.c)
      else LastEntrant(before, k)
  }

  lemma {:induction false} BuilderIsLastEntrant(steps: seq<Step>, k: Slot)
    ensures LastEntrant(steps, k) == if k in Run(steps).args then Some(Run(steps).args[k].builder) else None
  {
    if steps != [] {
      BuilderIsLastEntrant(steps[..|steps| - 1], k);
      StepOnArgs(Run(steps[..|steps| - 1]), steps[|steps| - 1]);
    }
  }

  // In step x of the run call c runs, and finds the arguments of the last entrant.
  ghost predicate RunsAt(steps: seq<Step>, x: nat, c: CallId, k: Slot, v: Value, used: Option<Value>) {
    && Produced(steps, x, c, v)
    && var d := LastEntrant(steps[..x], k);
       d.Some? && d.value in Run(steps).calls && used == Some(Run(steps).calls[d.value].arg)
  }

  lemma RunsNow(before: seq<Step>, v: Value, c: CallId, k: Slot)
    requires Run(before).owner == Running(c) && c in Run(before).calls && Run(before).calls[c].slot == Some(k)
    ensures LastEntrant(before, k).Some? && LastEntrant(before, k).value in Run(before).calls
    ensures ArgsIn(Run(before), Some(k)) == Some(Run(before).calls[LastEntrant(before, k).value].arg)
  {
    RunKeepsInv(before);
    RunKeepsArgs(before);
    BuilderIsLastEntrant(before, k);
    EnteredBefore(before, c, k);
  }

  lemma {:induction false} EnteredBefore(steps: seq<Step>, c: CallId, k: Slot)
    requires c in Run(steps).calls && Run(steps).calls[c].slot == Some(k)
    ensures k in Run(steps).args
  {
    var before, step := steps[..|steps| - 1], steps[|steps| - 1];
    StepOnArgs(Run(before), step);
    if c in Run(before).calls {
      StepKeepsArg(Run(before), step, c);
      EnteredBefore(before, c, k);
    } else {
      NewCall(Run(before), step, c);
    }
  }

  lemma RunsOnce(s: State, step: Step, c: CallId)
    requires Inv(s) && c in s.calls && s.calls[c].made.Some?
    ensures c in Next(s, step).calls
    ensures Next(s, step).calls[c].made == s.calls[c].made && Next(s, step).calls[c].used == s.calls[c].used
  {
    StepOnCall(s, step, c);
    assert CallOk(s.calls[c], s.accepted, s.finished, s.owner == Giving(c));
    if s.owner == Running(c) {
      GiversKnow(s, c);
    } else if IsLocal(step) && step.c == c {
      LocalKeepsArg(s.created, s.calls[c], step);
    }
  }

  lemma UsedAtLast(before: seq<Step>, step: Step, c: CallId)
    requires c in Next(Run(before), step).calls && Next(Run(before), step).calls[c].made.Some?
    requires c !in Run(before).calls || Run(before).calls[c].made.None?
    ensures c in Run(before).calls && step.Execute? && Run(before).owner == Running(c)
    ensures Next(Run(before), step).calls[c].made == Some(step.v)
    ensures Next(Run(before), step).calls[c].used == ArgsIn(Run(before), Run(before).calls[c].slot)
  {
    if c in Run(before).calls {
      StepOnCall(Run(before), step, c);
      if IsLocal(step) && step.c == c {
        LocalKeepsArg(Run(before).created, Run(before).calls[c], step);
      }
    } else {
      NewCall(Run(before), step, c);
    }
  }

  lemma ArgStays(before: seq<Step>, step: Step, c: CallId)
    requires c in Run(before).calls
    ensures c in Run(before + [step]).calls && Run(before + [step]).calls[c].arg == Run(before).calls[c].arg
    ensures Run(before + [step]).calls[c].slot == Run(before).calls[c].slot
  {
    RunAppend(before, step);
    StepKeepsArg(Run(before), step, c);
  }

  lemma RunsAtStays(before: seq<Step>, step: Step, x: nat, c: CallId, k: Slot, v: Value, used: Option<Value>)
    requires RunsAt(before, x, c, k, v, used)
    ensures RunsAt(before + [step], x, c, k, v, used)
  {
    assert (before + [step])[..x] == before[..x];
    ArgStays(before, step, LastEntrant(before[..x], k).value);
  }

  lemma RunsAtLast(before: seq<Step>, v: Value, c: CallId, k: Slot)
    requires Run(before).owner == Running(c) && c in Run(before).calls && Run(before).calls[c].slot == Some(k)
    ensures RunsAt(before + [Execute(v)], |before|, c, k, v, ArgsIn(Run(before), Some(k)))
  {
    RunsNow(before, v, c, k);
    assert (before + [Execute(v)])[..|before|] == before;
    ArgStays(before, Execute(v), LastEntrant(before, k).value);
  }

  lemma {:induction false} RunsAtSome(steps: seq<Step>, c: CallId) returns (x: nat)
    requires c in Run(steps).calls && Run(steps).calls[c].slot.Some? && Run(steps).calls[c].made.Some?
    ensures var call := Run(steps).calls[c]; RunsAt(steps, x, c, call.slot.value, call.made.value, call.used)
  {
    var before, step := steps[..|steps| - 1], steps[|steps| - 1];
    assert steps == before + [step];
    RunAppend(before, step);
    if c in Run(before).calls && Run(before).calls[c].made.Some? {
      var call := SameRun(before, step, c);
      x := RunsAtSome(before, c);
      RunsAtStays(before, step, x, c, call.slot.value, call.made.value, call.used);
    } else {
      UsedAtLast(before, step, c);
      ArgStays(before, step, c);
      x := |before|;
      RunsAtLast(before, step.v, c, Run(steps).calls[c].slot.value);
    }
  }

  // A function that has run does not run again.
  lemma SameRun(before: seq<Step>, step: Step, c: CallId) returns (call: Call)
    requires c in Run(before).calls && Run(before).calls[c].made.Some?
    ensures call == Run(before).calls[c] && c in Run(before + [step]).calls
    ensures var after := Run(before + [step]).calls[c];
      after.slot == call.slot && after.made == call.made && after.used == call.used
  {
    call := Run(before).calls[c];
    ArgStays(before, step, c);
    RunAppend(before, step);
    RunKeepsInv(before);
    RunsOnce(Run(before), step, c);
  }

  // Whatever a caller was told, its function runs with the arguments of the call that
  // was then the last to enter the slot: with its own if nobody has entered since, and
  // otherwise if and only if the last one brought the same.
  lemma RunsWithLatestArguments(steps: seq<Step>, c: CallId) returns (x: nat, d: CallId)
    requires c in Run(steps).calls && Run(steps).calls[c].slot.Some? && Run(steps).calls[c].made.Some?
    ensures Produced(steps, x, c, Run(steps).calls[c].made.value)
    ensures LastEntrant(steps[..x], Run(steps).calls[c].slot.value) == Some(d) && d in Run(steps).calls
    ensures Run(steps).calls[c].used == Some(Run(steps).calls[d].arg)
    ensures Run(steps).calls[c].used == Some(Run(steps).calls[c].arg)
      <==> d == c || Run(steps).calls[d].arg == Run(steps).calls[c].arg
  {
    x := RunsAtSome(steps, c);
    d := LastEntrant(steps[..x], Run(steps).calls[c].slot.value).value;
  }

  // An abandoned request does run with the arguments of the next caller of its slot.
  lemma AbandonedRunsWithLaterArguments(mine: Value, later: Value, v: Value)
    ensures var s := Run([Init, Enter(0, Some(0), mine), Create(0, true), Send(0), TakeTimeout(0), Leave(0),
                          Enter(1, Some(0), later), Receive, Execute(v)]);
      0 in s.calls && s.calls[0].phase.Left? && s.calls[0].phase.final == Timeout
      && s.calls[0].arg == mine && s.calls[0].used == Some(later)
  {
    var six := GivesUpInRun(mine);
    RunMore(six, Enter(1, Some(0), later), Receive, Execute(v));
    RunsLate(Run(six), mine, later, v);
    assert six + [Enter(1, Some(0), later), Receive, Execute(v)]
      == [Init, Enter(0, Some(0), mine), Create(0, true), Send(0), TakeTimeout(0), Leave(0),
          Enter(1, Some(0), later), Receive, Execute(v)];
  }

  lemma GivesUpInRun(mine: Value) returns (six: seq<Step>)
    ensures six == [Init, Enter(0, Some(0), mine), Create(0, true), Send(0), TakeTimeout(0), Leave(0)]
    ensures GaveUp(Run(six), mine)
  {
    var three := [Init, Enter(0, Some(0), mine), Create(0, true)];
    six := three + [Send(0), TakeTimeout(0), Leave(0)];
    var s := GivesUp(mine);
    assert [] + three == three;
    RunMore([], three[0], three[1], three[2]);
    RunMore(three, Send(0), TakeTimeout(0), Leave(0));
  }

  // Call 0 has given up, and its request is still in the queue.
  predicate GaveUp(s: State, mine: Value) {
    && 0 in s.calls && 1 !in s.calls && 0 !in s.locks && s.queue == [0] && s.owner == Idle
    && s.calls[0] == Call(Some(0), mine, Left(Timeout, None), Live(false), 0, None, None)
  }

  lemma Asks(mine: Value) returns (s: State)
    ensures s == Next(Next(Next(Initial(), Init), Enter(0, Some(0), mine)), Create(0, true))
    ensures s.calls == map[0 := Call(Some(0), mine, Sending, Live(false), 0, None, None)]
    ensures s.queue == [] && s.owner == Idle && s.locks == map[0 := 0] && s.accepted == 0
  {
    s := Next(Next(Next(Initial(), Init), Enter(0, Some(0), mine)), Create(0, true));
  }

  lemma GivesUp(mine: Value) returns (s: State)
    ensures GaveUp(s, mine)
    ensures s == Next(Next(Next(Next(Next(Next(Initial(),
      Init), Enter(0, Some(0), mine)), Create(0, true)), Send(0)), TakeTimeout(0)), Leave(0))
  {
    var asked := Asks(mine);
    var sent := SendStep(asked, 0);
    var late := Put(sent, 0, sent.calls[0].(phase := Returned(Timeout)));
    s := LeaveStep(late, 0);
  }

  lemma RunsLate(s: State, mine: Value, later: Value, v: Value)
    requires GaveUp(s, mine)
    ensures var t := Next(Next(Next(s, Enter(1, Some(0), later)), Receive), Execute(v));
      0 in t.calls && t.calls[0] == s.calls[0].(made := Some(v), used := Some(later))
  {
    var entered := EnterStep(s, 1, Some(0), later);
    assert Next(entered, Receive).owner == Running(0);
  }

  lemma RunMore(steps: seq<Step>, a: Step, b: Step, c: Step)
    ensures Run(steps + [a, b, c]) == Next(Next(Next(Run(steps), a), b), c)
  {
    RunAppend(steps, a);
    RunAppend(steps + [a], b);
    RunAppend(steps + [a] + [b], c);
    assert steps + [a, b, c] == steps + [a] + [b] + [c];
  }
}
