// The transaction table of main/dns_forward.c on values: lookup, expiry, slot and
// ID allocation, and what one received datagram does to the table.
module DnsTable {
  import opened ByteSeqs
  import opened Counting
  import opened Options
  import opened DnsMessage

  datatype Endpoint = Endpoint(ip: nat, port: nat)

  datatype Slot = Slot(
    inUse: bool, clientId: Id, upstreamId: Id, leaf: Endpoint, resolver: Endpoint,
    question: Bytes, sentAt: int)

  const SLOTS := 8
  const TTL_US := 5_000_000
  const NEVER_ID: Id := 0xFFFF

  type Table = t: seq<Slot> | |t| == SLOTS witness seq(SLOTS, _ => EMPTY)

  const EMPTY := Slot(false, 0, 0, Endpoint(0, 0), Endpoint(0, 0), [], 0)

  function Initial(): Table {
    seq(SLOTS, _ => EMPTY)
  }

  // pending_find, from slot i on.
  function FindFrom(t: Table, id: Id, i: nat): (r: Option<nat>)
    ensures r.Some? ==> i <= r.value < SLOTS && t[r.value].inUse && t[r.value].upstreamId == id
    ensures r.None? ==> forall k :: i <= k < SLOTS ==> !(t[k].inUse && t[k].upstreamId == id)
    decreases SLOTS - i
  {
    if i >= SLOTS then None
    else if t[i].inUse && t[i].upstreamId == id then Some(i)
    else FindFrom(t, id, i + 1)
  }

  function Find(t: Table, id: Id): Option<nat> {
    FindFrom(t, id, 0)
  }

  // alloc_upstream_txn_id: the first draw that no live slot uses.
  function FirstUnused(t: Table, draws: seq<Id>): (r: Option<Id>)
    ensures r.Some? ==> r.value in draws && Find(t, r.value) == None
    ensures r.None? ==> forall k :: 0 <= k < |draws| ==> Find(t, draws[k]) != None
  {
    if draws == [] then None
    else if Find(t, draws[0]) == None then Some(draws[0])
    else FirstUnused(t, draws[1..])
  }

  // pending_alloc
  function FirstFree(t: Table, i: nat): (r: Option<nat>)
    ensures r.Some? ==> i <= r.value < SLOTS && !t[r.value].inUse
    ensures r.None? ==> forall k :: i <= k < SLOTS ==> t[k].inUse
    decreases SLOTS - i
  {
    if i >= SLOTS then None else if !t[i].inUse then Some(i) else FirstFree(t, i + 1)
  }

  function Oldest(t: Table, i: nat, best: nat, bestTime: int): (r: nat)
    requires best < SLOTS
    ensures r < SLOTS
    decreases SLOTS - i
  {
    if i >= SLOTS then best
    else if t[i].sentAt < bestTime then Oldest(t, i + 1, i, t[i].sentAt)
    else Oldest(t, i + 1, best, bestTime)
  }

  function AllocIndex(t: Table, now: int): (r: nat)
    ensures r < SLOTS
  {
    match FirstFree(t, 0)
    case Some(i) => i
    case None => Oldest(t, 0, 0, now)
  }

  // Of the slots from i on, r is the first of those sent earliest, before `bound`.
  ghost predicate EarliestFrom(t: Table, i: nat, bound: int, r: nat) {
    && i <= r < SLOTS && t[r].sentAt < bound
    && (forall k :: i <= k < SLOTS ==> t[r].sentAt <= t[k].sentAt)
    && (forall k :: i <= k < r ==> t[r].sentAt < t[k].sentAt)
  }

  ghost predicate NoneBefore(t: Table, i: nat, bound: int) {
    forall k :: i <= k < SLOTS ==> bound <= t[k].sentAt
  }

  lemma EarlierHere(t: Table, i: nat, bound: int, r: nat)
    requires i < SLOTS && t[i].sentAt < bound
    requires EarliestFrom(t, i + 1, t[i].sentAt, r) || (r == i && NoneBefore(t, i + 1, t[i].sentAt))
    ensures EarliestFrom(t, i, bound, r)
  {
  }

  lemma LaterHere(t: Table, i: nat, bound: int, r: nat)
    requires i < SLOTS && bound <= t[i].sentAt
    ensures EarliestFrom(t, i + 1, bound, r) ==> EarliestFrom(t, i, bound, r)
    ensures NoneBefore(t, i + 1, bound) ==> NoneBefore(t, i, bound)
  {
  }

  lemma {:induction false} OldestIsEarliest(t: Table, i: nat, best: nat, bound: int) returns (r: nat)
    requires best < SLOTS
    ensures r == Oldest(t, i, best, bound)
    ensures EarliestFrom(t, i, bound, r) || (r == best && NoneBefore(t, i, bound))
    decreases SLOTS - i
  {
    r := best;
    if i < SLOTS {
      if t[i].sentAt < bound {
        r := OldestIsEarliest(t, i + 1, i, t[i].sentAt);
        EarlierHere(t, i, bound, r);
      } else {
        r := OldestIsEarliest(t, i + 1, best, bound);
        LaterHere(t, i, bound, r);
      }
    }
  }

  lemma {:induction false} FirstFreeIsFirst(t: Table, i: nat)
    ensures FirstFree(t, i).Some? ==> forall k :: i <= k < FirstFree(t, i).value ==> t[k].inUse
    decreases SLOTS - i
  {
    if i < SLOTS {
      FirstFreeIsFirst(t, i + 1);
    }
  }

  // The slot for a new query: the first that is free; in a full table the first of
  // those sent earliest, among the ones sent before now; the first of all if there
  // are none.
  ghost predicate IsChoice(t: Table, now: int, r: nat) {
    || (r < SLOTS && !t[r].inUse && forall k :: 0 <= k < r ==> t[k].inUse)
    || ((forall k :: 0 <= k < SLOTS ==> t[k].inUse)
        && (EarliestFrom(t, 0, now, r) || (r == 0 && NoneBefore(t, 0, now))))
  }

  lemma ChoiceExactly(t: Table, now: int, r: nat)
    ensures AllocIndex(t, now) == r <==> IsChoice(t, now, r)
  {
    FirstFreeIsFirst(t, 0);
    var oldest := OldestIsEarliest(t, 0, 0, now);
  }

  // A full table whose entries were all sent before now gives up an oldest entry.
  lemma FullTableEvictsOldest(t: Table, now: int)
    requires forall k :: 0 <= k < SLOTS ==> t[k].inUse && t[k].sentAt < now
    ensures forall k :: 0 <= k < SLOTS ==> t[AllocIndex(t, now)].sentAt <= t[k].sentAt
  {
    ChoiceExactly(t, now, AllocIndex(t, now));
  }

  // pending_expire_stale
  function ExpireSlot(s: Slot, now: int): Slot {
    if s.inUse && now - s.sentAt > TTL_US then s.(inUse := false) else s
  }

  function Expire(t: Table, now: int): Table {
    seq(SLOTS, i requires 0 <= i < SLOTS => ExpireSlot(t[i], now))
  }

  // ------------------------------------------------- one datagram

  datatype Sent = ToResolver(dest: Endpoint, msg: Bytes) | ToLeaf(dest: Endpoint, msg: Bytes)

  // The part of the environment that one query meets.
  datatype Query = Query(
    msg: Bytes, leaf: Endpoint,
    upstream: Option<Endpoint>,  // get_upstream_dns_addr
    allocNow: int, draws: seq<Id>, sentNow: int, sendOk: bool)

  // The query passes every test of the listening side.
  predicate Acceptable(q: Query) {
    |q.msg| <= MESSAGE_MAX && HeaderValid(q.msg, false) && Question(q.msg).Some? && q.upstream.Some?
  }

  // The loop that draws an upstream ID ends within the draws that q brings along.
  predicate DrawEnds(t: Table, q: Query) {
    FirstUnused(Marked(t, AllocIndex(t, q.allocNow)), q.draws).Some?
  }

  predicate Admitted(t: Table, q: Query) {
    Acceptable(q) && DrawEnds(t, q)
  }

  // The slot is marked live before its new ID is drawn.
  function Marked(t: Table, i: nat): Table
    requires i < SLOTS
  {
    t[i := t[i].(inUse := true)]
  }

  function DrawnId(t: Table, q: Query): Id
    requires Admitted(t, q)
  {
    FirstUnused(Marked(t, AllocIndex(t, q.allocNow)), q.draws).value
  }

  function NewSlot(t: Table, q: Query): Slot
    requires Admitted(t, q)
  {
    Slot(q.sendOk, Word(q.msg[0], q.msg[1]), DrawnId(t, q), q.leaf, q.upstream.value,
         Question(q.msg).value, q.sentNow)
  }

  function OnQuery(t: Table, q: Query): (r: (Table, Option<Sent>)) {
    if !Admitted(t, q) then (t, None)
    else (t[AllocIndex(t, q.allocNow) := NewSlot(t, q)],
          Some(ToResolver(q.upstream.value, SetId(q.msg, DrawnId(t, q)))))
  }

  // The live slot that a datagram on the upstream socket answers, if there is one.
  function Answers(t: Table, msg: Bytes, from: Endpoint): (r: Option<nat>)
    ensures r.Some? ==> |msg| >= HEADER && r.value < SLOTS && t[r.value].inUse
  {
    if |msg| > MESSAGE_MAX then None
    else
      var id := if HeaderValid(msg, true) then Word(msg[0], msg[1]) else NEVER_ID;
      var slot := if id != NEVER_ID then Find(t, id) else None;
      if slot.None? then None
      else if from != t[slot.value].resolver then None
      else if Question(msg) != Some(t[slot.value].question) then None
      else slot
  }

  function OnReply(t: Table, msg: Bytes, from: Endpoint): (r: (Table, Option<Sent>)) {
    match Answers(t, msg, from)
    case None => (t, None)
    case Some(i) => (t[i := t[i].(inUse := false)], Some(ToLeaf(t[i].leaf, SetId(msg, t[i].clientId))))
  }

  // ------------------------------------------------- ID allocation

  // The draw looks at nothing but which slots are live and their upstream IDs.
  lemma {:induction false} UnusedDependsOnIds(t: Table, u: Table, draws: seq<Id>)
    requires forall i :: 0 <= i < SLOTS ==> t[i].inUse == u[i].inUse && t[i].upstreamId == u[i].upstreamId
    ensures FirstUnused(t, draws) == FirstUnused(u, draws)
  {
    if draws != [] {
      assert Find(t, draws[0]).None? <==> Find(u, draws[0]).None?;
      UnusedDependsOnIds(t, u, draws[1..]);
    }
  }

  // Live slots have pairwise distinct upstream IDs.
  ghost predicate DistinctIds(t: Table) {
    forall i, j :: 0 <= i < j < SLOTS && t[i].inUse && t[j].inUse ==> t[i].upstreamId != t[j].upstreamId
  }

  lemma QueryKeepsDistinctIds(t: Table, q: Query)
    requires DistinctIds(t)
    ensures DistinctIds(OnQuery(t, q).0)
  {
    if Admitted(t, q) {
      var i := AllocIndex(t, q.allocNow);
      assert Find(Marked(t, i), DrawnId(t, q)) == None;
      forall j | 0 <= j < SLOTS && j != i && t[j].inUse
        ensures t[j].upstreamId != DrawnId(t, q)
      {
        assert Marked(t, i)[j] == t[j];
      }
    }
  }

  function LiveIds(t: Table): set<Id> {
    set i | 0 <= i < SLOTS && t[i].inUse :: t[i].upstreamId
  }

  lemma FewLiveIds(t: Table)
    ensures |LiveIds(t)| <= SLOTS
  {
    var all: set<nat> := {0, 1, 2, 3, 4, 5, 6, 7};
    var id := (i: nat) requires i < SLOTS => t[i].upstreamId;
    ImageIsSmaller(all, id);
    var image := set i | i in all :: id(i);
    forall x | x in LiveIds(t)
      ensures x in image
    {
      var i :| 0 <= i < SLOTS && t[i].inUse && t[i].upstreamId == x;
      assert i in all && id(i) == x;
    }
    SubsetIsSmaller(LiveIds(t), image);
  }

  lemma {:induction false} ImageIsSmaller(dom: set<nat>, f: nat --> Id)
    requires forall x :: x in dom ==> f.requires(x)
    ensures |set x | x in dom :: f(x)| <= |dom|
    decreases |dom|
  {
    if dom != {} {
      var x :| x in dom;
      var rest := dom - {x};
      ImageIsSmaller(rest, f);
      assert (set y | y in dom :: f(y)) == (set y | y in rest :: f(y)) + {f(x)};
    }
  }

  // Any nine different draws end the draw loop: a free ID always exists, whatever
  // stale ID the marked slot still carries.
  lemma NineDrawsSuffice(t: Table, draws: seq<Id>)
    requires |draws| > SLOTS
    requires forall i, j :: 0 <= i < j < |draws| ==> draws[i] != draws[j]
    ensures FirstUnused(t, draws).Some?
  {
    if FirstUnused(t, draws).None? {
      var drawn := set k | 0 <= k < |draws| :: draws[k];
      DistinctCount(draws);
      forall id | id in drawn
        ensures id in LiveIds(t)
      {
        var k :| 0 <= k < |draws| && draws[k] == id;
        assert Find(t, draws[k]).Some?;
      }
      FewLiveIds(t);
      SubsetIsSmaller(drawn, LiveIds(t));
    }
  }
}
