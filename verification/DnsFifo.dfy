// With strictly increasing times the transaction table is a bounded first-in
// first-out queue of queries.
module DnsFifo {
  import opened Counting
  import opened Options
  import opened DnsTable
  import opened DnsRuns

  function Without(xs: seq<nat>, gone: set<nat>): seq<nat> {
    if xs == [] then []
    else (if xs[0] in gone then [] else [xs[0]]) + Without(xs[1..], gone)
  }

  // The slots that a step vacates or fills afresh.
  function Touched(t: Table, step: Step): set<nat> {
    set i | 0 <= i < SLOTS && (!Next(t, step).0[i].inUse || Fills(t, step, i))
  }

  function Added(t: Table, step: Step): seq<nat> {
    if step.Ask? && Admitted(t, step.q) && step.q.sendOk then [AllocIndex(t, step.q.allocNow)] else []
  }

  // The live slots, in the order in which their queries arrived.
  function Age(steps: seq<Step>): seq<nat> {
    if steps == [] then []
    else
      var before, step := steps[..|steps| - 1], steps[|steps| - 1];
      Without(Age(before), Touched(Run(before), step)) + Added(Run(before), step)
  }

  // The queries in the table, as step numbers, oldest first.
  function Queue(steps: seq<Step>): seq<nat> {
    Origins(steps, Age(steps))
  }

  function Origins(steps: seq<Step>, xs: seq<nat>): (r: seq<nat>)
    ensures |r| == |xs| && forall n :: 0 <= n < |xs| ==> r[n] == Origin(steps, xs[n])
  {
    seq(|xs|, n requires 0 <= n < |xs| => Origin(steps, xs[n]))
  }

  // Every query is sent strictly later than all earlier ones.
  ghost predicate StrictTimes(steps: seq<Step>) {
    && (forall k :: 0 <= k < |steps| && steps[k].Ask? ==> steps[k].q.allocNow <= steps[k].q.sentNow)
    && (forall j, k :: 0 <= j < k < |steps| && steps[j].Ask? && steps[k].Ask? ==>
          steps[j].q.sentNow < steps[k].q.allocNow)
  }

  // ------------------------------------------------- Without

  lemma {:induction false} WithoutElements(xs: seq<nat>, gone: set<nat>)
    ensures forall x :: x in Without(xs, gone) <==> x in xs && x !in gone
  {
    if xs != [] {
      WithoutElements(xs[1..], gone);
      assert xs == [xs[0]] + xs[1..];
    }
  }

  lemma WithoutCons(x: nat, xs: seq<nat>, gone: set<nat>)
    ensures Without([x] + xs, gone) == (if x in gone then [] else [x]) + Without(xs, gone)
  {
    assert ([x] + xs)[1..] == xs;
  }

  lemma Associates(a: seq<nat>, b: seq<nat>, c: seq<nat>)
    ensures (a + b) + c == a + (b + c)
  {
  }

  lemma {:induction false} WithoutSplit(a: seq<nat>, b: seq<nat>, gone: set<nat>)
    ensures Without(a + b, gone) == Without(a, gone) + Without(b, gone)
  {
    if a == [] {
      assert a + b == b;
    } else {
      var x, rest := a[0], a[1..];
      WithoutSplit(rest, b, gone);
      WithoutCons(x, rest + b, gone);
      assert a + b == [x] + (rest + b);
      Associates(if x in gone then [] else [x], Without(rest, gone), Without(b, gone));
    }
  }

  lemma {:induction false} WithoutNone(xs: seq<nat>, gone: set<nat>)
    requires forall n :: 0 <= n < |xs| ==> xs[n] !in gone
    ensures Without(xs, gone) == xs
  {
    if xs != [] {
      WithoutNone(xs[1..], gone);
    }
  }

  lemma {:induction false} WithoutAll(xs: seq<nat>, gone: set<nat>)
    requires forall n :: 0 <= n < |xs| ==> xs[n] in gone
    ensures Without(xs, gone) == []
  {
    if xs != [] {
      WithoutAll(xs[1..], gone);
    }
  }

  // Removing keeps any order that holds between all earlier and later elements.
  lemma {:induction false} WithoutOrdered(xs: seq<nat>, gone: set<nat>, steps: seq<Step>)
    requires InOrder(xs, steps)
    ensures InOrder(Without(xs, gone), steps)
  {
    if xs != [] {
      WithoutOrdered(xs[1..], gone, steps);
      WithoutElements(xs[1..], gone);
      var ys := Without(xs[1..], gone);
      forall n | 0 <= n < |ys|
        ensures Origin(steps, xs[0]) < Origin(steps, ys[n])
      {
        assert ys[n] in xs[1..];
        var p :| 0 <= p < |xs[1..]| && xs[1..][p] == ys[n];
        assert xs[p + 1] == ys[n];
      }
    }
  }

  // ------------------------------------------------- the age order

  ghost predicate LiveOnes(a: seq<nat>, t: Table) {
    forall i :: i in a <==> 0 <= i < SLOTS && t[i].inUse
  }

  // The slots stand in the order of the queries that filled them.
  ghost predicate InOrder(a: seq<nat>, steps: seq<Step>) {
    forall m, n :: 0 <= m < n < |a| ==> Origin(steps, a[m]) < Origin(steps, a[n])
  }

  ghost predicate AgeInv(steps: seq<Step>) {
    LiveOnes(Age(steps), Run(steps)) && InOrder(Age(steps), steps)
  }

  lemma LiveOnesStep(a: seq<nat>, t: Table, step: Step)
    requires LiveOnes(a, t)
    ensures LiveOnes(Without(a, Touched(t, step)) + Added(t, step), Next(t, step).0)
  {
    var kept, extra := Without(a, Touched(t, step)), Added(t, step);
    WithoutElements(a, Touched(t, step));
    forall i
      ensures i in kept + extra <==> 0 <= i < SLOTS && Next(t, step).0[i].inUse
    {
      if 0 <= i < SLOTS { NextSlot(t, step, i); }
    }
  }

  lemma OrderStep(kept: seq<nat>, extra: seq<nat>, before: seq<Step>, after: seq<Step>, last: nat)
    requires InOrder(kept, before) && |extra| <= 1
    requires forall x :: x in kept ==> Origin(after, x) == Origin(before, x) < last
    requires forall x :: x in extra ==> Origin(after, x) == last
    ensures InOrder(kept + extra, after)
  {
    var all := kept + extra;
    forall m, n | 0 <= m < n < |all|
      ensures Origin(after, all[m]) < Origin(after, all[n])
    {
      assert all[m] in kept;
      assert if n < |kept| then all[n] in kept else all[n] in extra;
    }
  }

  lemma KeptOrigins(before: seq<Step>, step: Step, steps: seq<Step>, kept: seq<nat>)
    requires AgeInv(before) && steps == before + [step] && kept == Without(Age(before), Touched(Run(before), step))
    ensures forall x :: x in kept ==> Origin(steps, x) == Origin(before, x) < |before|
  {
    AgeAfter(before, step);
    WithoutElements(Age(before), Touched(Run(before), step));
    RunKeepsOrigins(before);
    forall x | x in kept
      ensures Origin(steps, x) == Origin(before, x) < |before|
    {
      assert x in Age(before) && Run(before)[x].inUse;
    }
  }

  lemma AddedOrigins(before: seq<Step>, step: Step, steps: seq<Step>)
    requires steps == before + [step]
    ensures forall x :: x in Added(Run(before), step) ==> Origin(steps, x) == |before|
  {
    AgeAfter(before, step);
  }

  lemma AgeStep(before: seq<Step>, step: Step, steps: seq<Step>)
    requires AgeInv(before) && steps == before + [step]
    ensures AgeInv(steps)
  {
    var a, t := Age(before), Run(before);
    var kept, extra := Without(a, Touched(t, step)), Added(t, step);
    KeptOrigins(before, step, steps, kept);
    AddedOrigins(before, step, steps);
    WithoutOrdered(a, Touched(t, step), before);
    OrderStep(kept, extra, before, steps, |before|);
    AgeAfter(before, step);
    LiveOnesStep(a, t, step);
  }

  lemma {:induction false} RunKeepsAge(steps: seq<Step>)
    ensures AgeInv(steps)
    decreases |steps|
  {
    if steps != [] {
      var before, step := Unsnoc(steps);
      RunKeepsAge(before);
      AgeStep(before, step, steps);
    }
  }

  lemma Unsnoc(steps: seq<Step>) returns (before: seq<Step>, step: Step)
    requires steps != []
    ensures steps == before + [step] && |before| < |steps|
  {
    before, step := steps[..|steps| - 1], steps[|steps| - 1];
  }

  // ------------------------------------------------- it is a bounded queue

  const ALL_SLOTS: set<nat> := {0, 1, 2, 3, 4, 5, 6, 7}

  lemma PresentSlots(a: seq<nat>) returns (present: set<nat>)
    requires forall m, n :: 0 <= m < n < |a| ==> a[m] != a[n]
    requires forall i :: i in a ==> i < SLOTS
    ensures |present| == |a| && forall x :: x in present <==> x in a
    ensures present <= ALL_SLOTS && |a| <= SLOTS
  {
    present := set n | 0 <= n < |a| :: a[n];
    DistinctCount(a);
    forall x
      ensures x in present <==> x in a
    {
    }
    assert present <= ALL_SLOTS;
    SubsetIsSmaller(present, ALL_SLOTS);
  }

  lemma FullWhenAllPresent(a: seq<nat>)
    requires forall m, n :: 0 <= m < n < |a| ==> a[m] != a[n]
    requires forall i :: i in a ==> i < SLOTS
    ensures |a| <= SLOTS
    ensures |a| == SLOTS <==> forall i :: 0 <= i < SLOTS ==> i in a
  {
    var present := PresentSlots(a);
    if |a| == SLOTS {
      SubsetIsAll(present, ALL_SLOTS);
      assert forall i :: 0 <= i < SLOTS ==> i in ALL_SLOTS;
    }
    if forall i :: 0 <= i < SLOTS ==> i in a {
      assert ALL_SLOTS <= present;
      SubsetIsSmaller(ALL_SLOTS, present);
    }
  }

  lemma AgeIsFullWhenTableIs(steps: seq<Step>)
    ensures |Age(steps)| <= SLOTS
    ensures |Age(steps)| == SLOTS <==> FirstFree(Run(steps), 0).None?
  {
    RunKeepsAge(steps);
    DistinctAges(steps);
    FullWhenAllPresent(Age(steps));
  }

  lemma SubsetIsAll<T>(a: set<T>, b: set<T>)
    requires a <= b && |a| == |b|
    ensures a == b
  {
    assert b == a + (b - a);
  }

  // The send times follow the age order.
  lemma SentInAgeOrder(steps: seq<Step>, m: nat, n: nat)
    requires StrictTimes(steps) && m < n < |Age(steps)|
    ensures Age(steps)[m] < SLOTS && Age(steps)[n] < SLOTS
    ensures Run(steps)[Age(steps)[m]].sentAt < Run(steps)[Age(steps)[n]].sentAt
  {
    RunKeepsAge(steps);
    RunKeepsOrigins(steps);
    var a, b := Age(steps)[m], Age(steps)[n];
    assert a in Age(steps) && b in Age(steps);
    assert FilledBy(steps, Origin(steps, a), Run(steps)[a]);
    assert FilledBy(steps, Origin(steps, b), Run(steps)[b]);
  }

  lemma StrictTimesPrefix(steps: seq<Step>, n: nat)
    requires StrictTimes(steps) && n <= |steps|
    ensures StrictTimes(steps[..n])
  {
  }

  lemma OldestInOrder(t: Table, a: seq<nat>, now: int)
    requires forall k :: 0 <= k < SLOTS ==> t[k].inUse && t[k].sentAt < now && k in a
    requires forall n :: 0 <= n < |a| ==> a[n] < SLOTS
    requires forall m, n :: 0 <= m < n < |a| ==> t[a[m]].sentAt < t[a[n]].sentAt
    ensures a != [] && AllocIndex(t, now) == a[0]
  {
    FullTableEvictsOldest(t, now);
    var i := AllocIndex(t, now);
    assert i in a;
    var n :| 0 <= n < |a| && a[n] == i;
    if n > 0 {
      assert t[a[0]].sentAt < t[a[n]].sentAt;
    }
  }

  lemma SentBefore(steps: seq<Step>, q: Query, i: nat)
    requires StrictTimes(steps + [Ask(q)]) && i < SLOTS && Run(steps)[i].inUse
    ensures Run(steps)[i].sentAt < q.allocNow
  {
    RunKeepsOrigins(steps);
    var o := Origin(steps, i);
    assert FilledBy(steps, o, Run(steps)[i]);
    assert (steps + [Ask(q)])[o] == steps[o] && (steps + [Ask(q)])[|steps|] == Ask(q);
  }

  lemma AgeInRange(steps: seq<Step>)
    ensures forall n :: 0 <= n < |Age(steps)| ==> Age(steps)[n] < SLOTS
    ensures |Age(steps)| == SLOTS ==> forall i :: 0 <= i < SLOTS ==> i in Age(steps) && Run(steps)[i].inUse
  {
    RunKeepsAge(steps);
    AgeIsFullWhenTableIs(steps);
    forall n | 0 <= n < |Age(steps)|
      ensures Age(steps)[n] < SLOTS
    {
      assert Age(steps)[n] in Age(steps);
    }
  }

  // A full table gives the slot of the oldest query to the next one.
  lemma OldestGoesFirst(steps: seq<Step>, q: Query)
    requires StrictTimes(steps + [Ask(q)]) && |Age(steps)| == SLOTS
    ensures AllocIndex(Run(steps), q.allocNow) == Age(steps)[0]
  {
    AgeInRange(steps);
    assert StrictTimes(steps) by {
      StrictTimesPrefix(steps + [Ask(q)], |steps|);
      assert (steps + [Ask(q)])[..|steps|] == steps;
    }
    forall i | 0 <= i < SLOTS
      ensures Run(steps)[i].sentAt < q.allocNow
    {
      SentBefore(steps, q, i);
    }
    forall m, n | 0 <= m < n < |Age(steps)|
      ensures Run(steps)[Age(steps)[m]].sentAt < Run(steps)[Age(steps)[n]].sentAt
    {
      SentInAgeOrder(steps, m, n);
    }
    OldestInOrder(Run(steps), Age(steps), q.allocNow);
  }

  lemma WithoutOne(a: seq<nat>, p: nat, gone: set<nat>)
    requires p < |a| && forall n :: 0 <= n < |a| ==> (a[n] in gone <==> n == p)
    ensures Without(a, gone) == a[..p] + a[p + 1..]
  {
    var front, back := SplitAt(a, p);
    WithoutMiddle(front, a[p], back, gone);
  }

  lemma WithoutMiddle(front: seq<nat>, x: nat, back: seq<nat>, gone: set<nat>)
    requires x in gone
    requires forall n :: 0 <= n < |front| ==> front[n] !in gone
    requires forall n :: 0 <= n < |back| ==> back[n] !in gone
    ensures Without(front + ([x] + back), gone) == front + back
  {
    WithoutSplit(front, [x] + back, gone);
    WithoutNone(front, gone);
    WithoutHead(x, back, gone);
  }

  lemma WithoutHead(x: nat, back: seq<nat>, gone: set<nat>)
    requires x in gone && forall n :: 0 <= n < |back| ==> back[n] !in gone
    ensures Without([x] + back, gone) == back
  {
    WithoutCons(x, back, gone);
    WithoutNone(back, gone);
    assert [] + back == back;
  }

  lemma SplitAt(a: seq<nat>, p: nat) returns (front: seq<nat>, back: seq<nat>)
    requires p < |a|
    ensures front == a[..p] && back == a[p + 1..] && a == front + ([a[p]] + back)
  {
    front, back := a[..p], a[p + 1..];
  }

  lemma AgeAfter(steps: seq<Step>, step: Step)
    ensures Age(steps + [step]) == Without(Age(steps), Touched(Run(steps), step)) + Added(Run(steps), step)
    ensures forall i :: 0 <= i < SLOTS ==>
      Origin(steps + [step], i) == if Fills(Run(steps), step, i) then |steps| else Origin(steps, i)
    ensures Run(steps + [step]) == Next(Run(steps), step).0
  {
    assert (steps + [step])[..|steps|] == steps;
  }

  lemma OriginsAfter(before: seq<Step>, after: seq<Step>, kept: seq<nat>, extra: seq<nat>, n: nat)
    requires forall x :: x in kept ==> Origin(after, x) == Origin(before, x)
    requires forall x :: x in extra ==> Origin(after, x) == n
    requires |extra| <= 1
    ensures Origins(after, kept + extra) == Origins(before, kept) + (if extra == [] then [] else [n])
  {
    var all := kept + extra;
    forall m | 0 <= m < |kept|
      ensures Origin(after, all[m]) == Origin(before, kept[m])
    {
      assert kept[m] in kept;
    }
    if extra != [] {
      assert extra[0] in extra;
    }
  }

  lemma OriginsWithoutOne(steps: seq<Step>, xs: seq<nat>, p: nat)
    requires p < |xs|
    ensures Origins(steps, xs[..p] + xs[p + 1..]) == Origins(steps, xs)[..p] + Origins(steps, xs)[p + 1..]
    ensures Origins(steps, xs[p + 1..]) == Origins(steps, xs)[p + 1..]
  {
  }

  // Vacating slot i takes it out of the age order, in which it can only be first.
  lemma SlotLeaves(a: seq<nat>, gone: set<nat>, i: nat)
    requires forall n :: 0 <= n < |a| ==> (a[n] in gone <==> a[n] == i)
    requires forall n :: 0 < n < |a| ==> a[n] != i
    ensures Without(a, gone) == if |a| > 0 && a[0] == i then a[1..] else a
  {
    if |a| > 0 && a[0] == i {
      WithoutOne(a, 0, gone);
      assert a[..0] + a[1..] == a[1..];
    } else {
      WithoutNone(a, gone);
    }
  }

  lemma AgeAfterAsk(steps: seq<Step>, q: Query) returns (kept: seq<nat>)
    requires StrictTimes(steps + [Ask(q)]) && Admitted(Run(steps), q)
    ensures kept == if |Age(steps)| == SLOTS then Age(steps)[1..] else Age(steps)
    ensures kept == Without(Age(steps), Touched(Run(steps), Ask(q)))
    ensures forall n :: 0 <= n < |kept| ==> kept[n] != AllocIndex(Run(steps), q.allocNow)
  {
    var a, i := Age(steps), AllocIndex(Run(steps), q.allocNow);
    TouchedByAsk(steps, q);
    if |a| == SLOTS {
      OldestGoesFirst(steps, q);
      DistinctAges(steps);
    } else {
      FreeSlotIsTaken(steps, q);
    }
    SlotLeaves(a, Touched(Run(steps), Ask(q)), i);
    kept := if |a| == SLOTS then a[1..] else a;
  }

  lemma TouchedByAsk(steps: seq<Step>, q: Query)
    requires Admitted(Run(steps), q)
    ensures forall n :: 0 <= n < |Age(steps)| ==>
              (Age(steps)[n] in Touched(Run(steps), Ask(q)) <==> Age(steps)[n] == AllocIndex(Run(steps), q.allocNow))
  {
    var a := Age(steps);
    RunKeepsAge(steps);
    forall n | 0 <= n < |a|
      ensures a[n] in Touched(Run(steps), Ask(q)) <==> a[n] == AllocIndex(Run(steps), q.allocNow)
    {
      assert a[n] in a;
      NextSlot(Run(steps), Ask(q), a[n]);
    }
  }

  lemma DistinctAges(steps: seq<Step>)
    ensures forall m, n :: 0 <= m < n < |Age(steps)| ==> Age(steps)[m] != Age(steps)[n]
  {
    RunKeepsAge(steps);
  }

  lemma FreeSlotIsTaken(steps: seq<Step>, q: Query)
    requires |Age(steps)| != SLOTS
    ensures forall n :: 0 <= n < |Age(steps)| ==> Age(steps)[n] != AllocIndex(Run(steps), q.allocNow)
  {
    AgeIsFullWhenTableIs(steps);
    RunKeepsAge(steps);
    assert AllocIndex(Run(steps), q.allocNow) !in Age(steps);
  }

  lemma OriginsAfterAsk(steps: seq<Step>, q: Query, after: seq<Step>)
    requires Admitted(Run(steps), q) && after == steps + [Ask(q)]
    ensures forall x: nat :: x < SLOTS && x != AllocIndex(Run(steps), q.allocNow) ==>
              Origin(after, x) == Origin(steps, x)
    ensures Origin(after, AllocIndex(Run(steps), q.allocNow)) == |steps|
    ensures Age(after) == Without(Age(steps), Touched(Run(steps), Ask(q))) + Added(Run(steps), Ask(q))
  {
    AgeAfter(steps, Ask(q));
  }

  // A query joins the queue at its end; when the queue holds eight, its head leaves.
  lemma AskIsEnqueue(steps: seq<Step>, q: Query)
    requires StrictTimes(steps + [Ask(q)]) && Admitted(Run(steps), q)
    ensures Queue(steps + [Ask(q)]) ==
      (if |Queue(steps)| == SLOTS then Queue(steps)[1..] else Queue(steps)) + (if q.sendOk then [|steps|] else [])
  {
    Enqueued(steps, q, steps + [Ask(q)]);
  }

  lemma Enqueued(steps: seq<Step>, q: Query, after: seq<Step>)
    requires StrictTimes(after) && Admitted(Run(steps), q) && after == steps + [Ask(q)]
    ensures Queue(after) ==
      (if |Queue(steps)| == SLOTS then Queue(steps)[1..] else Queue(steps)) + (if q.sendOk then [|steps|] else [])
  {
    var kept, extra := AskParts(steps, q, after);
    OriginsAfter(steps, after, kept, extra, |steps|);
    if |Age(steps)| == SLOTS { OriginsTail(steps, Age(steps)); }
  }

  lemma OriginsTail(steps: seq<Step>, xs: seq<nat>)
    requires xs != []
    ensures Origins(steps, xs[1..]) == Origins(steps, xs)[1..]
  {
  }

  lemma AskParts(steps: seq<Step>, q: Query, after: seq<Step>) returns (kept: seq<nat>, extra: seq<nat>)
    requires StrictTimes(after) && Admitted(Run(steps), q) && after == steps + [Ask(q)]
    ensures Age(after) == kept + extra
    ensures kept == if |Age(steps)| == SLOTS then Age(steps)[1..] else Age(steps)
    ensures |extra| == if q.sendOk then 1 else 0
    ensures forall x :: x in kept ==> Origin(after, x) == Origin(steps, x)
    ensures forall x :: x in extra ==> Origin(after, x) == |steps|
  {
    kept := AgeAfterAsk(steps, q);
    AgeInRange(steps);
    OriginsAfterAsk(steps, q, after);
    extra := if q.sendOk then [AllocIndex(Run(steps), q.allocNow)] else [];
  }

  lemma AgeAfterReply(steps: seq<Step>, step: Step, c: nat) returns (p: nat)
    requires step.Reply? && Answers(Run(steps), step.msg, step.from) == Some(c)
    ensures p < |Age(steps)| && Age(steps)[p] == c
    ensures Without(Age(steps), Touched(Run(steps), step)) == Age(steps)[..p] + Age(steps)[p + 1..]
  {
    var a := Age(steps);
    RunKeepsAge(steps);
    AgeInRange(steps);
    assert c in a;
    p :| 0 <= p < |a| && a[p] == c;
    forall n | 0 <= n < |a|
      ensures a[n] in Touched(Run(steps), step) <==> n == p
    {
      assert a[n] in a;
      NextSlot(Run(steps), step, a[n]);
    }
    WithoutOne(a, p, Touched(Run(steps), step));
  }

  // A relayed reply takes exactly the query it answers out of the queue.
  lemma ReplyIsRemove(steps: seq<Step>, step: Step) returns (p: nat)
    requires step.Reply? && RepliesAt(steps + [step], |steps|)
    ensures p < |Queue(steps)|
    ensures Queue(steps)[p] == AnswerTo(steps + [step], |steps|)
    ensures Queue(steps + [step]) == Queue(steps)[..p] + Queue(steps)[p + 1..]
  {
    assert (steps + [step])[..|steps|] == steps;
    var c := Answers(Run(steps), step.msg, step.from).value;
    p := AgeAfterReply(steps, step, c);
    var a := Age(steps);
    var kept := a[..p] + a[p + 1..];
    AgeAfter(steps, step);
    AgeInRange(steps);
    assert kept + [] == kept;
    OriginsAfter(steps, steps + [step], kept, [], |steps|);
    OriginsWithoutOne(steps, a, p);
  }

  predicate Stale(t: Table, i: nat, now: int) {
    i < SLOTS && now - t[i].sentAt > TTL_US
  }

  // Of slots in sending order, the stale ones come first.
  lemma StaleCount(t: Table, a: seq<nat>, now: int) returns (m: nat)
    requires forall n :: 0 <= n < |a| ==> a[n] < SLOTS
    requires forall m, n :: 0 <= m < n < |a| ==> t[a[m]].sentAt < t[a[n]].sentAt
    ensures m <= |a|
    ensures forall n :: 0 <= n < |a| ==> (Stale(t, a[n], now) <==> n < m)
  {
    m := 0;
    while m < |a| && Stale(t, a[m], now)
      invariant m <= |a|
      invariant forall n :: 0 <= n < m ==> Stale(t, a[n], now)
    {
      m := m + 1;
    }
  }

  lemma StalePrefix(steps: seq<Step>, now: int) returns (m: nat)
    requires StrictTimes(steps)
    ensures m <= |Age(steps)|
    ensures forall n :: 0 <= n < |Age(steps)| ==> (Stale(Run(steps), Age(steps)[n], now) <==> n < m)
  {
    var a, t := Age(steps), Run(steps);
    AgeInRange(steps);
    forall m, n | 0 <= m < n < |a|
      ensures t[a[m]].sentAt < t[a[n]].sentAt
    {
      SentInAgeOrder(steps, m, n);
    }
    m := StaleCount(t, a, now);
  }

  lemma WithoutPrefix(a: seq<nat>, m: nat, gone: set<nat>)
    requires m <= |a| && forall n :: 0 <= n < |a| ==> (a[n] in gone <==> n < m)
    ensures Without(a, gone) == a[m..]
  {
    assert a == a[..m] + a[m..];
    WithoutSplit(a[..m], a[m..], gone);
    WithoutAll(a[..m], gone);
    WithoutNone(a[m..], gone);
  }

  lemma AgeAfterExpire(steps: seq<Step>, now: int, m: nat)
    requires m <= |Age(steps)|
    requires forall n :: 0 <= n < |Age(steps)| ==> (Stale(Run(steps), Age(steps)[n], now) <==> n < m)
    ensures Without(Age(steps), Touched(Run(steps), ExpireStale(now))) == Age(steps)[m..]
  {
    var a, t := Age(steps), Run(steps);
    AgeInRange(steps);
    RunKeepsAge(steps);
    forall n | 0 <= n < |a|
      ensures a[n] in Touched(t, ExpireStale(now)) <==> n < m
    {
      assert a[n] in a;
      assert Next(t, ExpireStale(now)).0[a[n]] == ExpireSlot(t[a[n]], now);
    }
    WithoutPrefix(a, m, Touched(t, ExpireStale(now)));
  }

  // Expiry drops exactly the head part of the queue that is older than the limit.
  lemma ExpireIsDropHead(steps: seq<Step>, now: int) returns (m: nat)
    requires StrictTimes(steps)
    ensures m <= |Queue(steps)|
    ensures Queue(steps + [ExpireStale(now)]) == Queue(steps)[m..]
    ensures forall n :: 0 <= n < |Queue(steps)| ==>
              AsksAt(steps, Queue(steps)[n]) && (now - steps[Queue(steps)[n]].q.sentNow > TTL_US <==> n < m)
  {
    m := StalePrefix(steps, now);
    QueueAfterExpire(steps, now, m);
    forall n | 0 <= n < |Queue(steps)|
      ensures AsksAt(steps, Queue(steps)[n])
      ensures now - steps[Queue(steps)[n]].q.sentNow > TTL_US <==> n < m
    {
      QueueMember(steps, n);
    }
  }

  lemma QueueAfterExpire(steps: seq<Step>, now: int, m: nat)
    requires m <= |Age(steps)|
    requires forall n :: 0 <= n < |Age(steps)| ==> (Stale(Run(steps), Age(steps)[n], now) <==> n < m)
    ensures Queue(steps + [ExpireStale(now)]) == Queue(steps)[m..]
  {
    var a := Age(steps);
    AgeAfterExpire(steps, now, m);
    AgeAfter(steps, ExpireStale(now));
    AgeInRange(steps);
    assert a[m..] + [] == a[m..];
    OriginsAfter(steps, steps + [ExpireStale(now)], a[m..], [], |steps|);
    OriginsFrom(steps, a, m);
  }

  lemma OriginsFrom(steps: seq<Step>, xs: seq<nat>, m: nat)
    requires m <= |xs|
    ensures Origins(steps, xs[m..]) == Origins(steps, xs)[m..]
  {
  }

  lemma QueueMember(steps: seq<Step>, n: nat)
    requires n < |Queue(steps)|
    ensures AsksAt(steps, Queue(steps)[n])
    ensures Age(steps)[n] < SLOTS && Run(steps)[Age(steps)[n]].sentAt == steps[Queue(steps)[n]].q.sentNow
  {
    AgeInRange(steps);
    RunKeepsAge(steps);
    RunKeepsOrigins(steps);
    var i := Age(steps)[n];
    assert i in Age(steps);
    assert FilledBy(steps, Origin(steps, i), Run(steps)[i]);
  }

  // Steps that neither forward a query, nor relay a reply, nor expire anything
  // leave the queue alone.
  lemma IdleKeepsQueue(steps: seq<Step>, step: Step)
    requires Next(Run(steps), step).0 == Run(steps)
    requires step.Ask? ==> !Admitted(Run(steps), step.q)
    ensures Queue(steps + [step]) == Queue(steps)
  {
    var a := Age(steps);
    RunKeepsAge(steps);
    AgeAfter(steps, step);
    WithoutNone(a, Touched(Run(steps), step));
    assert a + [] == a;
    AgeInRange(steps);
    OriginsAfter(steps, steps + [step], a, [], |steps|);
  }

  // A query is pushed out of the table only by the eighth later one: at that moment
  // the table holds it and seven queries that were all forwarded after it.
  lemma EvictedByTheEighthLater(steps: seq<Step>, q: Query, j: nat)
    requires StrictTimes(steps + [Ask(q)]) && Admitted(Run(steps), q)
    requires j in Queue(steps) && j !in Queue(steps + [Ask(q)])
    ensures |Queue(steps)| == SLOTS && Queue(steps)[0] == j
    ensures forall n :: 0 <= n < SLOTS ==> AsksAt(steps, Queue(steps)[n])
    ensures forall m, n :: 0 <= m < n < SLOTS ==> Queue(steps)[m] < Queue(steps)[n]
  {
    AskIsEnqueue(steps, q);
    OnlyTheHeadLeaves(Queue(steps), if q.sendOk then [|steps|] else [], j);
    QueueIsInOrder(steps);
  }

  lemma QueueIsInOrder(steps: seq<Step>)
    ensures forall n :: 0 <= n < |Queue(steps)| ==> AsksAt(steps, Queue(steps)[n])
    ensures forall m, n :: 0 <= m < n < |Queue(steps)| ==> Queue(steps)[m] < Queue(steps)[n]
  {
    forall n | 0 <= n < |Queue(steps)|
      ensures AsksAt(steps, Queue(steps)[n])
    {
      QueueMember(steps, n);
    }
    RunKeepsAge(steps);
  }

  lemma OnlyTheHeadLeaves(before: seq<nat>, extra: seq<nat>, j: nat)
    requires j in before && j !in (if |before| == SLOTS then before[1..] else before) + extra
    ensures |before| == SLOTS && before[0] == j
  {
    assert before == before[..1] + before[1..];
  }
}
