// Whole runs of the DNS forwarder: where replies go, what the table keeps, and the
// bounded queue that it implements.
module DnsRuns {
  import opened ByteSeqs
  import opened Options
  import opened DnsMessage
  import opened DnsTable

  datatype Step =
    | ExpireStale(now: int)
    | Ask(q: Query)
    | Reply(msg: Bytes, from: Endpoint)

  function Next(t: Table, step: Step): (Table, Option<Sent>) {
    match step
    case ExpireStale(now) => (Expire(t, now), None)
    case Ask(q) => OnQuery(t, q)
    case Reply(msg, from) => OnReply(t, msg, from)
  }

  function Run(steps: seq<Step>): Table {
    if steps == [] then Initial() else Next(Run(steps[..|steps| - 1]), steps[|steps| - 1]).0
  }

  // Step k of the run is a query that is forwarded.
  predicate AsksAt(steps: seq<Step>, k: nat) {
    k < |steps| && steps[k].Ask? && Admitted(Run(steps[..k]), steps[k].q)
  }

  // Step k of the run sends a datagram to a leaf.
  predicate RepliesAt(steps: seq<Step>, k: nat) {
    k < |steps| && steps[k].Reply? && Answers(Run(steps[..k]), steps[k].msg, steps[k].from).Some?
  }

  // The query step that last filled slot i.
  function Origin(steps: seq<Step>, i: nat): nat {
    if steps == [] then 0
    else
      var last := |steps| - 1;
      if AsksAt(steps, last) && AllocIndex(Run(steps[..last]), steps[last].q.allocNow) == i then last
      else Origin(steps[..last], i)
  }

  // Slot s was filled by the query of step k.
  predicate FilledBy(steps: seq<Step>, k: nat, s: Slot) {
    AsksAt(steps, k) && s == NewSlot(Run(steps[..k]), steps[k].q)
  }

  lemma AsksAtPrefix(steps: seq<Step>, n: nat, k: nat)
    requires k < n <= |steps|
    ensures AsksAt(steps[..n], k) == AsksAt(steps, k)
    ensures RepliesAt(steps[..n], k) == RepliesAt(steps, k)
    ensures steps[..n][..k] == steps[..k]
  {
    assert steps[..n][..k] == steps[..k];
  }

  // Every live slot is exactly as its query filled it, and no two share a query.
  ghost predicate OriginInv(steps: seq<Step>) {
    && (forall i :: 0 <= i < SLOTS && Run(steps)[i].inUse ==>
          Origin(steps, i) < |steps| && FilledBy(steps, Origin(steps, i), Run(steps)[i]))
    && (forall i, j :: 0 <= i < j < SLOTS && Run(steps)[i].inUse && Run(steps)[j].inUse ==>
          Origin(steps, i) != Origin(steps, j))
    && DistinctIds(Run(steps))
  }

  predicate Fills(t: Table, step: Step, i: nat) {
    step.Ask? && Admitted(t, step.q) && AllocIndex(t, step.q.allocNow) == i
  }

  lemma NextSlot(t: Table, step: Step, i: nat)
    requires i < SLOTS
    ensures Fills(t, step, i) ==> Next(t, step).0[i] == NewSlot(t, step.q)
    ensures !Fills(t, step, i) && Next(t, step).0[i].inUse ==> Next(t, step).0[i] == t[i]
  {
  }

  lemma NextKeepsDistinctIds(t: Table, step: Step)
    requires DistinctIds(t)
    ensures DistinctIds(Next(t, step).0)
  {
    if step.Ask? { QueryKeepsDistinctIds(t, step.q); }
  }

  lemma OriginStep(steps: seq<Step>, i: nat)
    requires steps != [] && i < SLOTS && Run(steps)[i].inUse
    requires OriginInv(steps[..|steps| - 1])
    ensures Origin(steps, i) < |steps| && FilledBy(steps, Origin(steps, i), Run(steps)[i])
    ensures Fills(Run(steps[..|steps| - 1]), steps[|steps| - 1], i) ==> Origin(steps, i) == |steps| - 1
    ensures !Fills(Run(steps[..|steps| - 1]), steps[|steps| - 1], i) ==>
      && Run(steps[..|steps| - 1])[i] == Run(steps)[i]
      && Origin(steps, i) == Origin(steps[..|steps| - 1], i) < |steps| - 1
  {
    var last := |steps| - 1;
    NextSlot(Run(steps[..last]), steps[last], i);
    if !Fills(Run(steps[..last]), steps[last], i) {
      AsksAtPrefix(steps, last, Origin(steps[..last], i));
    }
  }

  lemma {:induction false} RunKeepsOrigins(steps: seq<Step>)
    ensures OriginInv(steps)
  {
    if steps != [] {
      var last := |steps| - 1;
      RunKeepsOrigins(steps[..last]);
      NextKeepsDistinctIds(Run(steps[..last]), steps[last]);
      forall i | 0 <= i < SLOTS && Run(steps)[i].inUse
        ensures Origin(steps, i) < |steps| && FilledBy(steps, Origin(steps, i), Run(steps)[i])
      {
        OriginStep(steps, i);
      }
      forall i, j | 0 <= i < j < SLOTS && Run(steps)[i].inUse && Run(steps)[j].inUse
        ensures Origin(steps, i) != Origin(steps, j)
      {
        OriginStep(steps, i);
        OriginStep(steps, j);
      }
    }
  }

  // ------------------------------------------------- end to end

  // The query that reply step k answers.
  function AnswerTo(steps: seq<Step>, k: nat): nat
    requires RepliesAt(steps, k)
  {
    Origin(steps[..k], Answers(Run(steps[..k]), steps[k].msg, steps[k].from).value)
  }

  // Each datagram sent to a leaf goes to the address and port from which a query
  // was received; it is a reply that came from exactly the resolver to which that
  // query was sent, under the ID under which it was sent, changed in nothing but its
  // two ID bytes; it carries the query's own ID and question.
  lemma ReplyIsFaithful(steps: seq<Step>, k: nat)
    requires RepliesAt(steps, k)
    ensures AnswerTo(steps, k) < k && AsksAt(steps, AnswerTo(steps, k))
    ensures var q, reply := steps[AnswerTo(steps, k)].q, steps[k];
      && |q.msg| >= HEADER && |reply.msg| >= HEADER
      && Next(Run(steps[..k]), reply).1 ==
           Some(ToLeaf(q.leaf, SetId(reply.msg, Word(q.msg[0], q.msg[1]))))
      && q.upstream == Some(reply.from)
      && Word(reply.msg[0], reply.msg[1]) == DrawnId(Run(steps[..AnswerTo(steps, k)]), q)
      && Question(SetId(reply.msg, Word(q.msg[0], q.msg[1]))) == Question(q.msg) != None
  {
    var t := Run(steps[..k]);
    var i := Answers(t, steps[k].msg, steps[k].from).value;
    RunKeepsOrigins(steps[..k]);
    var j := Origin(steps[..k], i);
    assert FilledBy(steps[..k], j, t[i]);
    AsksAtPrefix(steps, k, j);
    IdDoesNotMatter(steps[k].msg, t[i].clientId);
  }

  // Every query forwarded is the leaf's own datagram changed in nothing but its ID.
  lemma QueryIsFaithful(steps: seq<Step>, k: nat)
    requires AsksAt(steps, k)
    ensures var q := steps[k].q;
      Next(Run(steps[..k]), steps[k]).1 == Some(ToResolver(q.upstream.value, SetId(q.msg, DrawnId(Run(steps[..k]), q))))
    ensures Find(Run(steps[..k]), DrawnId(Run(steps[..k]), steps[k].q)) == None
  {
    DrawnIsUnused(Run(steps[..k]), steps[k].q);
  }

  lemma DrawnIsUnused(t: Table, q: Query)
    requires Admitted(t, q)
    ensures Find(t, DrawnId(t, q)) == None
  {
    var marked := Marked(t, AllocIndex(t, q.allocNow));
    assert Find(marked, DrawnId(t, q)) == None;
    forall i | 0 <= i < SLOTS && t[i].inUse
      ensures t[i].upstreamId != DrawnId(t, q)
    {
      assert marked[i].inUse && marked[i].upstreamId == t[i].upstreamId;
    }
  }

  // A query is answered at most once.
  lemma {:induction false} AnsweredOnce(steps: seq<Step>, k: nat, l: nat)
    requires k < l && RepliesAt(steps, k) && RepliesAt(steps, l)
    ensures AnswerTo(steps, k) != AnswerTo(steps, l)
  {
    ReplyIsFaithful(steps, k);
    ReplyIsFaithful(steps, l);
    var i := Answers(Run(steps[..l]), steps[l].msg, steps[l].from).value;
    var j := AnswerTo(steps, k);
    if Origin(steps[..l], i) == j {
      GoneStaysGone(steps, k, l, i);
    }
  }

  lemma RunPrefix(steps: seq<Step>, l: nat)
    requires 0 < l <= |steps|
    ensures steps[..l][..l - 1] == steps[..l - 1] && steps[..l][l - 1] == steps[l - 1]
    ensures Run(steps[..l]) == Next(Run(steps[..l - 1]), steps[l - 1]).0
  {
    assert steps[..l][..l - 1] == steps[..l - 1];
  }

  // A live slot was filled just now, or was live with the same origin before.
  lemma OriginBack(steps: seq<Step>, l: nat, i: nat)
    requires 0 < l <= |steps| && i < SLOTS && Run(steps[..l])[i].inUse
    ensures Origin(steps[..l], i) == l - 1
      || (Run(steps[..l - 1])[i].inUse && Origin(steps[..l], i) == Origin(steps[..l - 1], i))
  {
    RunPrefix(steps, l);
    RunKeepsOrigins(steps[..l - 1]);
    OriginStep(steps[..l], i);
  }

  // A relayed reply vacates the slot it answers and leaves the others alone.
  lemma ReplyVacates(steps: seq<Step>, k: nat, i: nat) returns (c: nat)
    requires RepliesAt(steps, k) && i < SLOTS && Run(steps[..k + 1])[i].inUse
    ensures c < SLOTS && c != i && Run(steps[..k])[c].inUse && AnswerTo(steps, k) == Origin(steps[..k], c)
    ensures Run(steps[..k])[i].inUse
  {
    RunPrefix(steps, k + 1);
    c := Answers(Run(steps[..k]), steps[k].msg, steps[k].from).value;
  }

  lemma LiveOriginsDiffer(steps: seq<Step>, i: nat, c: nat)
    requires i < SLOTS && c < SLOTS && i != c && Run(steps)[i].inUse && Run(steps)[c].inUse
    ensures Origin(steps, i) != Origin(steps, c)
  {
    RunKeepsOrigins(steps);
    assert Origin(steps, if i < c then i else c) != Origin(steps, if i < c then c else i);
  }

  lemma ConsumedNow(steps: seq<Step>, k: nat, i: nat)
    requires RepliesAt(steps, k) && i < SLOTS && Run(steps[..k + 1])[i].inUse
    ensures Origin(steps[..k + 1], i) != AnswerTo(steps, k)
  {
    var c := ReplyVacates(steps, k, i);
    LiveOriginsDiffer(steps[..k], i, c);
    RunPrefix(steps, k + 1);
    ReplyKeepsOrigin(steps[..k + 1], i);
  }

  lemma ReplyKeepsOrigin(steps: seq<Step>, i: nat)
    requires steps != [] && steps[|steps| - 1].Reply?
    ensures Origin(steps, i) == Origin(steps[..|steps| - 1], i)
  {
  }

  // After a reply has consumed the slot of query j, no live slot stems from j.
  lemma {:induction false} GoneStaysGone(steps: seq<Step>, k: nat, l: nat, i: nat)
    requires k < l <= |steps| && RepliesAt(steps, k) && i < SLOTS && Run(steps[..l])[i].inUse
    ensures Origin(steps[..l], i) != AnswerTo(steps, k)
    decreases l
  {
    if l == k + 1 {
      ConsumedNow(steps, k, i);
    } else {
      OriginBack(steps, l, i);
      assert AnswerTo(steps, k) < k by { ReplyIsFaithful(steps, k); }
      if Run(steps[..l - 1])[i].inUse {
        GoneStaysGone(steps, k, l - 1, i);
      }
    }
  }

  // Conversely: exactly the datagrams that answer a live slot are relayed, except
  // under the one ID that the reply path never looks up; and a datagram that is not
  // relayed leaves the table unchanged.
  lemma RelayedExactly(t: Table, msg: Bytes, from: Endpoint)
    requires DistinctIds(t)
    ensures OnReply(t, msg, from).1.Some? <==>
      exists i :: 0 <= i < SLOTS && Matches(t[i], msg, from) && t[i].upstreamId != NEVER_ID
    ensures forall i :: 0 <= i < SLOTS && Matches(t[i], msg, from) && t[i].upstreamId != NEVER_ID ==>
      && OnReply(t, msg, from).1 == Some(ToLeaf(t[i].leaf, SetId(msg, t[i].clientId)))
      && OnReply(t, msg, from).0 == t[i := t[i].(inUse := false)]
    ensures OnReply(t, msg, from).1.None? ==> OnReply(t, msg, from).0 == t
  {
    if Answers(t, msg, from).Some? {
      var i := Answers(t, msg, from).value;
      ExtractExactly(msg, t[i].question);
      assert Matches(t[i], msg, from);
    }
    forall i | 0 <= i < SLOTS && Matches(t[i], msg, from) && t[i].upstreamId != NEVER_ID
      ensures Answers(t, msg, from) == Some(i)
    {
      ExtractExactly(msg, t[i].question);
      assert Find(t, Word(msg[0], msg[1])).Some?;
    }
  }

  // The datagram is a response of 12 to 512 bytes with the slot's ID, resolver and
  // question.
  ghost predicate Matches(s: Slot, msg: Bytes, from: Endpoint) {
    && s.inUse && 12 <= |msg| <= 512 && 128 <= msg[2]
    && s.upstreamId == (msg[0] as nat) * 256 + msg[1] as nat && s.resolver == from && IsQuestionOf(msg, s.question)
  }

  // A query goes upstream exactly if it is a datagram of 12 to 512 bytes, not a
  // response, with a question in it, while there is an upstream resolver and an ID is
  // drawn that neither a live slot has nor the slot that the query takes over.
  lemma ForwardedExactly(t: Table, q: Query)
    ensures OnQuery(t, q).1.Some? <==>
      && 12 <= |q.msg| <= 512 && q.msg[2] < 128 && q.upstream.Some?
      && (exists x :: IsQuestionOf(q.msg, x))
      && exists d :: d in q.draws && IsUnused(t, AllocIndex(t, q.allocNow), d)
    ensures OnQuery(t, q).1.None? ==> OnQuery(t, q).0 == t
  {
    QuestionExactly(q.msg);
    DrawEndsExactly(t, q);
  }

  lemma QuestionExactly(msg: Bytes)
    ensures Question(msg).Some? <==> exists x :: IsQuestionOf(msg, x)
  {
    if Question(msg).Some? {
      ExtractExactly(msg, Question(msg).value);
    }
    if x :| IsQuestionOf(msg, x) {
      ExtractExactly(msg, x);
    }
  }

  predicate IsUnused(t: Table, i: nat, d: Id) {
    forall k :: 0 <= k < SLOTS && (t[k].inUse || k == i) ==> t[k].upstreamId != d
  }

  lemma DrawEndsExactly(t: Table, q: Query)
    ensures DrawEnds(t, q) <==> exists d :: d in q.draws && IsUnused(t, AllocIndex(t, q.allocNow), d)
  {
    var i := AllocIndex(t, q.allocNow);
    var marked := Marked(t, i);
    forall d
      ensures Find(marked, d) == None <==> IsUnused(t, i, d)
    {
      assert forall k :: 0 <= k < SLOTS ==> marked[k].upstreamId == t[k].upstreamId;
      assert marked[i].inUse;
    }
  }

  // What a forwarded query leaves in the table, in one slot: its own endpoint, ID and
  // question, the resolver asked and the ID drawn, as of its sending; it is live if
  // the send succeeded.
  lemma SlotExactly(t: Table, q: Query)
    requires OnQuery(t, q).1.Some?
    ensures var i := AllocIndex(t, q.allocNow);
      var s := OnQuery(t, q).0[i];
      && OnQuery(t, q).0 == t[i := s] && s.inUse == q.sendOk
      && s.clientId == (q.msg[0] as nat) * 256 + q.msg[1] as nat && s.leaf == q.leaf
      && q.upstream == Some(s.resolver) && IsQuestionOf(q.msg, s.question) && s.sentAt == q.sentNow
      && s.upstreamId in q.draws && IsUnused(t, i, s.upstreamId)
      && OnQuery(t, q).1 == Some(ToResolver(s.resolver, SetId(q.msg, s.upstreamId)))
  {
    var i := AllocIndex(t, q.allocNow);
    ExtractExactly(q.msg, Question(q.msg).value);
    assert forall k :: 0 <= k < SLOTS ==> Marked(t, i)[k].upstreamId == t[k].upstreamId;
    assert Marked(t, i)[i].inUse;
  }

  // A query for the root, of type and class 1, and the resolver's reply to it under
  // the ID 0xFFFF.
  const ROOT_BODY: Bytes := [0, 0, 1, 0, 1]
  const ROOT_QUERY: Bytes := [0, 7, 1, 0, 0, 1, 0, 0, 0, 0, 0, 0] + ROOT_BODY
  const ROOT_REPLY: Bytes := [255, 255, 129, 128, 0, 1, 0, 0, 0, 0, 0, 0] + ROOT_BODY

  lemma RootQuestions()
    ensures Question(ROOT_QUERY) == Some(ROOT_BODY) && Question(ROOT_REPLY) == Some(ROOT_BODY)
    ensures IsQuestionOf(ROOT_REPLY, ROOT_BODY)
  {
    assert EncodeName([]) == [0];
    assert EncodeQuestion([], [0, 1, 0, 1]) == ROOT_BODY;
    var query: Bytes := [0, 7, 1, 0, 0, 1, 0, 0, 0, 0, 0, 0];
    var reply: Bytes := [255, 255, 129, 128, 0, 1, 0, 0, 0, 0, 0, 0];
    ExtractOfEncoding(query, [], [0, 1, 0, 1], []);
    ExtractOfEncoding(reply, [], [0, 1, 0, 1], []);
    assert query + ROOT_BODY + [] == ROOT_QUERY && reply + ROOT_BODY + [] == ROOT_REPLY;
    ExtractExactly(ROOT_REPLY, ROOT_BODY);
  }

  // The exception occurs: the ID 0xFFFF can be drawn, and the reply to that query,
  // though it matches in all three fields, is dropped and leaves the slot waiting.
  lemma NeverIdIsDrawnAndNotAnswered(leaf: Endpoint, resolver: Endpoint) returns (q: Query, t: Table)
    ensures q == Query(ROOT_QUERY, leaf, Some(resolver), 0, [NEVER_ID], 0, true)
    ensures Admitted(Initial(), q) && t == OnQuery(Initial(), q).0 && t[0].upstreamId == NEVER_ID
    ensures Matches(t[0], ROOT_REPLY, resolver) && OnReply(t, ROOT_REPLY, resolver) == (t, None)
  {
    q, t := RootAsked(leaf, resolver);
    RootQuestions();
    assert Matches(t[0], ROOT_REPLY, resolver);
    NotLookedUp(t, ROOT_REPLY, resolver);
  }

  lemma RootAsked(leaf: Endpoint, resolver: Endpoint) returns (q: Query, t: Table)
    ensures q == Query(ROOT_QUERY, leaf, Some(resolver), 0, [NEVER_ID], 0, true)
    ensures Admitted(Initial(), q) && t == OnQuery(Initial(), q).0
    ensures t[0] == Slot(true, 7, NEVER_ID, leaf, resolver, ROOT_BODY, 0)
  {
    RootQuestions();
    q := Query(ROOT_QUERY, leaf, Some(resolver), 0, [NEVER_ID], 0, true);
    assert AllocIndex(Initial(), 0) == 0;
    var marked := Marked(Initial(), 0);
    assert Find(marked, NEVER_ID) == None;
    assert FirstUnused(marked, q.draws) == Some(NEVER_ID);
    t := OnQuery(Initial(), q).0;
  }

  lemma NotLookedUp(t: Table, msg: Bytes, from: Endpoint)
    requires |msg| >= 12 && msg[0] == 255 && msg[1] == 255
    ensures OnReply(t, msg, from) == (t, None)
  {
  }
}
