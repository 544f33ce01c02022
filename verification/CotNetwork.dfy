// Many CoT relays joined into a tree: the fate of one datagram that a host sends to
// the group. Each relay decides with CotRelay.Decide.
module CotNetwork {
  import opened Options
  import opened CotRelay

  type Seg = nat
  type RelayId = nat

  // Relay r joins segment relays[r].0 (its side A) to segment relays[r].1 (side B).
  type Net = seq<(Seg, Seg)>

  predicate Attached(net: Net, r: RelayId, s: Seg) {
    r < |net| && (net[r].0 == s || net[r].1 == s)
  }

  function SideAt(net: Net, r: RelayId, s: Seg): Side
    requires Attached(net, r, s)
  {
    if net[r].0 == s then A else B
  }

  function Across(net: Net, r: RelayId, s: Seg): Seg
    requires Attached(net, r, s)
  {
    if SideAt(net, r, s) == A then net[r].1 else net[r].0
  }

  // ------------------------------------------------- paths

  // Where the walk over the relays of p leads from s, if it can be made.
  function End(net: Net, s: Seg, p: seq<RelayId>): Option<Seg> {
    if p == [] then Some(s)
    else
      var e := End(net, s, p[..|p| - 1]);
      if e.Some? && Attached(net, p[|p| - 1], e.value) then Some(Across(net, p[|p| - 1], e.value)) else None
  }

  // A walk that never turns back over the relay it has just crossed.
  predicate IsPath(net: Net, s: Seg, p: seq<RelayId>) {
    End(net, s, p).Some? && forall i :: 0 < i < |p| ==> p[i - 1] != p[i]
  }

  // No two segments are joined by more than one path.
  ghost predicate Tree(net: Net) {
    forall s, p, q :: IsPath(net, s, p) && IsPath(net, s, q) && End(net, s, p) == End(net, s, q) ==> p == q
  }

  // ------------------------------------------------- runs

  // One transmission on a segment. `parent`, the transmission it forwards, and
  // `path`, the relays crossed since the host, are history.
  datatype Tx = Tx(seg: Seg, sender: Option<RelayId>, parent: nat, path: seq<RelayId>)

  // Deliveries (i, r): transmission i, as heard by relay r.
  datatype Air = Air(sent: seq<Tx>, pending: set<(nat, RelayId)>, handled: set<(nat, RelayId)>)

  datatype Step = Deliver(i: nat, r: RelayId, lost: bool, shed: bool, egress: Egress)

  // Every interface has its own non-zero address; `host` is none of them.
  function AddrOf(r: RelayId, side: Side): Addr {
    2 * r + (if side == A then 1 else 2)
  }

  datatype Setting = Setting(net: Net, origin: Seg, host: Addr, group: Addr, len: nat)

  ghost predicate Sensible(g: Setting) {
    && 0 < g.len <= BUFFER
    && (forall r: RelayId, side: Side :: r < |g.net| ==> g.host != AddrOf(r, side))
  }

  function ConfigOf(g: Setting): Config {
    Config(1, 2, g.group)
  }

  // The datagram of transmission tx, as it reaches relay r.
  function Heard(g: Setting, tx: Tx, r: RelayId): Datagram
    requires Attached(g.net, r, tx.seg)
    requires tx.sender.Some? ==> Attached(g.net, tx.sender.value, tx.seg)
  {
    Datagram(g.len,
             if tx.sender.None? then g.host else AddrOf(tx.sender.value, SideAt(g.net, tx.sender.value, tx.seg)),
             g.group,
             Some(if SideAt(g.net, r, tx.seg) == A then 1 else 2))
  }

  function Listeners(net: Net, i: nat, s: Seg): set<(nat, RelayId)> {
    set r | 0 <= r < |net| && Attached(net, r, s) :: (i, r)
  }

  function Initial(g: Setting): Air {
    Air([Tx(g.origin, None, 0, [])], Listeners(g.net, 0, g.origin), {})
  }

  // The onward transmission, if relay r makes one.
  function Onward(g: Setting, tx: Tx, step: Step): Option<Tx> {
    if !Attached(g.net, step.r, tx.seg) || step.lost then None
    else if tx.sender.Some? && !Attached(g.net, tx.sender.value, tx.seg) then None
    else
      var env := Env(Some(AddrOf(step.r, A)), Some(AddrOf(step.r, B)), step.shed);
      var verdict := Decide(ConfigOf(g), env, Heard(g, tx, step.r));
      if !verdict.Forward? || !Transmitted(step.egress) then None
      else
        var onto := if verdict.arrival == A then g.net[step.r].1 else g.net[step.r].0;
        Some(Tx(onto, Some(step.r), step.i, tx.path + [step.r]))
  }

  function Next(g: Setting, s: Air, step: Step): Air {
    var d := (step.i, step.r);
    if d !in s.pending || step.i >= |s.sent| then s
    else
      var t := Air(s.sent, s.pending - {d}, s.handled + {d});
      match Onward(g, s.sent[step.i], step)
      case None => t
      case Some(tx) => t.(sent := s.sent + [tx], pending := t.pending + Listeners(g.net, |s.sent|, tx.seg))
  }

  function Run(g: Setting, steps: seq<Step>): Air {
    if steps == [] then Initial(g) else Next(g, Run(g, steps[..|steps| - 1]), steps[|steps| - 1])
  }

  // A relay forwards across, and never what it sent itself.
  lemma OnwardCrosses(g: Setting, tx: Tx, step: Step)
    requires Sensible(g) && Attached(g.net, step.r, tx.seg)
    requires tx.sender.Some? ==> Attached(g.net, tx.sender.value, tx.seg)
    ensures Onward(g, tx, step).Some?
      <==> !step.lost && tx.sender != Some(step.r) && !step.shed && Transmitted(step.egress)
    ensures Onward(g, tx, step).Some? ==>
      Onward(g, tx, step) == Some(Tx(Across(g.net, step.r, tx.seg), Some(step.r), step.i, tx.path + [step.r]))
  {
  }

  // ------------------------------------------------- invariant

  // The transmission stands at the end of its path and was made by its last relay.
  predicate TxOk(g: Setting, tx: Tx) {
    && IsPath(g.net, g.origin, tx.path) && End(g.net, g.origin, tx.path) == Some(tx.seg)
    && tx.sender == (if tx.path == [] then None else Some(tx.path[|tx.path| - 1]))
    && (tx.sender.Some? ==> Attached(g.net, tx.sender.value, tx.seg))
  }

  ghost predicate TxsOk(g: Setting, s: Air) {
    forall i :: 0 <= i < |s.sent| ==> TxOk(g, s.sent[i])
  }

  // Transmission k forwards an earlier one that its sender heard.
  predicate ParentOk(sent: seq<Tx>, handled: set<(nat, RelayId)>, k: nat)
    requires k < |sent|
  {
    && sent[k].parent < k && sent[k].sender.Some?
    && sent[k].path == sent[sent[k].parent].path + [sent[k].sender.value]
    && (sent[k].parent, sent[k].sender.value) in handled
  }

  // So does every transmission but the host's.
  ghost predicate ParentsOk(s: Air) {
    && |s.sent| > 0 && s.sent[0].path == []
    && forall k :: 0 < k < |s.sent| ==> ParentOk(s.sent, s.handled, k)
  }

  ghost predicate PathsDistinct(s: Air) {
    forall i, j :: 0 <= i < j < |s.sent| ==> s.sent[i].path != s.sent[j].path
  }

  ghost predicate DeliveriesOk(g: Setting, s: Air) {
    && s.pending !! s.handled
    && (forall d :: d in s.pending || d in s.handled ==> d.0 < |s.sent| && Attached(g.net, d.1, s.sent[d.0].seg))
    && (forall i: nat, r: RelayId :: i < |s.sent| && Attached(g.net, r, s.sent[i].seg)
          ==> (i, r) in s.pending || (i, r) in s.handled)
  }

  ghost predicate Inv(g: Setting, s: Air) {
    TxsOk(g, s) && ParentsOk(s) && PathsDistinct(s) && DeliveriesOk(g, s)
  }

  lemma PathGrows(g: Setting, tx: Tx, r: RelayId, i: nat)
    requires TxOk(g, tx) && Attached(g.net, r, tx.seg) && tx.sender != Some(r)
    ensures TxOk(g, Tx(Across(g.net, r, tx.seg), Some(r), i, tx.path + [r]))
  {
    var p := tx.path + [r];
    assert p[..|p| - 1] == tx.path;
  }

  // A step that handles a pending delivery may add one transmission.
  lemma NextAdds(g: Setting, s: Air, step: Step) returns (more: seq<Tx>)
    requires Sensible(g) && DeliveriesOk(g, s) && TxsOk(g, s) && (step.i, step.r) in s.pending
    ensures step.i < |s.sent| && Attached(g.net, step.r, s.sent[step.i].seg)
    ensures Next(g, s, step).sent == s.sent + more && |more| <= 1
    ensures Next(g, s, step).handled == s.handled + {(step.i, step.r)}
    ensures more != [] ==>
      && s.sent[step.i].sender != Some(step.r)
      && more[0] == Tx(Across(g.net, step.r, s.sent[step.i].seg), Some(step.r), step.i, s.sent[step.i].path + [step.r])
  {
    var tx := s.sent[step.i];
    assert TxOk(g, tx);
    OnwardCrosses(g, tx, step);
    more := if Onward(g, tx, step).Some? then [Onward(g, tx, step).value] else [];
  }

  lemma NextKeepsTxs(g: Setting, s: Air, step: Step)
    requires Sensible(g) && Inv(g, s)
    ensures TxsOk(g, Next(g, s, step))
  {
    if (step.i, step.r) in s.pending {
      var more := NextAdds(g, s, step);
      AddedTxOk(g, s, step, more);
    }
  }

  lemma AddedTxOk(g: Setting, s: Air, step: Step, more: seq<Tx>)
    requires TxsOk(g, s) && step.i < |s.sent| && Attached(g.net, step.r, s.sent[step.i].seg) && |more| <= 1
    requires more != [] ==>
      && s.sent[step.i].sender != Some(step.r)
      && more[0] == Tx(Across(g.net, step.r, s.sent[step.i].seg), Some(step.r), step.i, s.sent[step.i].path + [step.r])
    ensures forall tx :: tx in s.sent + more ==> TxOk(g, tx)
  {
    if more != [] { PathGrows(g, s.sent[step.i], step.r, step.i); }
  }

  lemma ParentStays(sent: seq<Tx>, more: seq<Tx>, handled: set<(nat, RelayId)>, d: (nat, RelayId), k: nat)
    requires k < |sent| && ParentOk(sent, handled, k)
    ensures ParentOk(sent + more, handled + {d}, k)
  {
  }

  lemma AddedParent(sent: seq<Tx>, more: seq<Tx>, handled: set<(nat, RelayId)>, d: (nat, RelayId))
    requires |more| == 1 && d.0 < |sent| && more[0].parent == d.0 && more[0].sender == Some(d.1)
    requires more[0].path == sent[d.0].path + [d.1]
    ensures ParentOk(sent + more, handled + {d}, |sent|)
  {
  }

  lemma ParentsAfter(s: Air, more: seq<Tx>, d: (nat, RelayId), t: Air)
    requires ParentsOk(s) && t.sent == s.sent + more && t.handled == s.handled + {d} && |more| <= 1
    requires more != [] ==> ParentOk(s.sent + more, s.handled + {d}, |s.sent|)
    ensures ParentsOk(t)
  {
    forall k | 0 < k < |t.sent|
      ensures ParentOk(t.sent, t.handled, k)
    {
      if k < |s.sent| {
        ParentStays(s.sent, more, s.handled, d, k);
      }
    }
  }

  lemma NextKeepsParents(g: Setting, s: Air, step: Step)
    requires Sensible(g) && Inv(g, s)
    ensures ParentsOk(Next(g, s, step))
  {
    if (step.i, step.r) in s.pending {
      var more := NextAdds(g, s, step);
      if more != [] {
        AddedParent(s.sent, more, s.handled, (step.i, step.r));
      }
      ParentsAfter(s, more, (step.i, step.r), Next(g, s, step));
    }
  }

  lemma NextKeepsDistinct(g: Setting, s: Air, step: Step)
    requires Sensible(g) && Inv(g, s)
    ensures PathsDistinct(Next(g, s, step))
  {
    if (step.i, step.r) in s.pending {
      OnwardCrosses(g, s.sent[step.i], step);
      forall k | 0 <= k < |s.sent|
        ensures s.sent[k].path != s.sent[step.i].path + [step.r]
      {
        NotForwardedYet(s, step.i, step.r, k);
      }
    }
  }

  lemma SnocInjective(p: seq<RelayId>, r: RelayId, q: seq<RelayId>, x: RelayId)
    requires p + [r] == q + [x]
    ensures p == q && r == x
  {
    assert (p + [r])[..|p|] == p && (q + [x])[..|q|] == q;
    assert (p + [r])[|p|] == r && (q + [x])[|q|] == x;
  }

  // A delivery that is still pending has not been forwarded.
  lemma NotForwardedYet(s: Air, i: nat, r: RelayId, k: nat)
    requires ParentsOk(s) && PathsDistinct(s) && s.pending !! s.handled
    requires (i, r) in s.pending && i < |s.sent| && k < |s.sent|
    ensures s.sent[k].path != s.sent[i].path + [r]
  {
    if k > 0 && s.sent[k].path == s.sent[i].path + [r] {
      assert ParentOk(s.sent, s.handled, k);
      var up := s.sent[k].parent;
      SnocInjective(s.sent[up].path, s.sent[k].sender.value, s.sent[i].path, r);
    }
  }

  lemma NextKeepsDeliveries(g: Setting, s: Air, step: Step)
    requires DeliveriesOk(g, s)
    ensures DeliveriesOk(g, Next(g, s, step))
  {
  }

  lemma InitialInv(g: Setting)
    ensures Inv(g, Initial(g))
  {
  }

  lemma {:induction false} RunKeepsInv(g: Setting, steps: seq<Step>)
    requires Sensible(g)
    ensures Inv(g, Run(g, steps))
  {
    if steps == [] {
      InitialInv(g);
    } else {
      var s, step := Run(g, steps[..|steps| - 1]), steps[|steps| - 1];
      RunKeepsInv(g, steps[..|steps| - 1]);
      NextKeepsTxs(g, s, step);
      NextKeepsParents(g, s, step);
      NextKeepsDistinct(g, s, step);
      NextKeepsDeliveries(g, s, step);
    }
  }

  // ------------------------------------------------- in a tree

  ghost predicate SegmentsDistinct(s: Air) {
    forall i, j :: 0 <= i < j < |s.sent| ==> s.sent[i].seg != s.sent[j].seg
  }

  lemma PathsDecideSegments(g: Setting, s: Air)
    requires Tree(g.net) && TxsOk(g, s) && PathsDistinct(s)
    ensures SegmentsDistinct(s)
  {
    forall i, j | 0 <= i < j < |s.sent|
      ensures s.sent[i].seg != s.sent[j].seg
    {
      assert TxOk(g, s.sent[i]) && TxOk(g, s.sent[j]);
    }
  }

  // At most one transmission on each segment, the host's own included.
  lemma AtMostOncePerSegment(g: Setting, steps: seq<Step>, i: nat, j: nat)
    requires Sensible(g) && Tree(g.net)
    requires i < j < |Run(g, steps).sent|
    ensures Run(g, steps).sent[i].seg != Run(g, steps).sent[j].seg
  {
    RunKeepsInv(g, steps);
    PathsDecideSegments(g, Run(g, steps));
  }

  // A relay never transmits back onto the segment from which it received.
  lemma NeverBackToArrival(g: Setting, steps: seq<Step>, k: nat)
    requires Sensible(g) && Tree(g.net) && 0 < k < |Run(g, steps).sent|
    ensures Run(g, steps).sent[k].parent < k
    ensures Run(g, steps).sent[k].seg != Run(g, steps).sent[Run(g, steps).sent[k].parent].seg
  {
    RunKeepsInv(g, steps);
    assert ParentOk(Run(g, steps).sent, Run(g, steps).handled, k);
    AtMostOncePerSegment(g, steps, Run(g, steps).sent[k].parent, k);
  }

  lemma SenderCrossed(g: Setting, s: Air, k: nat) returns (r: RelayId, from: Seg)
    requires TxsOk(g, s) && ParentsOk(s) && 0 < k < |s.sent|
    ensures s.sent[k].sender == Some(r) && s.sent[k].parent < k && from == s.sent[s.sent[k].parent].seg
    ensures Attached(g.net, r, from) && s.sent[k].seg == Across(g.net, r, from)
  {
    assert ParentOk(s.sent, s.handled, k);
    var tx := s.sent[k];
    var up := s.sent[tx.parent];
    r, from := tx.sender.value, up.seg;
    assert tx.path == up.path + [r];
    assert tx.path[..|tx.path| - 1] == up.path;
    assert TxOk(g, tx) && TxOk(g, up);
  }

  // A relay that sent twice would, the second time, have heard the parent of its
  // first transmission again, or that transmission itself.
  lemma RelayedOnce(g: Setting, s: Air, i: nat, j: nat)
    requires TxsOk(g, s) && ParentsOk(s) && SegmentsDistinct(s) && 0 < i < j < |s.sent|
    ensures s.sent[i].sender != s.sent[j].sender
  {
    var r, from := SenderCrossed(g, s, i);
    var q, origin := SenderCrossed(g, s, j);
    var p := s.sent[j].parent;
    if p < i {
      assert s.sent[p].seg != s.sent[i].seg;
    } else if p > i {
      assert s.sent[i].seg != s.sent[p].seg;
    }
  }

  // No relay transmits the datagram twice.
  lemma RelaysOnce(g: Setting, steps: seq<Step>, i: nat, j: nat)
    requires Sensible(g) && Tree(g.net)
    requires 0 < i < j < |Run(g, steps).sent|
    ensures Run(g, steps).sent[i].sender != Run(g, steps).sent[j].sender
  {
    RunKeepsInv(g, steps);
    PathsDecideSegments(g, Run(g, steps));
    RelayedOnce(g, Run(g, steps), i, j);
  }

  // ------------------------------------------------- the run ends

  // Deliveries that did something.
  function Handled(g: Setting, steps: seq<Step>): nat {
    if steps == [] then 0
    else
      var s, step := Run(g, steps[..|steps| - 1]), steps[|steps| - 1];
      Handled(g, steps[..|steps| - 1]) + if (step.i, step.r) in s.pending && step.i < |s.sent| then 1 else 0
  }

  lemma NextHandles(g: Setting, s: Air, step: Step)
    requires DeliveriesOk(g, s)
    ensures |Next(g, s, step).handled|
         == |s.handled| + if (step.i, step.r) in s.pending && step.i < |s.sent| then 1 else 0
  {
  }

  lemma {:induction false} HandledIsCounted(g: Setting, steps: seq<Step>)
    requires Sensible(g)
    ensures Handled(g, steps) == |Run(g, steps).handled|
  {
    if steps != [] {
      HandledIsCounted(g, steps[..|steps| - 1]);
      RunKeepsInv(g, steps[..|steps| - 1]);
      NextHandles(g, Run(g, steps[..|steps| - 1]), steps[|steps| - 1]);
    }
  }

  lemma {:induction false} DistinctBelow(xs: seq<nat>, n: nat)
    requires forall i :: 0 <= i < |xs| ==> xs[i] < n
    requires forall i, j :: 0 <= i < j < |xs| ==> xs[i] != xs[j]
    ensures |xs| <= n
    decreases n
  {
    if xs != [] {
      assert xs[0] < n;
      if i :| 0 <= i < |xs| && xs[i] == n - 1 {
        DistinctBelow(xs[..i] + xs[i + 1..], n - 1);
      } else {
        DistinctBelow(xs, n - 1);
      }
    }
  }

  ghost predicate HaveSenders(s: Air) {
    forall k :: 0 < k < |s.sent| ==> s.sent[k].sender.Some?
  }

  lemma AllHaveSenders(s: Air)
    requires ParentsOk(s)
    ensures HaveSenders(s)
  {
    forall k | 0 < k < |s.sent|
      ensures s.sent[k].sender.Some?
    {
      assert ParentOk(s.sent, s.handled, k);
    }
  }

  // The relays that have transmitted, in order.
  ghost function Senders(s: Air, n: nat): (r: seq<nat>)
    requires n <= |s.sent| && HaveSenders(s)
    ensures n > 0 ==> |r| == n - 1 && forall k :: 0 < k < n ==> r[k - 1] == s.sent[k].sender.value
  {
    if n <= 1 then [] else Senders(s, n - 1) + [s.sent[n - 1].sender.value]
  }

  lemma FewSenders(s: Air, n: nat)
    requires HaveSenders(s) && s.sent != []
    requires forall k :: 0 < k < |s.sent| ==> s.sent[k].sender.value < n
    requires forall i, j :: 0 < i < j < |s.sent| ==> s.sent[i].sender != s.sent[j].sender
    ensures |s.sent| <= n + 1
  {
    var senders := Senders(s, |s.sent|);
    forall i, j | 0 <= i < j < |senders|
      ensures senders[i] != senders[j]
    {
      assert senders[i] == s.sent[i + 1].sender.value && senders[j] == s.sent[j + 1].sender.value;
    }
    forall i | 0 <= i < |senders|
      ensures senders[i] < n
    {
      assert senders[i] == s.sent[i + 1].sender.value;
    }
    DistinctBelow(senders, n);
  }

  lemma FewTransmissions(g: Setting, steps: seq<Step>)
    requires Sensible(g) && Tree(g.net)
    ensures |Run(g, steps).sent| <= |g.net| + 1
  {
    RunKeepsInv(g, steps);
    AllHaveSenders(Run(g, steps));
    var s := Run(g, steps);
    forall k | 0 < k < |s.sent|
      ensures s.sent[k].sender.value < |g.net|
    {
      assert ParentOk(s.sent, s.handled, k) && TxOk(g, s.sent[k]);
    }
    forall i, j | 0 < i < j < |s.sent|
      ensures s.sent[i].sender != s.sent[j].sender
    {
      RelaysOnce(g, steps, i, j);
    }
    FewSenders(s, |g.net|);
  }

  lemma {:induction false} PairsBelow(ds: set<(nat, nat)>, m: nat, n: nat)
    requires forall d :: d in ds ==> d.0 < m && d.1 < n
    ensures |ds| <= m * n
  {
    if m == 0 {
      assert ds == {};
    } else {
      var row := set d | d in ds && d.0 == m - 1;
      var rest := ds - row;
      PairsBelow(rest, m - 1, n);
      RowBelow(row, m - 1, n);
      assert ds == rest + row;
      assert m * n == (m - 1) * n + n;
    }
  }

  lemma {:induction false} RowBelow(row: set<(nat, nat)>, m: nat, n: nat)
    requires forall d :: d in row ==> d.0 == m && d.1 < n
    ensures |row| <= n
  {
    if n == 0 {
      assert row == {};
    } else {
      var rest := row - {(m, n - 1)};
      RowBelow(rest, m, n - 1);
      assert row <= rest + {(m, n - 1)};
      assert |rest + {(m, n - 1)}| <= |rest| + 1;
      assert row == rest || row == rest + {(m, n - 1)};
    }
  }

  // The run ends: with n relays, at most n * (n + 1) deliveries ever happen.
  lemma RunEnds(g: Setting, steps: seq<Step>)
    requires Sensible(g) && Tree(g.net)
    ensures Handled(g, steps) <= (|g.net| + 1) * |g.net|
  {
    RunKeepsInv(g, steps);
    HandledIsCounted(g, steps);
    FewTransmissions(g, steps);
    PairsBelow(Run(g, steps).handled, |g.net| + 1, |g.net|);
  }

  // ------------------------------------------------- nothing lost

  predicate Lossless(steps: seq<Step>) {
    forall k :: 0 <= k < |steps| ==> !steps[k].lost && !steps[k].shed && Transmitted(steps[k].egress)
  }

  // Every handled delivery but an echo has been forwarded.
  ghost predicate AllForwarded(s: Air) {
    forall d :: d in s.handled && d.0 < |s.sent| && s.sent[d.0].sender != Some(d.1) ==>
      exists k :: 0 <= k < |s.sent| && s.sent[k].path == s.sent[d.0].path + [d.1]
  }

  lemma {:induction false} LosslessForwards(g: Setting, steps: seq<Step>)
    requires Sensible(g) && Lossless(steps)
    ensures AllForwarded(Run(g, steps))
  {
    if steps != [] {
      var before, step := steps[..|steps| - 1], steps[|steps| - 1];
      LosslessForwards(g, before);
      RunKeepsInv(g, before);
      var s, t := Run(g, before), Run(g, steps);
      if (step.i, step.r) in s.pending {
        OnwardCrosses(g, s.sent[step.i], step);
      }
      assert s.sent <= t.sent;
      forall d | d in t.handled && d.0 < |t.sent| && t.sent[d.0].sender != Some(d.1)
        ensures exists k :: 0 <= k < |t.sent| && t.sent[k].path == t.sent[d.0].path + [d.1]
      {
        if d in s.handled {
          var k :| 0 <= k < |s.sent| && s.sent[k].path == s.sent[d.0].path + [d.1];
          assert t.sent[k].path == t.sent[d.0].path + [d.1];
        } else {
          assert t.sent[|s.sent|].path == t.sent[d.0].path + [d.1];
        }
      }
    }
  }

  lemma PathInit(net: Net, s: Seg, p: seq<RelayId>)
    requires p != [] && IsPath(net, s, p)
    ensures IsPath(net, s, p[..|p| - 1])
    ensures Attached(net, p[|p| - 1], End(net, s, p[..|p| - 1]).value)
  {
  }

  lemma UnsnocPath(net: Net, s: Seg, p: seq<RelayId>) returns (init: seq<RelayId>, r: RelayId)
    requires p != [] && IsPath(net, s, p)
    ensures p == init + [r] && |init| < |p|
    ensures IsPath(net, s, init) && Attached(net, r, End(net, s, init).value)
  {
    PathInit(net, s, p);
    init, r := p[..|p| - 1], p[|p| - 1];
  }

  lemma ForwardedAlong(g: Setting, s: Air, i: nat, r: RelayId) returns (k: nat)
    requires Inv(g, s) && AllForwarded(s) && s.pending == {}
    requires i < |s.sent| && Attached(g.net, r, s.sent[i].seg)
    requires IsPath(g.net, g.origin, s.sent[i].path + [r])
    ensures k < |s.sent| && s.sent[k].path == s.sent[i].path + [r]
    ensures Some(s.sent[k].seg) == End(g.net, g.origin, s.sent[i].path + [r])
  {
    var p, q := s.sent[i].path, s.sent[i].path + [r];
    assert p != [] ==> q[|p| - 1] == p[|p| - 1] && q[|p|] == r;
    assert (i, r) in s.handled;
    k :| 0 <= k < |s.sent| && s.sent[k].path == q;
    assert TxOk(g, s.sent[k]);
  }

  lemma {:induction false} PathIsTravelled(g: Setting, s: Air, p: seq<RelayId>) returns (k: nat)
    requires Inv(g, s) && AllForwarded(s) && s.pending == {}
    requires IsPath(g.net, g.origin, p)
    ensures k < |s.sent| && s.sent[k].path == p
    ensures Some(s.sent[k].seg) == End(g.net, g.origin, p)
    decreases |p|
  {
    if p == [] {
      k := 0;
      assert TxOk(g, s.sent[0]);
    } else {
      var init, r := UnsnocPath(g.net, g.origin, p);
      var i := PathIsTravelled(g, s, init);
      k := ForwardedAlong(g, s, i, r);
    }
  }

  // With no loss and no shedding, when all deliveries are done, every segment that
  // a path joins to the host's has had a transmission - exactly one, in a tree.
  lemma EveryPathIsTravelled(g: Setting, steps: seq<Step>, p: seq<RelayId>) returns (k: nat)
    requires Sensible(g) && Lossless(steps) && Run(g, steps).pending == {}
    requires IsPath(g.net, g.origin, p)
    ensures k < |Run(g, steps).sent| && Run(g, steps).sent[k].path == p
    ensures Some(Run(g, steps).sent[k].seg) == End(g.net, g.origin, p)
  {
    RunKeepsInv(g, steps);
    LosslessForwards(g, steps);
    k := PathIsTravelled(g, Run(g, steps), p);
  }

  lemma ExactlyOncePerSegment(g: Setting, steps: seq<Step>, p: seq<RelayId>)
    requires Sensible(g) && Tree(g.net) && Lossless(steps) && Run(g, steps).pending == {}
    requires IsPath(g.net, g.origin, p)
    ensures exists k :: 0 <= k < |Run(g, steps).sent| && Some(Run(g, steps).sent[k].seg) == End(g.net, g.origin, p)
    ensures forall i, j :: 0 <= i < j < |Run(g, steps).sent| ==> Run(g, steps).sent[i].seg != Run(g, steps).sent[j].seg
  {
    var k := EveryPathIsTravelled(g, steps, p);
    forall i, j | 0 <= i < j < |Run(g, steps).sent|
      ensures Run(g, steps).sent[i].seg != Run(g, steps).sent[j].seg
    {
      AtMostOncePerSegment(g, steps, i, j);
    }
  }

  // ------------------------------------------------- every grown tree is a Tree

  // Segment n is new to the net and is joined to s by relay |net|.
  predicate IsLeaf(net: Net, e: (Seg, Seg), s: Seg, n: Seg) {
    && (e == (s, n) || e == (n, s)) && s != n
    && forall r :: 0 <= r < |net| ==> net[r].0 != n && net[r].1 != n
  }

  lemma EmptyNetIsTree()
    ensures Tree([])
  {
    forall s: Seg, p | IsPath([], s, p)
      ensures p == []
    {
      if p != [] { PathInit([], s, p); }
    }
  }

  lemma {:induction false} EndCons(net: Net, u: Seg, p: seq<RelayId>)
    requires p != [] && IsPath(net, u, p)
    ensures Attached(net, p[0], u)
    ensures IsPath(net, Across(net, p[0], u), p[1..])
    ensures End(net, Across(net, p[0], u), p[1..]) == End(net, u, p)
    decreases |p|
  {
    PathInit(net, u, p);
    var init := p[..|p| - 1];
    if init == [] {
      assert End(net, u, init) == Some(u);
    } else {
      EndCons(net, u, init);
      assert init[1..] == p[1..][..|p[1..]| - 1];
    }
  }

  // Without the new relay, a path of the grown net is a path of the old one.
  lemma {:induction false} OldPath(net: Net, e: (Seg, Seg), u: Seg, p: seq<RelayId>)
    requires IsPath(net + [e], u, p) && |net| !in p
    ensures IsPath(net, u, p) && End(net, u, p) == End(net + [e], u, p)
    decreases |p|
  {
    if p != [] {
      PathInit(net + [e], u, p);
      OldPath(net, e, u, p[..|p| - 1]);
      assert p[|p| - 1] in p;
    }
  }

  // A path that starts elsewhere enters the leaf only with its last step.
  lemma {:induction false} LeafOnlyLast(net: Net, e: (Seg, Seg), s: Seg, n: Seg, u: Seg, p: seq<RelayId>)
    requires IsLeaf(net, e, s, n) && IsPath(net + [e], u, p) && u != n
    ensures |net| !in p ==> End(net + [e], u, p) != Some(n)
    ensures |net| in p ==>
      && p[|p| - 1] == |net| && End(net + [e], u, p) == Some(n)
      && |net| !in p[..|p| - 1] && End(net + [e], u, p[..|p| - 1]) == Some(s)
    decreases |p|
  {
    if p != [] {
      var init, r := p[..|p| - 1], p[|p| - 1];
      PathInit(net + [e], u, p);
      LeafOnlyLast(net, e, s, n, u, init);
      assert p == init + [r];
    }
  }

  lemma LeafPathsAgree(net: Net, e: (Seg, Seg), s: Seg, n: Seg, u: Seg, p: seq<RelayId>, q: seq<RelayId>)
    requires Tree(net) && IsLeaf(net, e, s, n) && u != n
    requires IsPath(net + [e], u, p) && IsPath(net + [e], u, q) && End(net + [e], u, p) == End(net + [e], u, q)
    ensures p == q
  {
    LeafOnlyLast(net, e, s, n, u, p);
    LeafOnlyLast(net, e, s, n, u, q);
    if |net| in p {
      PathInit(net + [e], u, p);
      PathInit(net + [e], u, q);
      OldPath(net, e, u, p[..|p| - 1]);
      OldPath(net, e, u, q[..|q| - 1]);
      assert p == p[..|p| - 1] + [|net|] && q == q[..|q| - 1] + [|net|];
    } else {
      OldPath(net, e, u, p);
      OldPath(net, e, u, q);
    }
  }

  // From the leaf, the only way is over the new relay, and there is no way back.
  lemma FromLeaf(net: Net, e: (Seg, Seg), s: Seg, n: Seg, p: seq<RelayId>)
    requires Tree(net) && IsLeaf(net, e, s, n) && IsPath(net + [e], n, p) && p != []
    ensures p[0] == |net| && IsPath(net + [e], s, p[1..]) && End(net + [e], s, p[1..]) == End(net + [e], n, p)
    ensures End(net + [e], n, p) != Some(n)
  {
    EndCons(net + [e], n, p);
    LeafOnlyLast(net, e, s, n, s, p[1..]);
    if |net| in p[1..] {
      var mid := p[1..][..|p| - 2];
      PathInit(net + [e], s, p[1..]);
      OldPath(net, e, s, mid);
      assert IsPath(net, s, []);
    }
  }

  // Attaching a new segment with a new relay keeps a tree a tree.
  lemma AttachingKeepsTree(net: Net, e: (Seg, Seg), s: Seg, n: Seg)
    requires Tree(net) && IsLeaf(net, e, s, n)
    ensures Tree(net + [e])
  {
    var big := net + [e];
    forall u: Seg, p, q | IsPath(big, u, p) && IsPath(big, u, q) && End(big, u, p) == End(big, u, q)
      ensures p == q
    {
      if u != n {
        LeafPathsAgree(net, e, s, n, u, p, q);
      } else if p == [] || q == [] {
        if p != [] { FromLeaf(net, e, s, n, p); }
        if q != [] { FromLeaf(net, e, s, n, q); }
      } else {
        FromLeaf(net, e, s, n, p);
        FromLeaf(net, e, s, n, q);
        LeafPathsAgree(net, e, s, n, s, p[1..], q[1..]);
      }
    }
  }
}
