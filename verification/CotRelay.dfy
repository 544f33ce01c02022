// One CoT relay (main/cot_relay.c): what happens to a received datagram, and what
// the counters say about it.
module CotRelay {
  import opened Options

  type Addr = nat // an IPv4 address; 0 is "none yet"

  const BUFFER := 1500
  const WRAP32 := 0x1_0000_0000
  const WRAP64 := 0x1_0000_0000_0000_0000

  datatype Side = A | B

  function Other(side: Side): Side {
    if side == A then B else A
  }

  // What cot_relay_start fixes: two different interface indices and the group.
  datatype Config = Config(ifA: int, ifB: int, group: Addr)

  datatype Datagram = Datagram(len: nat, src: Addr, dest: Addr, ifindex: Option<int>)

  // The interfaces' own addresses and the heap guard, as they are at that moment.
  datatype Env = Env(addrA: Option<Addr>, addrB: Option<Addr>, shed: bool)

  // What becomes of a datagram handed to send_via.
  datatype Egress = Egress(addr: Option<Addr>, optionOk: bool, sendOk: bool)

  // It leaves the relay.
  predicate Transmitted(e: Egress) {
    e.addr.Some? && e.addr.value != 0 && e.optionOk && e.sendOk
  }

  datatype Verdict =
    | Empty | Oversize | NoPktInfo | WrongDest | OwnEcho | UnknownIf | Shed
    | Forward(arrival: Side)

  predicate IsOwnAddress(env: Env, addr: Addr) {
    || (env.addrA.Some? && env.addrA.value != 0 && env.addrA.value == addr)
    || (env.addrB.Some? && env.addrB.value != 0 && env.addrB.value == addr)
  }

  function Decide(cfg: Config, env: Env, d: Datagram): Verdict {
    if d.len == 0 then Empty
    else if d.len > BUFFER then Oversize
    else if d.ifindex.None? || d.ifindex.value < 0 then NoPktInfo
    else if d.dest != cfg.group then WrongDest
    else if IsOwnAddress(env, d.src) then OwnEcho
    else if d.ifindex.value != cfg.ifA && d.ifindex.value != cfg.ifB then UnknownIf
    else if env.shed then Shed
    else Forward(if d.ifindex.value == cfg.ifA then A else B)
  }

  // The datagram is whole and tells its interface.
  predicate Readable(d: Datagram) {
    0 < d.len <= 1500 && d.ifindex.Some? && d.ifindex.value >= 0
  }

  // It came in on the side, from somebody else, for the group, and nothing is shed.
  predicate Crosses(cfg: Config, env: Env, d: Datagram, side: Side) {
    && Readable(d) && d.dest == cfg.group && !env.shed
    && (d.src != 0 ==> env.addrA != Some(d.src) && env.addrB != Some(d.src))
    && if side == A then d.ifindex == Some(cfg.ifA) else d.ifindex == Some(cfg.ifB) && cfg.ifB != cfg.ifA
  }

  predicate Misdirected(cfg: Config, d: Datagram) {
    Readable(d) && d.dest != cfg.group
  }

  // Exactly the datagrams that cross are forwarded, and exactly the readable ones for
  // another destination are counted as such.
  lemma DecidesExactly(cfg: Config, env: Env, d: Datagram, side: Side)
    ensures Decide(cfg, env, d) == Forward(side) <==> Crosses(cfg, env, d, side)
    ensures Decide(cfg, env, d) == WrongDest <==> Misdirected(cfg, d)
  {
  }

  datatype Counters = Counters(rxPackets: nat, rxBytes: nat, txPackets: nat, txBytes: nat)

  datatype State = State(a: Counters, b: Counters, wrongDest: nat)

  const ZERO := Counters(0, 0, 0, 0)

  function CountRx(c: Counters, len: nat): Counters {
    c.(rxPackets := (c.rxPackets + 1) % WRAP32, rxBytes := (c.rxBytes + len) % WRAP64)
  }

  function CountTx(c: Counters, len: nat, e: Egress): Counters {
    if e.addr.None? || e.addr.value == 0 then c
    else if !e.optionOk || !e.sendOk then c
    else c.(txPackets := (c.txPackets + 1) % WRAP32, txBytes := (c.txBytes + len) % WRAP64)
  }

  datatype Event =
    | Got(d: Datagram, env: Env, egress: Egress)
    | Inject(len: nat, egressA: Egress, egressB: Egress) // cot_relay_inject

  function Next(cfg: Config, s: State, ev: Event): State {
    match ev
    case Inject(len, ea, eb) => s.(a := CountTx(s.a, len, ea), b := CountTx(s.b, len, eb))
    case Got(d, env, egress) =>
      match Decide(cfg, env, d)
      case WrongDest => s.(wrongDest := (s.wrongDest + 1) % WRAP32)
      case Forward(A) => s.(a := CountRx(s.a, d.len), b := CountTx(s.b, d.len, egress))
      case Forward(B) => s.(b := CountRx(s.b, d.len), a := CountTx(s.a, d.len, egress))
      case _ => s
  }

  function Run(cfg: Config, evs: seq<Event>): State {
    if evs == [] then State(ZERO, ZERO, 0)
    else Next(cfg, Run(cfg, evs[..|evs| - 1]), evs[|evs| - 1])
  }

  // The relay as the firmware has it.
  class Relay {
    const cfg: Config
    var countersA: Counters
    var countersB: Counters
    var wrongDestDrops: nat

    ghost function View(): State
      reads this
    {
      State(countersA, countersB, wrongDestDrops)
    }

    constructor (cfg: Config)
      ensures this.cfg == cfg && View() == State(ZERO, ZERO, 0)
    {
      this.cfg := cfg;
      countersA, countersB, wrongDestDrops := ZERO, ZERO, 0;
    }

    method SendVia(side: Side, len: nat, e: Egress) returns (sent: bool)
      modifies this`countersA, this`countersB
      ensures sent == Transmitted(e)
      ensures View() == if side == A then old(View()).(a := CountTx(old(countersA), len, e))
                        else old(View()).(b := CountTx(old(countersB), len, e))
    {
      if e.addr.None? || e.addr.value == 0 {
        return false;
      }
      if !e.optionOk || !e.sendOk {
        return false;
      }
      var c := if side == A then countersA else countersB;
      c := c.(txPackets := (c.txPackets + 1) % WRAP32, txBytes := (c.txBytes + len) % WRAP64);
      if side == A {
        countersA := c;
      } else {
        countersB := c;
      }
      return true;
    }

    // One round of relay_task; the result is the side onto which it transmitted.
    method HandleDatagram(d: Datagram, env: Env, egress: Egress) returns (onto: Option<Side>)
      modifies this
      ensures View() == Next(cfg, old(View()), Got(d, env, egress))
      ensures onto == if !Transmitted(egress) then None
                      else if Crosses(cfg, env, d, A) then Some(B)
                      else if Crosses(cfg, env, d, B) then Some(A)
                      else None
    {
      if d.len == 0 || d.len > BUFFER {
        return None;
      }
      if d.ifindex.None? || d.ifindex.value < 0 {
        return None;
      }
      var arrival := d.ifindex.value;
      if d.dest != cfg.group {
        wrongDestDrops := (wrongDestDrops + 1) % WRAP32;
        return None;
      }
      if IsOwnAddress(env, d.src) {
        return None;
      }
      var forwardTo := None;
      if arrival == cfg.ifA {
        forwardTo := Some(B);
      } else if arrival == cfg.ifB {
        forwardTo := Some(A);
      }
      if forwardTo.None? || env.shed {
        return None;
      }
      if forwardTo.value == B {
        countersA := CountRx(countersA, d.len);
      } else {
        countersB := CountRx(countersB, d.len);
      }
      var sent := SendVia(forwardTo.value, d.len, egress);
      return if sent then forwardTo else None;
    }

    method Inject(len: nat, egressA: Egress, egressB: Egress)
      modifies this
      ensures View() == Next(cfg, old(View()), Event.Inject(len, egressA, egressB))
    {
      var _ := SendVia(A, len, egressA);
      var _ := SendVia(B, len, egressB);
    }
  }

  // ------------------------------------------------- conservation

  // The verdicts on the datagrams of a run.
  function Verdicts(cfg: Config, evs: seq<Event>): multiset<Verdict> {
    if evs == [] then multiset{}
    else
      var ev := evs[|evs| - 1];
      Verdicts(cfg, evs[..|evs| - 1]) + VerdictOf(cfg, ev)
  }

  function Received(evs: seq<Event>): nat {
    if evs == [] then 0 else Received(evs[..|evs| - 1]) + if evs[|evs| - 1].Got? then 1 else 0
  }

  // The datagrams that cross from side `from`, and their bytes.
  function Crossed(cfg: Config, evs: seq<Event>, from: Side): (r: (nat, nat)) {
    if evs == [] then (0, 0)
    else
      var r, one := Crossed(cfg, evs[..|evs| - 1], from), In(cfg, evs[|evs| - 1], from);
      (r.0 + one.0, r.1 + one.1)
  }

  // The datagrams that are readable and not for the group.
  function Astray(cfg: Config, evs: seq<Event>): nat {
    if evs == [] then 0 else Astray(cfg, evs[..|evs| - 1]) + AstrayIn(cfg, evs[|evs| - 1])
  }

  function AstrayIn(cfg: Config, ev: Event): nat {
    if ev.Got? && Misdirected(cfg, ev.d) then 1 else 0
  }

  // Transmissions onto side `onto` that relay a datagram, and their bytes.
  function Relayed(cfg: Config, evs: seq<Event>, onto: Side): (r: (nat, nat)) {
    if evs == [] then (0, 0)
    else
      var ev := evs[|evs| - 1];
      var r := Relayed(cfg, evs[..|evs| - 1], onto);
      if ev.Got? && Crosses(cfg, ev.env, ev.d, Other(onto)) && Transmitted(ev.egress)
      then (r.0 + 1, r.1 + ev.d.len) else r
  }

  // Transmissions onto side `onto` that cot_relay_inject made, and their bytes.
  function Injected(evs: seq<Event>, onto: Side): (r: (nat, nat)) {
    if evs == [] then (0, 0)
    else
      var ev := evs[|evs| - 1];
      var r := Injected(evs[..|evs| - 1], onto);
      if ev.Inject? && Transmitted(if onto == A then ev.egressA else ev.egressB)
      then (r.0 + 1, r.1 + ev.len) else r
  }

  function Of(s: State, side: Side): Counters {
    if side == A then s.a else s.b
  }

  // The verdicts of one event.
  function VerdictOf(cfg: Config, ev: Event): multiset<Verdict> {
    if ev.Got? then multiset{Decide(cfg, ev.env, ev.d)} else multiset{}
  }

  lemma VerdictsAre(cfg: Config, ev: Event, side: Side)
    ensures VerdictOf(cfg, ev)[Forward(side)] == In(cfg, ev, side).0
    ensures VerdictOf(cfg, ev)[WrongDest] == AstrayIn(cfg, ev)
  {
    if ev.Got? {
      DecidesExactly(cfg, ev.env, ev.d, side);
    }
  }

  lemma OneMoreVerdict(cfg: Config, evs: seq<Event>, v: Verdict)
    requires evs != []
    ensures Verdicts(cfg, evs)[v] == Verdicts(cfg, evs[..|evs| - 1])[v] + VerdictOf(cfg, evs[|evs| - 1])[v]
  {
  }

  // Every received datagram has exactly one verdict, and the verdicts are what the
  // datagrams say.
  lemma {:induction false} OneVerdictEach(cfg: Config, evs: seq<Event>, side: Side)
    ensures |Verdicts(cfg, evs)| == Received(evs)
    ensures Verdicts(cfg, evs)[Forward(side)] == Crossed(cfg, evs, side).0
    ensures Verdicts(cfg, evs)[WrongDest] == Astray(cfg, evs)
  {
    if evs != [] {
      OneVerdictEach(cfg, evs[..|evs| - 1], side);
      OneMoreVerdict(cfg, evs, Forward(side));
      OneMoreVerdict(cfg, evs, WrongDest);
      VerdictsAre(cfg, evs[|evs| - 1], side);
    }
  }

  lemma DropStep(cfg: Config, s: State, ev: Event, before: nat)
    requires s.wrongDest == before % WRAP32
    ensures Next(cfg, s, ev).wrongDest == (before + AstrayIn(cfg, ev)) % WRAP32
  {
    var sum := DropCounted(cfg, s, ev);
    WrapsTo(before, s.wrongDest, AstrayIn(cfg, ev), sum);
  }

  lemma DropCounted(cfg: Config, s: State, ev: Event) returns (sum: nat)
    requires s.wrongDest < WRAP32
    ensures sum == Next(cfg, s, ev).wrongDest == (s.wrongDest + AstrayIn(cfg, ev)) % WRAP32
  {
    sum := Next(cfg, s, ev).wrongDest;
    if ev.Got? {
      DecidesExactly(cfg, ev.env, ev.d, A);
    }
  }

  // The drop counter is the number of readable datagrams that were for somebody else.
  lemma {:induction false} DropsAreAstray(cfg: Config, evs: seq<Event>)
    ensures Run(cfg, evs).wrongDest == Astray(cfg, evs) % WRAP32
  {
    if evs != [] {
      var before := evs[..|evs| - 1];
      DropsAreAstray(cfg, before);
      DropStep(cfg, Run(cfg, before), evs[|evs| - 1], Astray(cfg, before));
    }
  }

  lemma Wraps(x: nat, y: nat)
    ensures (x % WRAP32 + y) % WRAP32 == (x + y) % WRAP32
    ensures (x % WRAP64 + y) % WRAP64 == (x + y) % WRAP64
  {
    var q32, q64 := x / WRAP32, x / WRAP64;
    assert x == q32 * WRAP32 + x % WRAP32;
    assert x == q64 * WRAP64 + x % WRAP64;
  }

  // What one event receives on a side for forwarding: datagrams and bytes.
  function In(cfg: Config, ev: Event, side: Side): (nat, nat) {
    if ev.Got? && Crosses(cfg, ev.env, ev.d, side) then (1, ev.d.len) else (0, 0)
  }

  lemma NextRx(cfg: Config, s: State, ev: Event, side: Side)
    ensures Of(s, side).rxPackets < WRAP32 ==>
      Of(Next(cfg, s, ev), side).rxPackets == (Of(s, side).rxPackets + In(cfg, ev, side).0) % WRAP32
    ensures Of(s, side).rxBytes < WRAP64 ==>
      Of(Next(cfg, s, ev), side).rxBytes == (Of(s, side).rxBytes + In(cfg, ev, side).1) % WRAP64
  {
    if ev.Got? {
      DecidesExactly(cfg, ev.env, ev.d, side);
    }
  }

  lemma RxCounted(cfg: Config, s: State, ev: Event, side: Side) returns (kept: nat, sum: nat)
    requires Of(s, side).rxPackets < WRAP32
    ensures kept == Of(s, side).rxPackets && sum == Of(Next(cfg, s, ev), side).rxPackets
    ensures sum == (kept + In(cfg, ev, side).0) % WRAP32
  {
    kept, sum := Of(s, side).rxPackets, Of(Next(cfg, s, ev), side).rxPackets;
    NextRx(cfg, s, ev, side);
  }

  lemma RxStep(cfg: Config, s: State, ev: Event, side: Side, before: nat)
    requires Of(s, side).rxPackets == before % WRAP32
    ensures Of(Next(cfg, s, ev), side).rxPackets == (before + In(cfg, ev, side).0) % WRAP32
  {
    var kept, sum := RxCounted(cfg, s, ev, side);
    WrapsTo(before, kept, In(cfg, ev, side).0, sum);
  }

  lemma WrapsTo(x: nat, kept: nat, y: nat, sum: nat)
    requires kept == x % WRAP32 && sum == (kept + y) % WRAP32
    ensures sum == (x + y) % WRAP32
  {
    Wraps(x, y);
  }

  lemma {:induction false} RxPackets(cfg: Config, evs: seq<Event>, side: Side)
    ensures Of(Run(cfg, evs), side).rxPackets == Crossed(cfg, evs, side).0 % WRAP32
  {
    if evs != [] {
      var before := evs[..|evs| - 1];
      RxPackets(cfg, before, side);
      RxStep(cfg, Run(cfg, before), evs[|evs| - 1], side, Crossed(cfg, before, side).0);
    }
  }

  lemma {:induction false} RxBytes(cfg: Config, evs: seq<Event>, side: Side)
    ensures Of(Run(cfg, evs), side).rxBytes == Crossed(cfg, evs, side).1 % WRAP64
  {
    if evs != [] {
      var before, ev := evs[..|evs| - 1], evs[|evs| - 1];
      RxBytes(cfg, before, side);
      NextRx(cfg, Run(cfg, before), ev, side);
      Wraps(Crossed(cfg, before, side).1, In(cfg, ev, side).1);
    }
  }

  // The rx counters of a side are the datagrams that crossed from it, up to their width.
  lemma RxIsForwarded(cfg: Config, evs: seq<Event>, side: Side)
    ensures Of(Run(cfg, evs), side).rxPackets == Crossed(cfg, evs, side).0 % WRAP32
    ensures Of(Run(cfg, evs), side).rxBytes == Crossed(cfg, evs, side).1 % WRAP64
  {
    RxPackets(cfg, evs, side);
    RxBytes(cfg, evs, side);
  }

  // What one event transmits onto a side: datagrams and bytes.
  function Out(cfg: Config, ev: Event, side: Side): (nat, nat) {
    if ev.Got? && Crosses(cfg, ev.env, ev.d, Other(side)) && Transmitted(ev.egress) then (1, ev.d.len)
    else if ev.Inject? && Transmitted(if side == A then ev.egressA else ev.egressB) then (1, ev.len)
    else (0, 0)
  }

  lemma NextTx(cfg: Config, s: State, ev: Event, side: Side)
    requires Of(s, side).txPackets < WRAP32 && Of(s, side).txBytes < WRAP64
    ensures Of(Next(cfg, s, ev), side).txPackets == (Of(s, side).txPackets + Out(cfg, ev, side).0) % WRAP32
    ensures Of(Next(cfg, s, ev), side).txBytes == (Of(s, side).txBytes + Out(cfg, ev, side).1) % WRAP64
  {
    if ev.Got? {
      DecidesExactly(cfg, ev.env, ev.d, Other(side));
    }
  }

  lemma TxStep(cfg: Config, s: State, ev: Event, side: Side, packets: nat, bytes: nat)
    requires Of(s, side).txPackets == packets % WRAP32 && Of(s, side).txBytes == bytes % WRAP64
    ensures Of(Next(cfg, s, ev), side).txPackets == (packets + Out(cfg, ev, side).0) % WRAP32
    ensures Of(Next(cfg, s, ev), side).txBytes == (bytes + Out(cfg, ev, side).1) % WRAP64
  {
    NextTx(cfg, s, ev, side);
    Wraps(packets, Out(cfg, ev, side).0);
    Wraps(bytes, Out(cfg, ev, side).1);
  }

  // Transmissions onto a side, and their bytes: what was relayed and what injected.
  function Sent(cfg: Config, evs: seq<Event>, onto: Side): (nat, nat) {
    var r, i := Relayed(cfg, evs, onto), Injected(evs, onto);
    (r.0 + i.0, r.1 + i.1)
  }

  lemma SentMore(cfg: Config, evs: seq<Event>, side: Side)
    requires evs != []
    ensures var before, one := Sent(cfg, evs[..|evs| - 1], side), Out(cfg, evs[|evs| - 1], side);
      Sent(cfg, evs, side) == (before.0 + one.0, before.1 + one.1)
  {
  }

  // The tx counters of a side are what was relayed and injected onto it.
  lemma {:induction false} TxIsRelayedPlusInjected(cfg: Config, evs: seq<Event>, side: Side)
    ensures Of(Run(cfg, evs), side).txPackets == (Relayed(cfg, evs, side).0 + Injected(evs, side).0) % WRAP32
    ensures Of(Run(cfg, evs), side).txBytes == (Relayed(cfg, evs, side).1 + Injected(evs, side).1) % WRAP64
  {
    if evs != [] {
      var before := evs[..|evs| - 1];
      TxIsRelayedPlusInjected(cfg, before, side);
      TxStep(cfg, Run(cfg, before), evs[|evs| - 1], side, Sent(cfg, before, side).0, Sent(cfg, before, side).1);
      SentMore(cfg, evs, side);
    }
  }

  // What is relayed onto one side never exceeds what the other received for it.
  lemma {:induction false} RelayedNeverExceedsReceived(cfg: Config, evs: seq<Event>, side: Side)
    ensures Relayed(cfg, evs, side).0 <= Crossed(cfg, evs, Other(side)).0
    ensures Relayed(cfg, evs, side).1 <= Crossed(cfg, evs, Other(side)).1
  {
    if evs != [] {
      RelayedNeverExceedsReceived(cfg, evs[..|evs| - 1], side);
    }
  }
}
