// The bit-level subnet tests of main/net_validate.c, against address ranges and
// prefix lengths (RFC 4632, section 3.1).
module Subnet {
  type Addr = bv32 // host byte order

  const ONES: Addr := 0xFFFF_FFFF

  // What inet_aton made of a text field; a gateway field may be absent altogether.
  datatype Field = Unparsable | Parsed(addr: Addr)
  datatype Gateway = NoGateway | Given(field: Field)

  datatype Verdict =
    | Accepted(ip: Addr, mask: Addr)
    | BadIp | BadMask | ZeroMask | NotContiguous | NetworkAddress | BroadcastAddress | BadGateway | GatewayOutside

  predicate Contiguous(mask: Addr) {
    !mask & (!mask + 1) == 0
  }

  predicate NoHostBits(ip: Addr, mask: Addr) {
    ip & !mask == 0
  }

  predicate AllHostBits(ip: Addr, mask: Addr) {
    ip & !mask == !mask
  }

  predicate SameNetwork(x: Addr, ip: Addr, mask: Addr) {
    x & mask == ip & mask
  }

  // validate_host_subnet, after inet_aton has parsed (or failed to parse) each field.
  function ValidateHostSubnet(ip: Field, mask: Field, gateway: Gateway): Verdict {
    if ip.Unparsable? then BadIp
    else if mask.Unparsable? then BadMask
    else if mask.addr == 0 then ZeroMask
    else if !Contiguous(mask.addr) then NotContiguous
    else if NoHostBits(ip.addr, mask.addr) then NetworkAddress
    else if AllHostBits(ip.addr, mask.addr) then BroadcastAddress
    else if gateway.Given? && (gateway.field.Unparsable? || gateway.field.addr == 0) then BadGateway
    else if gateway.Given? && !SameNetwork(gateway.field.addr, ip.addr, mask.addr) then GatewayOutside
    else Accepted(ip.addr, mask.addr)
  }

  predicate SubnetsOverlap(ipA: Addr, maskA: Addr, ipB: Addr, maskB: Addr) {
    var netA := ipA & maskA;
    var netB := ipB & maskB;
    netA & maskB == netB || netB & maskA == netA
  }

  // ------------------------------------------------- reference: ranges

  // The mask of prefix length p.
  function PrefixMask(p: nat): Addr
    requires p <= 32
  {
    if p == 0 then 0 else ONES << (32 - p)
  }

  // The addresses of a subnet are the range from its network address, ip & mask, to
  // its broadcast address, ip | !mask.
  predicate InSubnet(x: Addr, ip: Addr, mask: Addr) {
    ip & mask <= x && x <= ip | !mask
  }

  // ------------------------------------------------- contiguity

  lemma PrefixMaskIsContiguous(p: nat)
    requires p <= 32
    ensures Contiguous(PrefixMask(p))
  {
  }

  // The contiguous masks, spelled out.
  lemma ThirtyThreeMasks(m: Addr)
    requires Contiguous(m)
    ensures
      || m == 0x0000_0000 || m == 0x8000_0000 || m == 0xC000_0000 || m == 0xE000_0000 || m == 0xF000_0000
      || m == 0xF800_0000 || m == 0xFC00_0000 || m == 0xFE00_0000 || m == 0xFF00_0000 || m == 0xFF80_0000
      || m == 0xFFC0_0000 || m == 0xFFE0_0000 || m == 0xFFF0_0000 || m == 0xFFF8_0000 || m == 0xFFFC_0000
      || m == 0xFFFE_0000 || m == 0xFFFF_0000 || m == 0xFFFF_8000 || m == 0xFFFF_C000 || m == 0xFFFF_E000
      || m == 0xFFFF_F000 || m == 0xFFFF_F800 || m == 0xFFFF_FC00 || m == 0xFFFF_FE00 || m == 0xFFFF_FF00
      || m == 0xFFFF_FF80 || m == 0xFFFF_FFC0 || m == 0xFFFF_FFE0 || m == 0xFFFF_FFF0 || m == 0xFFFF_FFF8
      || m == 0xFFFF_FFFC || m == 0xFFFF_FFFE || m == 0xFFFF_FFFF
  {
  }

  lemma ShortPrefixes()
    ensures PrefixMask(0) == 0x0000_0000 && PrefixMask(1) == 0x8000_0000 && PrefixMask(2) == 0xC000_0000
    ensures PrefixMask(3) == 0xE000_0000 && PrefixMask(4) == 0xF000_0000 && PrefixMask(5) == 0xF800_0000
    ensures PrefixMask(6) == 0xFC00_0000 && PrefixMask(7) == 0xFE00_0000 && PrefixMask(8) == 0xFF00_0000
    ensures PrefixMask(9) == 0xFF80_0000 && PrefixMask(10) == 0xFFC0_0000 && PrefixMask(11) == 0xFFE0_0000
    ensures PrefixMask(12) == 0xFFF0_0000 && PrefixMask(13) == 0xFFF8_0000 && PrefixMask(14) == 0xFFFC_0000
    ensures PrefixMask(15) == 0xFFFE_0000 && PrefixMask(16) == 0xFFFF_0000 && PrefixMask(17) == 0xFFFF_8000
  {
  }

  lemma LongPrefixes()
    ensures PrefixMask(18) == 0xFFFF_C000 && PrefixMask(19) == 0xFFFF_E000 && PrefixMask(20) == 0xFFFF_F000
    ensures PrefixMask(21) == 0xFFFF_F800 && PrefixMask(22) == 0xFFFF_FC00 && PrefixMask(23) == 0xFFFF_FE00
    ensures PrefixMask(24) == 0xFFFF_FF00 && PrefixMask(25) == 0xFFFF_FF80 && PrefixMask(26) == 0xFFFF_FFC0
    ensures PrefixMask(27) == 0xFFFF_FFE0 && PrefixMask(28) == 0xFFFF_FFF0 && PrefixMask(29) == 0xFFFF_FFF8
    ensures PrefixMask(30) == 0xFFFF_FFFC && PrefixMask(31) == 0xFFFF_FFFE && PrefixMask(32) == 0xFFFF_FFFF
  {
  }

  lemma FindPrefix(m: Addr) returns (p: nat)
    requires Contiguous(m)
    ensures p <= 32 && m == PrefixMask(p)
  {
    ThirtyThreeMasks(m);
    ShortPrefixes();
    LongPrefixes();
    p :| 0 <= p <= 32 && m == PrefixMask(p);
  }

  // The contiguity test accepts precisely the 33 prefix masks.
  lemma ContiguousExactlyPrefixes(mask: Addr)
    ensures Contiguous(mask) <==> exists p :: 0 <= p <= 32 && mask == PrefixMask(p)
  {
    if Contiguous(mask) {
      var p := FindPrefix(mask);
    }
    if p :| 0 <= p <= 32 && mask == PrefixMask(p) {
      PrefixMaskIsContiguous(p);
    }
  }

  lemma OrKeepsNetwork(x: Addr, m: Addr)
    ensures x | !m == (x & m) | !m
    ensures (x | !m) & m == x & m
    ensures (x & m) & m == x & m
  {
  }

  // For a contiguous mask, sharing the network bits is being in the range.
  lemma MaskIsRange(x: Addr, ip: Addr, mask: Addr)
    requires Contiguous(mask)
    ensures InSubnet(x, ip, mask) <==> SameNetwork(x, ip, mask)
  {
    if SameNetwork(x, ip, mask) {
      NetworkBelow(x, ip, mask);
    }
    if InSubnet(x, ip, mask) {
      RangeSharesNetwork(x, ip, mask);
    }
  }

  lemma NetworkBelow(x: Addr, ip: Addr, m: Addr)
    requires SameNetwork(x, ip, m)
    ensures InSubnet(x, ip, m)
  {
  }

  lemma RangeSharesNetwork(x: Addr, ip: Addr, m: Addr)
    requires Contiguous(m) && InSubnet(x, ip, m)
    ensures SameNetwork(x, ip, m)
  {
  }

  // ------------------------------------------------- overlap

  // Of two prefix masks, one refines the other.
  lemma MasksNest(a: Addr, b: Addr)
    requires Contiguous(a) && Contiguous(b)
    ensures a & b == a || a & b == b
  {
  }

  lemma Narrow(x: Addr, a: Addr, b: Addr)
    requires a & b == a
    ensures (x & a) & b == x & a
    ensures (x & b) & a == x & a
  {
  }

  lemma SameNet(x: Addr, y: Addr, a: Addr)
    requires x == y
    ensures x & a == y & a
  {
  }

  lemma CoarserDecides(ipA: Addr, a: Addr, ipB: Addr, b: Addr)
    requires a & b == a
    ensures SubnetsOverlap(ipA, a, ipB, b) <==> SameNetwork(ipB, ipA, a)
  {
    Narrow(ipA, a, b);
    Narrow(ipB, a, b);
    OrKeepsNetwork(ipA, a);
    if ipA & a == ipB & b {
      SameNet(ipA & a, ipB & b, a);
    }
  }

  // The test is exact: two subnets overlap if and only if they share an address.
  lemma OverlapExactly(ipA: Addr, maskA: Addr, ipB: Addr, maskB: Addr)
    requires Contiguous(maskA) && Contiguous(maskB)
    ensures SubnetsOverlap(ipA, maskA, ipB, maskB)
      <==> exists x :: InSubnet(x, ipA, maskA) && InSubnet(x, ipB, maskB)
  {
    MasksNest(maskA, maskB);
    if maskA & maskB == maskA {
      OverlapWhenCoarser(ipA, maskA, ipB, maskB);
    } else {
      OverlapWhenCoarser(ipB, maskB, ipA, maskA);
    }
  }

  lemma NetworksMeet(x: Addr, ipA: Addr, a: Addr, ipB: Addr, b: Addr)
    requires a & b == a && SameNetwork(x, ipA, a) && SameNetwork(x, ipB, b)
    ensures SameNetwork(ipB, ipA, a)
  {
    Narrow(x, a, b);
    Narrow(ipB, a, b);
  }

  lemma OverlapWhenCoarser(ipA: Addr, a: Addr, ipB: Addr, b: Addr)
    requires Contiguous(a) && Contiguous(b) && a & b == a
    ensures SubnetsOverlap(ipA, a, ipB, b) <==> exists x :: InSubnet(x, ipA, a) && InSubnet(x, ipB, b)
  {
    CoarserDecides(ipA, a, ipB, b);
    if SameNetwork(ipB, ipA, a) {
      NetworkBelow(ipB, ipA, a);
      NetworkBelow(ipB, ipB, b);
    }
    if x :| InSubnet(x, ipA, a) && InSubnet(x, ipB, b) {
      RangeSharesNetwork(x, ipA, a);
      RangeSharesNetwork(x, ipB, b);
      NetworksMeet(x, ipA, a, ipB, b);
    }
  }

  // ------------------------------------------------- validation

  lemma HostBitsPutAbove(ip: Addr, mask: Addr)
    requires !NoHostBits(ip, mask)
    ensures ip & mask < ip
  {
  }

  lemma AboveHasHostBits(ip: Addr, mask: Addr)
    requires ip & mask < ip
    ensures !NoHostBits(ip, mask)
  {
  }

  lemma OthersAreBelow(ip: Addr, mask: Addr)
    requires !AllHostBits(ip, mask)
    ensures ip < ip | !mask
  {
    var broadcast := ComplementAbove(ip, mask);
    ComplementReverses(ip, broadcast);
  }

  lemma ComplementAbove(ip: Addr, mask: Addr) returns (broadcast: Addr)
    requires !AllHostBits(ip, mask)
    ensures broadcast == ip | !mask
    ensures !broadcast < !ip
  {
    broadcast := ip | !mask;
  }

  lemma ComplementReverses(x: Addr, y: Addr)
    requires !y < !x
    ensures x < y
  {
  }

  lemma BelowMissesBits(ip: Addr, mask: Addr)
    requires ip < ip | !mask
    ensures !AllHostBits(ip, mask)
  {
  }

  // A subnet with an address strictly inside has a prefix length of 1 to 30.
  lemma RoomForHosts(ip: Addr, mask: Addr, p: nat)
    requires p <= 32 && mask == PrefixMask(p) && mask != 0
    requires !NoHostBits(ip, mask) && !AllHostBits(ip, mask)
    ensures 1 <= p <= 30
  {
    if p == 31 { OneHostBit(ip); }
  }

  lemma OneHostBit(ip: Addr)
    ensures ip & !(ONES << 1) == 0 || ip & !(ONES << 1) == !(ONES << 1)
  {
  }

  lemma PrefixIsNotZero(p: nat)
    requires 1 <= p <= 30
    ensures PrefixMask(p) != 0
  {
  }

  ghost predicate HostUsable(ip: Addr, mask: Addr) {
    && (exists p :: 1 <= p <= 30 && mask == PrefixMask(p))
    && ip & mask < ip && ip < ip | !mask
  }

  predicate GatewayUsable(ip: Addr, mask: Addr, gateway: Gateway) {
    gateway.Given? ==>
      gateway.field.Parsed? && gateway.field.addr != 0 && InSubnet(gateway.field.addr, ip, mask)
  }

  lemma PrefixOfUsable(ip: Addr, mask: Addr)
    requires mask != 0 && Contiguous(mask) && !NoHostBits(ip, mask) && !AllHostBits(ip, mask)
    ensures exists p :: 1 <= p <= 30 && mask == PrefixMask(p)
    ensures ip & mask < ip
    ensures ip < ip | !mask
  {
    HostBitsPutAbove(ip, mask);
    OthersAreBelow(ip, mask);
    ContiguousExactlyPrefixes(mask);
    var p :| 0 <= p <= 32 && mask == PrefixMask(p);
    RoomForHosts(ip, mask, p);
  }

  lemma UsableHasPrefix(ip: Addr, mask: Addr, p: nat)
    requires 1 <= p <= 30 && mask == PrefixMask(p) && ip & mask < ip && ip < ip | !mask
    ensures mask != 0 && Contiguous(mask) && !NoHostBits(ip, mask) && !AllHostBits(ip, mask)
  {
    PrefixIsNotZero(p);
    PrefixMaskIsContiguous(p);
    AboveHasHostBits(ip, mask);
    BelowMissesBits(ip, mask);
  }

  lemma GatewayShares(ip: Addr, mask: Addr, gateway: Gateway)
    requires Contiguous(mask) && GatewayUsable(ip, mask, gateway)
    ensures gateway.Given? ==>
              gateway.field.Parsed? && gateway.field.addr != 0 && SameNetwork(gateway.field.addr, ip, mask)
  {
    if gateway.Given? {
      RangeSharesNetwork(gateway.field.addr, ip, mask);
    }
  }

  lemma AcceptedShares(ip: Addr, mask: Addr, gateway: Gateway) returns (g: Addr)
    requires ValidateHostSubnet(Parsed(ip), Parsed(mask), gateway).Accepted? && gateway.Given?
    ensures gateway.field == Parsed(g) && g != 0
    ensures SameNetwork(g, ip, mask)
  {
    g := gateway.field.addr;
  }

  lemma SharesIsUsable(ip: Addr, mask: Addr, g: Addr)
    requires g != 0 && SameNetwork(g, ip, mask)
    ensures GatewayUsable(ip, mask, Given(Parsed(g)))
  {
    NetworkBelow(g, ip, mask);
  }

  lemma AcceptedGateway(ip: Addr, mask: Addr, gateway: Gateway)
    requires ValidateHostSubnet(Parsed(ip), Parsed(mask), gateway).Accepted?
    ensures GatewayUsable(ip, mask, gateway)
  {
    if gateway.Given? {
      var g := AcceptedShares(ip, mask, gateway);
      SharesIsUsable(ip, mask, g);
    }
  }

  lemma AcceptedHost(ip: Addr, mask: Addr, gateway: Gateway)
    requires ValidateHostSubnet(Parsed(ip), Parsed(mask), gateway).Accepted?
    ensures HostUsable(ip, mask)
  {
    PrefixOfUsable(ip, mask);
  }

  lemma HostPassesTests(ip: Addr, mask: Addr)
    requires HostUsable(ip, mask)
    ensures mask != 0 && Contiguous(mask) && !NoHostBits(ip, mask) && !AllHostBits(ip, mask)
  {
    var p :| 1 <= p <= 30 && mask == PrefixMask(p);
    UsableHasPrefix(ip, mask, p);
  }

  lemma PassesEveryTest(ip: Addr, mask: Addr, gateway: Gateway)
    requires mask != 0 && Contiguous(mask) && !NoHostBits(ip, mask) && !AllHostBits(ip, mask)
    requires gateway.Given? ==>
               gateway.field.Parsed? && gateway.field.addr != 0 && SameNetwork(gateway.field.addr, ip, mask)
    ensures ValidateHostSubnet(Parsed(ip), Parsed(mask), gateway) == Accepted(ip, mask)
  {
  }

  lemma UsableIsAccepted(ip: Addr, mask: Addr, gateway: Gateway)
    requires HostUsable(ip, mask) && GatewayUsable(ip, mask, gateway)
    ensures ValidateHostSubnet(Parsed(ip), Parsed(mask), gateway) == Accepted(ip, mask)
  {
    HostPassesTests(ip, mask);
    GatewayShares(ip, mask, gateway);
    PassesEveryTest(ip, mask, gateway);
  }

  // A triple is accepted precisely when its mask is a prefix of length 1 to 30, its
  // address lies strictly between network and broadcast address, and its gateway,
  // if the field exists, is a non-zero address of the same subnet.
  lemma AcceptedExactly(ip: Field, mask: Field, gateway: Gateway)
    ensures ValidateHostSubnet(ip, mask, gateway).Accepted? <==>
      ip.Parsed? && mask.Parsed? && HostUsable(ip.addr, mask.addr) && GatewayUsable(ip.addr, mask.addr, gateway)
  {
    if ValidateHostSubnet(ip, mask, gateway).Accepted? {
      AcceptedHost(ip.addr, mask.addr, gateway);
      AcceptedGateway(ip.addr, mask.addr, gateway);
    } else if ip.Parsed? && mask.Parsed? && HostUsable(ip.addr, mask.addr)
              && GatewayUsable(ip.addr, mask.addr, gateway) {
      UsableIsAccepted(ip.addr, mask.addr, gateway);
    }
  }
}
