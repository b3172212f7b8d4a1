/**
 The nftables packet tracer (ebpf/nftrace-trace.c).

 A record is reserved and cleared, the handlers fill it step by step while setting the error flag,
 and the ring buffer guard submits it unless the flag says failed. Pointers are 64-bit words with
 wrap-around, and the bounds checks are the comparisons the program makes on them.
 */
module NfTrace {
  import opened Common
  import RingBuf

  type U16 = n: int | 0 <= n < TWO_16
  type U32 = n: int | 0 <= n < TWO_32
  type Address = n: int | 0 <= n < TWO_64
  type Memory = Address -> Octet

  const ETH_P_IP: U16 := 0x0800
  const ETH_P_IPV6: U16 := 0x86DD
  const NFPROTO_IPV4: nat := 2
  const NFPROTO_IPV6: nat := 10
  const IPPROTO_ICMP: Octet := 1
  const IPPROTO_TCP: Octet := 6
  const IPPROTO_UDP: Octet := 17
  const IPPROTO_ICMPV6: Octet := 58
  const MAC_HEADER_UNSET: U16 := 0xffff

  // The part of an sk_buff that the tracer reads: `end` and the two headers are offsets from `head`.
  datatype Skb = Skb(head: Address, end: U32, macHeader: U16, networkHeader: U16)

  // The IPv4 addresses of the socket behind the packet.
  datatype Sock = Sock(rcvSaddr: U32, daddr: U32)

  // The part of trace_info that the packet decides.
  datatype Info = Info(srcMac: seq<Octet>, destMac: seq<Octet>, protocol: Octet, srcIp: U32, destIp: U32,
                       srcIp6: seq<Octet>, destIp6: seq<Octet>, len: U16, srcPort: U16, destPort: U16,
                       icmpType: Octet, icmpCode: Octet)

  const ZEROED := Info([], [], 0, 0, 0, [], [], 0, 0, 0, 0, 0)

  function Ptr(base: Address, offset: nat): Address {
    (base + offset) % TWO_64
  }

  function EndOf(skb: Skb): Address { Ptr(skb.head, skb.end) }

  function NetworkHeader(skb: Skb): Address { Ptr(skb.head, skb.networkHeader) }

  function MacHeader(skb: Skb): Address { Ptr(skb.head, skb.macHeader) }

  // A little-endian load, and the swap that follows it.
  function Load16(mem: Memory, p: Address): U16 {
    mem(p) + 256 * mem(Ptr(p, 1))
  }

  function Load32(mem: Memory, p: Address): U32 {
    Load16(mem, p) + TWO_16 * Load16(mem, Ptr(p, 2))
  }

  function Ntohs(x: U16): U16 {
    x % 256 * 256 + x / 256
  }

  function Ntohl(x: U32): U32 {
    Ntohs(x % TWO_16) * TWO_16 + Ntohs(x / TWO_16)
  }

  function Bytes(mem: Memory, p: Address, n: nat): (s: seq<Octet>)
    ensures |s| == n
  {
    if n == 0 then [] else Bytes(mem, p, n - 1) + [mem(Ptr(p, n - 1))]
  }

  function Ihl(mem: Memory, skb: Skb): nat { mem(NetworkHeader(skb)) % 16 }

  function EtherType(mem: Memory, skb: Skb): U16 { Ntohs(Load16(mem, Ptr(MacHeader(skb), 12))) }

  predicate IsIp(mem: Memory, skb: Skb) {
    EtherType(mem, skb) == ETH_P_IP || EtherType(mem, skb) == ETH_P_IPV6
  }

  // The size of a transport header that is handled for IPv4, and for IPv6.
  function Size4(protocol: Octet): Option<nat> {
    if protocol == IPPROTO_TCP then Some(20)
    else if protocol == IPPROTO_UDP || protocol == IPPROTO_ICMP then Some(8)
    else None
  }

  function Size6(protocol: Octet): Option<nat> {
    if protocol == IPPROTO_TCP then Some(20)
    else if protocol == IPPROTO_UDP || protocol == IPPROTO_ICMPV6 then Some(8)
    else None
  }

  // Where the tracer looks for the transport header of an IPv4 packet, from its IP header.
  function Transport4(mem: Memory, skb: Skb, protocol: Octet): nat {
    if protocol == IPPROTO_ICMP then 20 else Ihl(mem, skb) * 4
  }

  function Protocol4(mem: Memory, skb: Skb): Octet { mem(Ptr(NetworkHeader(skb), 9)) }

  function Protocol6(mem: Memory, skb: Skb): Octet { mem(Ptr(NetworkHeader(skb), 6)) }

  // The program's bounds check on a header.
  predicate Passes(skb: Skb, header: Address, size: nat) {
    Ptr(header, size) <= EndOf(skb)
  }

  predicate Whole4(mem: Memory, skb: Skb) {
    var protocol := Protocol4(mem, skb);
    && Passes(skb, NetworkHeader(skb), 20)
    && Size4(protocol).Some?
    && Passes(skb, Ptr(NetworkHeader(skb), Transport4(mem, skb, protocol)), Size4(protocol).value)
  }

  predicate Whole6(mem: Memory, skb: Skb) {
    && Passes(skb, NetworkHeader(skb), 40)
    && Size6(Protocol6(mem, skb)).Some?
    && Passes(skb, Ptr(NetworkHeader(skb), 40), Size6(Protocol6(mem, skb)).value)
  }

  // What the transport header adds to the record.
  function WithTransport(info: Info, mem: Memory, p: Address, icmp: bool): Info {
    if icmp then info.(icmpCode := Ntohs(mem(Ptr(p, 1))) % 256, icmpType := Ntohs(mem(p)) % 256)
    else info.(srcPort := Ntohs(Load16(mem, p)), destPort := Ntohs(Load16(mem, Ptr(p, 2))))
  }

  function Info4(info: Info, mem: Memory, skb: Skb): Info {
    var iph, protocol := NetworkHeader(skb), Protocol4(mem, skb);
    WithTransport(
      info.(protocol := protocol, srcIp := Ntohl(Load32(mem, Ptr(iph, 12))), destIp := Ntohl(Load32(mem, Ptr(iph, 16))),
            len := Ntohs(Load16(mem, Ptr(iph, 2)))),
      mem, Ptr(iph, Transport4(mem, skb, protocol)), protocol == IPPROTO_ICMP)
  }

  function Info6(info: Info, mem: Memory, skb: Skb): Info {
    var ip6h, protocol := NetworkHeader(skb), Protocol6(mem, skb);
    WithTransport(
      info.(protocol := protocol, srcIp6 := Bytes(mem, Ptr(ip6h, 8), 16), destIp6 := Bytes(mem, Ptr(ip6h, 24), 16),
            len := Ntohs(Load16(mem, Ptr(ip6h, 4)))),
      mem, Ptr(ip6h, 40), protocol == IPPROTO_ICMPV6)
  }

  predicate Accepted(mem: Memory, skb: Skb, sk: Sock, pf: nat) {
    && skb.head != 0 && skb.head < EndOf(skb)
    && skb.macHeader != MAC_HEADER_UNSET
    && Passes(skb, MacHeader(skb), 14)
    && (IsIp(mem, skb) ==>
          && sk.rcvSaddr != 0 && sk.daddr != 0
          && (pf == NFPROTO_IPV4 ==> Whole4(mem, skb))
          && (pf == NFPROTO_IPV6 ==> Whole6(mem, skb)))
  }

  function Extracted(mem: Memory, skb: Skb, pf: nat): Info {
    if !IsIp(mem, skb) then ZEROED
    else
      var macs := ZEROED.(srcMac := Bytes(mem, Ptr(MacHeader(skb), 6), 6), destMac := Bytes(mem, MacHeader(skb), 6));
      if pf == NFPROTO_IPV4 then Info4(macs, mem, skb)
      else if pf == NFPROTO_IPV6 then Info6(macs, mem, skb)
      else macs
  }

  class Trace {
    var info: Info
    var err: RingBuf.Flag

    constructor ()
      ensures info == ZEROED && err == RingBuf.CLEAN_ERR_INIT
    {
      info, err := ZEROED, RingBuf.CLEAN_ERR_INIT;
    }

    // A packet that is not whole only sets the flag; what its record then holds is never submitted.
    method HandleNftIpv4(mem: Memory, skb: Skb)
      modifies this
      ensures err == if Whole4(mem, skb) then old(err) else RingBuf.CLEAN_ERR_FAILED
      ensures Whole4(mem, skb) ==> info == Info4(old(info), mem, skb)
    {
      var end, iph := EndOf(skb), NetworkHeader(skb);
      if Ptr(iph, 20) > end {
        err := RingBuf.CLEAN_ERR_FAILED;
        return;
      }
      info := info.(protocol := mem(Ptr(iph, 9)));
      info := info.(srcIp := Ntohl(Load32(mem, Ptr(iph, 12))));
      info := info.(destIp := Ntohl(Load32(mem, Ptr(iph, 16))));
      info := info.(len := Ntohs(Load16(mem, Ptr(iph, 2))));
      if info.protocol == IPPROTO_TCP {
        var tcph := Ptr(iph, mem(iph) % 16 * 4);
        if Ptr(tcph, 20) > end {
          err := RingBuf.CLEAN_ERR_FAILED;
          return;
        }
        info := info.(srcPort := Ntohs(Load16(mem, tcph)));
        info := info.(destPort := Ntohs(Load16(mem, Ptr(tcph, 2))));
      } else if info.protocol == IPPROTO_UDP {
        var udph := Ptr(iph, mem(iph) % 16 * 4);
        if Ptr(udph, 8) > end {
          err := RingBuf.CLEAN_ERR_FAILED;
          return;
        }
        info := info.(srcPort := Ntohs(Load16(mem, udph)));
        info := info.(destPort := Ntohs(Load16(mem, Ptr(udph, 2))));
      } else if info.protocol == IPPROTO_ICMP {
        var ich := Ptr(iph, 20);
        if Ptr(ich, 8) > end {
          err := RingBuf.CLEAN_ERR_FAILED;
          return;
        }
        info := info.(icmpCode := Ntohs(mem(Ptr(ich, 1))) % 256);
        info := info.(icmpType := Ntohs(mem(ich)) % 256);
      } else {
        err := RingBuf.CLEAN_ERR_FAILED;
      }
    }

    method HandleNftIpv6(mem: Memory, skb: Skb)
      modifies this
      ensures err == if Whole6(mem, skb) then old(err) else RingBuf.CLEAN_ERR_FAILED
      ensures Whole6(mem, skb) ==> info == Info6(old(info), mem, skb)
    {
      var end, ip6h := EndOf(skb), NetworkHeader(skb);
      if Ptr(ip6h, 40) > end {
        err := RingBuf.CLEAN_ERR_FAILED;
        return;
      }
      info := info.(protocol := mem(Ptr(ip6h, 6)));
      info := info.(srcIp6 := Bytes(mem, Ptr(ip6h, 8), 16));
      info := info.(destIp6 := Bytes(mem, Ptr(ip6h, 24), 16));
      info := info.(len := Ntohs(Load16(mem, Ptr(ip6h, 4))));
      if info.protocol == IPPROTO_TCP {
        var tcph := Ptr(ip6h, 40);
        if Ptr(tcph, 20) > end {
          err := RingBuf.CLEAN_ERR_FAILED;
          return;
        }
        info := info.(srcPort := Ntohs(Load16(mem, tcph)));
        info := info.(destPort := Ntohs(Load16(mem, Ptr(tcph, 2))));
      } else if info.protocol == IPPROTO_UDP {
        var udph := Ptr(ip6h, 40);
        if Ptr(udph, 8) > end {
          err := RingBuf.CLEAN_ERR_FAILED;
          return;
        }
        info := info.(srcPort := Ntohs(Load16(mem, udph)));
        info := info.(destPort := Ntohs(Load16(mem, Ptr(udph, 2))));
      } else if info.protocol == IPPROTO_ICMPV6 {
        var ic6h := Ptr(ip6h, 40);
        if Ptr(ic6h, 8) > end {
          err := RingBuf.CLEAN_ERR_FAILED;
          return;
        }
        info := info.(icmpCode := Ntohs(mem(Ptr(ic6h, 1))) % 256);
        info := info.(icmpType := Ntohs(mem(ic6h)) % 256);
      } else {
        err := RingBuf.CLEAN_ERR_FAILED;
      }
    }

    method FillTracePktInfo(mem: Memory, skb: Skb, sk: Sock, pf: nat)
      requires info == ZEROED && err == RingBuf.CLEAN_ERR_INIT
      modifies this
      ensures err == if Accepted(mem, skb, sk, pf) then RingBuf.CLEAN_ERR_INIT else RingBuf.CLEAN_ERR_FAILED
      ensures Accepted(mem, skb, sk, pf) ==> info == Extracted(mem, skb, pf)
    {
      hide Whole4, Whole6, Info4, Info6, Ptr, Load16, Ntohs;
      var head, end := skb.head, EndOf(skb);
      if head == 0 || end == 0 || head >= end {
        err := RingBuf.CLEAN_ERR_FAILED;
        return;
      }
      var eth := MacHeader(skb);
      if skb.macHeader != MAC_HEADER_UNSET {
        if Ptr(eth, 14) > end {
          err := RingBuf.CLEAN_ERR_FAILED;
          return;
        }
      } else {
        err := RingBuf.CLEAN_ERR_FAILED;
        return;
      }
      if EtherType(mem, skb) != ETH_P_IPV6 && EtherType(mem, skb) != ETH_P_IP {
        return;
      }
      if sk.rcvSaddr <= 0 || sk.daddr <= 0 {
        err := RingBuf.CLEAN_ERR_FAILED;
        return;
      }
      info := info.(srcMac := Bytes(mem, Ptr(eth, 6), 6));
      info := info.(destMac := Bytes(mem, eth, 6));
      if pf == NFPROTO_IPV4 {
        HandleNftIpv4(mem, skb);
      } else if pf == NFPROTO_IPV6 {
        HandleNftIpv6(mem, skb);
      }
    }
  }

  // kprobe/__nft_trace_packet with its guard; `reserved` is the outcome of the reservation.
  method KprobeNftTracePacket(reserved: bool, mem: Memory, skb: Skb, sk: Sock, pf: nat)
    returns (submitted: Option<Info>)
    ensures submitted == if reserved && Accepted(mem, skb, sk, pf) then Some(Extracted(mem, skb, pf)) else None
  {
    hide Accepted, Extracted;
    if !reserved {
      return None;
    }
    var trace := new Trace();
    trace.FillTracePktInfo(mem, skb, sk, pf);
    if trace.err == RingBuf.CLEAN_ERR_INIT {
      trace.err := RingBuf.CLEAN_ERR_SUCCESS;
    }
    submitted := if trace.err > 0 then None else Some(trace.info);
  }

  /* ---- What the bounds checks mean ---- */

  // A header `offset` bytes from the head lies in the buffer.
  predicate Inside(skb: Skb, offset: nat, size: nat) {
    offset + size <= skb.end
  }

  predicate Wraps(skb: Skb, offset: nat, size: nat) {
    skb.head + offset + size >= TWO_64
  }

  lemma PtrPtr(base: Address, a: nat, b: nat)
    ensures Ptr(Ptr(base, a), b) == Ptr(base, a + b)
  {
  }

  // A check passes exactly when the header lies in the buffer or its end wraps around the address
  // space.
  lemma CheckMeaning(skb: Skb, offset: nat, size: nat)
    requires skb.head < EndOf(skb) && offset + size < TWO_32
    ensures Passes(skb, Ptr(skb.head, offset), size) <==> Inside(skb, offset, size) || Wraps(skb, offset, size)
  {
    PtrPtr(skb.head, offset, size);
    assert EndOf(skb) == skb.head + skb.end;
  }

  // A header that passes its check.
  predicate Fits(skb: Skb, offset: nat, size: nat) {
    Inside(skb, offset, size) || Wraps(skb, offset, size)
  }

  // The offset and size of the transport header that the tracer reads.
  function Transport(mem: Memory, skb: Skb, pf: nat): Option<(nat, nat)> {
    if pf == NFPROTO_IPV4 then
      var protocol := Protocol4(mem, skb);
      if Size4(protocol) == None then None
      else Some((skb.networkHeader + Transport4(mem, skb, protocol), Size4(protocol).value))
    else if Size6(Protocol6(mem, skb)) == None then None
    else Some((skb.networkHeader + 40, Size6(Protocol6(mem, skb)).value))
  }

  function IpSize(pf: nat): nat {
    if pf == NFPROTO_IPV4 then 20 else 40
  }

  // A packet in an IP hook is submitted exactly when its buffer, Ethernet header, socket addresses,
  // IP header and transport header are in order, the last three being asked of IP packets only.
  lemma SubmittedExactlyWhen(mem: Memory, skb: Skb, sk: Sock, pf: nat)
    requires pf == NFPROTO_IPV4 || pf == NFPROTO_IPV6
    ensures
      Accepted(mem, skb, sk, pf) <==>
        && skb.head != 0 && skb.end > 0 && skb.head + skb.end < TWO_64
        && skb.macHeader != MAC_HEADER_UNSET && Fits(skb, skb.macHeader, 14)
        && (IsIp(mem, skb) ==>
              && sk.rcvSaddr != 0 && sk.daddr != 0
              && Fits(skb, skb.networkHeader, IpSize(pf))
              && Transport(mem, skb, pf).Some?
              && Fits(skb, Transport(mem, skb, pf).value.0, Transport(mem, skb, pf).value.1))
  {
    hide IsIp, Passes, Protocol4, Protocol6, Ihl;
    EndMeaning(skb);
    if skb.head < EndOf(skb) {
      CheckMeaning(skb, skb.macHeader, 14);
      CheckMeaning(skb, skb.networkHeader, IpSize(pf));
      var t := Transport(mem, skb, pf);
      if t.Some? {
        IhlBound(mem, skb);
        PtrPtr(skb.head, skb.networkHeader, t.value.0 - skb.networkHeader);
        CheckMeaning(skb, t.value.0, t.value.1);
      }
    }
    hide Ptr, Inside, Wraps;
  }

  lemma EndMeaning(skb: Skb)
    ensures skb.head < EndOf(skb) <==> skb.end > 0 && skb.head + skb.end < TWO_64
  {
  }

  lemma IhlBound(mem: Memory, skb: Skb)
    ensures Ihl(mem, skb) <= 15
  {
  }

  // Of a submitted IP packet all three headers lie in the buffer, whatever its ihl says, exactly if
  // none of them reaches past the end of the address space.
  lemma SubmittedLiesInside(mem: Memory, skb: Skb, sk: Sock, pf: nat)
    requires pf == NFPROTO_IPV4 || pf == NFPROTO_IPV6
    requires IsIp(mem, skb) && Accepted(mem, skb, sk, pf)
    ensures
      && Transport(mem, skb, pf).Some?
      && var t := Transport(mem, skb, pf).value;
         (&& Inside(skb, skb.macHeader, 14)
          && Inside(skb, skb.networkHeader, IpSize(pf))
          && Inside(skb, t.0, t.1))
         <==>
         (&& !Wraps(skb, skb.macHeader, 14)
          && !Wraps(skb, skb.networkHeader, IpSize(pf))
          && !Wraps(skb, t.0, t.1))
  {
    SubmittedExactlyWhen(mem, skb, sk, pf);
    hide Accepted, IsIp, Transport;
  }

  // So they do for every buffer that starts further from the end of the address space than a header
  // can lie from the buffer's head.
  lemma SubmittedLiesInsideBelow(mem: Memory, skb: Skb, sk: Sock, pf: nat)
    requires pf == NFPROTO_IPV4 || pf == NFPROTO_IPV6
    requires IsIp(mem, skb) && Accepted(mem, skb, sk, pf)
    requires skb.head <= TWO_64 - 0x2_0000
    ensures
      && Transport(mem, skb, pf).Some?
      && var t := Transport(mem, skb, pf).value;
         && Inside(skb, skb.macHeader, 14)
         && Inside(skb, skb.networkHeader, IpSize(pf))
         && Inside(skb, t.0, t.1)
  {
    SubmittedLiesInside(mem, skb, sk, pf);
    IhlBound(mem, skb);
    hide Accepted, IsIp, Ihl;
  }

  // A header past the end of the address space does pass: the checks compare wrapped pointers.
  lemma WrappedHeaderIsSubmitted()
    ensures
      var skb := Skb(TWO_64 - 16, 15, 0, 8);
      var mem: Memory := (p: Address) => if p == TWO_64 - 4 then 8 else if p == 1 then 17 else 0;
      && Accepted(mem, skb, Sock(1, 1), NFPROTO_IPV4)
      && IsIp(mem, skb)
      && !Inside(skb, skb.networkHeader, 20)
  {
  }

  /* ---- What a submitted record says ---- */

  // Numbers on the wire are big-endian.
  function Wire16(mem: Memory, p: Address): nat {
    256 * mem(p) + mem(Ptr(p, 1))
  }

  function Wire32(mem: Memory, p: Address): nat {
    TWO_16 * Wire16(mem, p) + Wire16(mem, Ptr(p, 2))
  }

  lemma NtohsOfLoad(mem: Memory, p: Address)
    ensures Ntohs(Load16(mem, p)) == Wire16(mem, p)
  {
    var low: nat, high: nat := mem(p), mem(Ptr(p, 1));
    assert (low + 256 * high) % 256 == low && (low + 256 * high) / 256 == high;
  }

  lemma NtohlOfLoad(mem: Memory, p: Address)
    ensures Ntohl(Load32(mem, p)) == Wire32(mem, p)
  {
    NtohsOfLoad(mem, p);
    NtohsOfLoad(mem, Ptr(p, 2));
    Halves(Load16(mem, p), Load16(mem, Ptr(p, 2)));
    hide Load16, Ntohs, Ptr;
  }

  lemma Halves(low: U16, high: U16)
    ensures (low + TWO_16 * high) % TWO_16 == low && (low + TWO_16 * high) / TWO_16 == high
  {
  }

  // Both octets that an ICMP record takes from its packet are lost: each is swapped as a 16-bit
  // number and then cut to its low octet.
  lemma SwappedOctetIsLost(x: Octet)
    ensures Ntohs(x) % 256 == 0
  {
    assert Ntohs(x) == x * 256;
  }

  // The IPv4 headers that must fit, read from memory: version and length first, the protocol at octet 9
  // (section 3.1 of RFC 791); TCP, UDP and ICMP headers of 20, 8 and 8 octets.
  predicate Ipv4Headers(mem: Memory, skb: Skb) {
    var ip: nat := skb.networkHeader;
    var protocol := mem(Ptr(skb.head, ip + 9));
    && Fits(skb, ip, 20)
    && protocol in {6, 17, 1}
    && Fits(skb, ip + if protocol == 1 then 20 else 4 * (mem(Ptr(skb.head, ip)) % 16), if protocol == 6 then 20 else 8)
  }

  // The next header at octet 6 of 40 (section 3 of RFC 8200); TCP, UDP and ICMPv6.
  predicate Ipv6Headers(mem: Memory, skb: Skb) {
    var ip: nat := skb.networkHeader;
    var protocol := mem(Ptr(skb.head, ip + 6));
    Fits(skb, ip, 40) && protocol in {6, 17, 58} && Fits(skb, ip + 40, if protocol == 6 then 20 else 8)
  }

  // The ethertype is the big-endian number behind the two Ethernet addresses.
  lemma EtherTypeOnTheWire(mem: Memory, skb: Skb)
    ensures EtherType(mem, skb) == Wire16(mem, Ptr(skb.head, skb.macHeader + 12))
    ensures IsIp(mem, skb) <==> Wire16(mem, Ptr(skb.head, skb.macHeader + 12)) in {0x0800, 0x86DD}
  {
    NtohsOfLoad(mem, Ptr(MacHeader(skb), 12));
    PtrPtr(skb.head, skb.macHeader, 12);
    hide Ntohs, Load16, Ptr, Wire16;
  }

  // When a packet is submitted, for every hook family, in terms of memory alone.
  lemma SubmittedOnTheWire(mem: Memory, skb: Skb, sk: Sock, pf: nat)
    ensures
      Accepted(mem, skb, sk, pf) <==>
        && skb.head != 0 && skb.end > 0 && skb.head + skb.end < TWO_64
        && skb.macHeader != 0xffff && Fits(skb, skb.macHeader, 14)
        && (Wire16(mem, Ptr(skb.head, skb.macHeader + 12)) in {0x0800, 0x86DD} ==>
              && sk.rcvSaddr != 0 && sk.daddr != 0
              && (pf == 2 ==> Ipv4Headers(mem, skb))
              && (pf == 10 ==> Ipv6Headers(mem, skb)))
  {
    EtherTypeOnTheWire(mem, skb);
    if pf == NFPROTO_IPV4 || pf == NFPROTO_IPV6 {
      SubmittedExactlyWhen(mem, skb, sk, pf);
      PtrPtr(skb.head, skb.networkHeader, 9);
      PtrPtr(skb.head, skb.networkHeader, 6);
      hide Accepted, Fits, IsIp, Wire16, Ptr;
    } else {
      EndMeaning(skb);
      if skb.head < EndOf(skb) {
        CheckMeaning(skb, skb.macHeader, 14);
      }
      hide IsIp, Wire16, Passes, Whole4, Whole6, Inside, Wraps, Ptr;
    }
  }

  // A submitted IPv4 record holds the fields of the packet's IP header (section 3.1 of RFC 791) and
  // the ports of its TCP or UDP header, for every length of the IP header; of ICMP it holds neither
  // type nor code.
  lemma Ipv4RecordMeaning(mem: Memory, skb: Skb)
    requires IsIp(mem, skb)
    ensures
      var iph, r := NetworkHeader(skb), Extracted(mem, skb, NFPROTO_IPV4);
      && r.protocol == mem(Ptr(iph, 9))
      && r.len == Wire16(mem, Ptr(iph, 2))
      && r.srcIp == Wire32(mem, Ptr(iph, 12))
      && r.destIp == Wire32(mem, Ptr(iph, 16))
      && (r.protocol != IPPROTO_ICMP ==>
            var l4 := Ptr(iph, mem(iph) % 16 * 4);
            r.srcPort == Wire16(mem, l4) && r.destPort == Wire16(mem, Ptr(l4, 2)))
      && r.icmpType == 0 && r.icmpCode == 0
  {
    var iph := NetworkHeader(skb);
    NtohsOfLoad(mem, Ptr(iph, 2));
    NtohlOfLoad(mem, Ptr(iph, 12));
    NtohlOfLoad(mem, Ptr(iph, 16));
    var l4 := Ptr(iph, Transport4(mem, skb, Protocol4(mem, skb)));
    NtohsOfLoad(mem, l4);
    NtohsOfLoad(mem, Ptr(l4, 2));
    SwappedOctetIsLost(mem(l4));
    SwappedOctetIsLost(mem(Ptr(l4, 1)));
    hide Load16, Load32, Ntohs, Ntohl, Ptr, Wire16, Wire32, IsIp, Bytes;
  }

  lemma Ipv6RecordMeaning(mem: Memory, skb: Skb)
    requires IsIp(mem, skb)
    ensures
      var ip6h, r := NetworkHeader(skb), Extracted(mem, skb, NFPROTO_IPV6);
      && r.protocol == mem(Ptr(ip6h, 6))
      && r.len == Wire16(mem, Ptr(ip6h, 4))
      && r.srcIp6 == Bytes(mem, Ptr(ip6h, 8), 16)
      && r.destIp6 == Bytes(mem, Ptr(ip6h, 24), 16)
      && (r.protocol != IPPROTO_ICMPV6 ==>
            var l4 := Ptr(ip6h, 40);
            r.srcPort == Wire16(mem, l4) && r.destPort == Wire16(mem, Ptr(l4, 2)))
      && r.icmpType == 0 && r.icmpCode == 0
  {
    var ip6h := NetworkHeader(skb);
    NtohsOfLoad(mem, Ptr(ip6h, 4));
    var l4 := Ptr(ip6h, 40);
    NtohsOfLoad(mem, l4);
    NtohsOfLoad(mem, Ptr(l4, 2));
    SwappedOctetIsLost(mem(l4));
    SwappedOctetIsLost(mem(Ptr(l4, 1)));
    hide Load16, Ntohs, Ptr, Wire16, IsIp, Bytes;
  }

  // The record of any IP packet holds the two addresses with which its Ethernet header begins, the
  // destination first; in another hook than an IP one it holds nothing more, and of a packet that is
  // not IP it holds nothing at all.
  lemma EthernetRecordMeaning(mem: Memory, skb: Skb, pf: nat)
    ensures
      var r := Extracted(mem, skb, pf);
      && (IsIp(mem, skb) ==> r.destMac + r.srcMac == Bytes(mem, MacHeader(skb), 12))
      && (IsIp(mem, skb) && pf != NFPROTO_IPV4 && pf != NFPROTO_IPV6 ==>
            r == ZEROED.(srcMac := r.srcMac, destMac := r.destMac))
      && (!IsIp(mem, skb) ==> r == ZEROED)
  {
    BytesSplit(mem, MacHeader(skb), 6, 6);
    hide IsIp, Bytes, Ptr, Load16, Ntohs;
  }

  lemma {:induction false} BytesSplit(mem: Memory, p: Address, n: nat, k: nat)
    ensures Bytes(mem, p, n + k) == Bytes(mem, p, n) + Bytes(mem, Ptr(p, n), k)
    decreases k
  {
    if k > 0 {
      BytesSplit(mem, p, n, k - 1);
      PtrPtr(p, n, k - 1);
    }
  }

  // So the record's ICMP type and code are the packet's exactly if these are 0.
  lemma IcmpKeptExactlyIfZero(mem: Memory, skb: Skb)
    requires IsIp(mem, skb) && Protocol4(mem, skb) == IPPROTO_ICMP
    ensures
      var ich, r := Ptr(NetworkHeader(skb), 20), Extracted(mem, skb, NFPROTO_IPV4);
      && (r.icmpType == mem(ich) <==> mem(ich) == 0)
      && (r.icmpCode == mem(Ptr(ich, 1)) <==> mem(Ptr(ich, 1)) == 0)
  {
    Ipv4RecordMeaning(mem, skb);
    hide Extracted, IsIp, Protocol4;
  }

  lemma Icmpv6KeptExactlyIfZero(mem: Memory, skb: Skb)
    requires IsIp(mem, skb) && Protocol6(mem, skb) == IPPROTO_ICMPV6
    ensures
      var ic6h, r := Ptr(NetworkHeader(skb), 40), Extracted(mem, skb, NFPROTO_IPV6);
      && (r.icmpType == mem(ic6h) <==> mem(ic6h) == 0)
      && (r.icmpCode == mem(Ptr(ic6h, 1)) <==> mem(Ptr(ic6h, 1)) == 0)
  {
    Ipv6RecordMeaning(mem, skb);
    hide Extracted, IsIp, Protocol6;
  }

  // Where the transport header is taken from, against where the IP header says that it begins: the
  // ICMP header is looked for behind an IP header without options, so options move it away.
  lemma TransportIsTheHeadersOwn(mem: Memory, skb: Skb)
    requires Transport(mem, skb, NFPROTO_IPV4).Some?
    ensures Transport(mem, skb, NFPROTO_IPV4).value.0 == skb.networkHeader + 4 * Ihl(mem, skb)
            <==> Protocol4(mem, skb) != IPPROTO_ICMP || Ihl(mem, skb) == 5
  {
  }
}
