/**
 Header compaction (ebpf/headers/tc_dump.h).

 `copy_headers` walks a packet by the lengths the packet declares (a VLAN tag, IPv4 options, a
 VXLAN inner frame) and packs the fixed-size headers one after another into a small buffer. The
 theorems say that a reader who steps through the buffer by header size alone recovers exactly
 the headers met on the walk, wherever the walk had to stop.
 */
module TcDump {
  import opened Common

  const ETH_P_IP := 0x0800
  const ETH_P_8021Q := 0x8100
  const ETH_P_8021AD := 0x88A8
  const VXLAN_PORT := 4789
  const IPPROTO_ICMP := 1
  const IPPROTO_TCP := 6
  const IPPROTO_UDP := 17

  const DATA_SIZE: nat := 108

  // The places in the header stack; the inner ones lie inside a VXLAN frame.
  datatype Layer =
    | Eth | Vlan | Ip | Icmp | Tcp | Udp | Vxlan
    | InnerEth | InnerIp | InnerIcmp | InnerTcp | InnerUdp

  function Size(l: Layer): nat {
    match l
    case Eth => 14
    case InnerEth => 14
    case Vlan => 4
    case Ip => 20
    case InnerIp => 20
    case Tcp => 20
    case InnerTcp => 20
    case _ => 8  // ICMP, UDP and VXLAN
  }

  // Decreases along every edge of the header graph.
  function Rank(l: Layer): nat {
    match l
    case Eth => 7 case Vlan => 6 case Ip => 5 case Udp => 4 case Vxlan => 3
    case InnerEth => 2 case InnerIp => 1
    case _ => 0
  }

  // A 16-bit field in network byte order.
  function Be16(b: seq<Octet>, i: nat): int
    requires i + 1 < |b|
  {
    (b[i] as int) * 256 + b[i + 1]
  }

  predicate IsVlanProto(proto: int) {
    proto == ETH_P_8021Q || proto == ETH_P_8021AD
  }

  // Which header follows, as the header itself says. The frame inside VXLAN is taken to be IPv4.
  function Next(l: Layer, h: seq<Octet>): (next: Option<Layer>)
    requires |h| == Size(l)
    ensures next.Some? ==> Rank(next.value) < Rank(l)
  {
    match l
    case Eth =>
      if IsVlanProto(Be16(h, 12)) then Some(Vlan)
      else if Be16(h, 12) == ETH_P_IP then Some(Ip) else None
    case Vlan => if Be16(h, 2) == ETH_P_IP then Some(Ip) else None
    case Ip =>
      if h[9] == IPPROTO_ICMP then Some(Icmp)
      else if h[9] == IPPROTO_TCP then Some(Tcp)
      else if h[9] == IPPROTO_UDP then Some(Udp) else None
    case Udp => if Be16(h, 2) == VXLAN_PORT then Some(Vxlan) else None
    case Vxlan => Some(InnerEth)
    case InnerEth => Some(InnerIp)
    case InnerIp =>
      if h[9] == IPPROTO_ICMP then Some(InnerIcmp)
      else if h[9] == IPPROTO_TCP then Some(InnerTcp)
      else if h[9] == IPPROTO_UDP then Some(InnerUdp) else None
    case _ => None
  }

  // The length an IPv4 header declares: its ihl field counts 32-bit words.
  function Ihl(h: seq<Octet>): nat
    requires |h| > 0
  {
    (h[0] as int % 16) * 4
  }

  // How far the next header lies in the packet.
  function Stride(l: Layer, h: seq<Octet>): nat
    requires |h| == Size(l)
  {
    if l.Ip? || l.InnerIp? then Ihl(h) else Size(l)
  }

  // A packet from its MAC header on. Reads past the end fail, and so do the reads in `faults`.
  datatype Packet = Packet(bytes: seq<Octet>, faults: set<(nat, nat)>)

  predicate CanLoad(p: Packet, off: nat, n: nat) {
    off + n <= |p.bytes| && (off, n) !in p.faults
  }

  datatype Header = Header(layer: Layer, bytes: seq<Octet>)

  // The headers of a packet from layer `l` at offset `off`, found by stepping as the packet says.
  function Walk(p: Packet, off: nat, l: Option<Layer>): seq<Header>
    decreases if l.Some? then Rank(l.value) + 1 else 0
  {
    if l == None || !CanLoad(p, off, Size(l.value)) then []
    else
      var h := p.bytes[off..off + Size(l.value)];
      [Header(l.value, h)] + Walk(p, off + Stride(l.value, h), Next(l.value, h))
  }

  // The headers in a compacted buffer, found by stepping through it by header size.
  function Decode(data: seq<Octet>, l: Option<Layer>): seq<Header>
    decreases if l.Some? then Rank(l.value) + 1 else 0
  {
    if l == None || |data| < Size(l.value) then []
    else
      var h := data[..Size(l.value)];
      [Header(l.value, h)] + Decode(data[Size(l.value)..], Next(l.value, h))
  }

  function Concat(hs: seq<Header>): seq<Octet> {
    if hs == [] then [] else hs[0].bytes + Concat(hs[1..])
  }

  function Layers(hs: seq<Header>): seq<Layer> {
    seq(|hs|, i requires 0 <= i < |hs| => hs[i].layer)
  }

  lemma {:induction false} ConcatAppend(hs: seq<Header>, h: Header)
    ensures Concat(hs + [h]) == Concat(hs) + h.bytes
  {
    if hs == [] {
      assert [h][1..] == [];
    } else {
      assert (hs + [h])[1..] == hs[1..] + [h];
      ConcatAppend(hs[1..], h);
    }
  }

  // The longest header stack: at each layer the successor that leads to it.
  function LongNext(l: Layer): (next: Option<Layer>)
    ensures next.Some? ==> Rank(next.value) < Rank(l)
  {
    match l
    case Eth => Some(Vlan) case Vlan => Some(Ip) case Ip => Some(Udp) case Udp => Some(Vxlan)
    case Vxlan => Some(InnerEth) case InnerEth => Some(InnerIp) case InnerIp => Some(InnerTcp)
    case _ => None
  }

  function Longest(l: Option<Layer>): seq<Layer>
    decreases if l.Some? then Rank(l.value) + 1 else 0
  {
    if l == None then [] else [l.value] + Longest(LongNext(l.value))
  }

  function Room(l: Option<Layer>): nat
    decreases if l.Some? then Rank(l.value) + 1 else 0
  {
    if l == None then 0 else Size(l.value) + Room(LongNext(l.value))
  }

  lemma RoomTable()
    ensures Room(Some(InnerTcp)) == 20 && Room(Some(InnerUdp)) == 8 && Room(Some(InnerIcmp)) == 8
    ensures Room(Some(InnerIp)) == 40 && Room(Some(InnerEth)) == 54 && Room(Some(Vxlan)) == 62
    ensures Room(Some(Udp)) == 70 && Room(Some(Tcp)) == 20 && Room(Some(Icmp)) == 8
    ensures Room(Some(Ip)) == 90 && Room(Some(Vlan)) == 94 && Room(Some(Eth)) == DATA_SIZE
  {
    assert Room(Some(InnerIp)) == 20 + Room(Some(InnerTcp));
    assert Room(Some(InnerEth)) == 14 + Room(Some(InnerIp));
    assert Room(Some(Udp)) == 8 + Room(Some(Vxlan));
    assert Room(Some(Vlan)) == 4 + Room(Some(Ip));
  }

  lemma RoomNone()
    ensures Room(None) == 0
  {
  }

  lemma LayerFits(l: Layer)
    ensures Size(l) <= Room(Some(l))
  {
  }

  lemma RoomStep(l: Layer, h: seq<Octet>)
    requires |h| == Size(l)
    ensures Size(l) + Room(Next(l, h)) <= Room(Some(l))
    ensures Size(l) + Room(Next(l, h)) == Room(Some(l)) <==> Next(l, h) == LongNext(l)
  {
    RoomTable();
  }

  lemma WalkUnfold(p: Packet, off: nat, l: Layer, h: seq<Octet>)
    requires CanLoad(p, off, Size(l)) && h == p.bytes[off..off + Size(l)]
    ensures Walk(p, off, Some(l)) == [Header(l, h)] + Walk(p, off + Stride(l, h), Next(l, h))
  {
    hide Next, Stride, Size, Rank;
    var rest := Walk(p, off + Stride(l, h), Next(l, h));
    hide CanLoad;
    assert Walk(p, off, Some(l)) == [Header(l, h)] + rest;
  }

  lemma WalkStops(p: Packet, off: nat, l: Option<Layer>)
    ensures Walk(p, off, l) != [] <==> l.Some? && CanLoad(p, off, Size(l.value))
    ensures Walk(p, off, l) != [] ==> l == Some(Walk(p, off, l)[0].layer)
  {
    hide Next, Stride, Size;
  }

  lemma LongestHead(l: Option<Layer>)
    ensures Longest(l) != [] <==> l.Some?
    ensures l.Some? ==> Longest(l)[0] == l.value
  {
  }

  // The space a walk needs, and the only walk that needs it all.
  lemma {:induction false} WalkFits(p: Packet, off: nat, l: Option<Layer>)
    ensures |Concat(Walk(p, off, l))| <= Room(l)
    ensures |Concat(Walk(p, off, l))| == Room(l) <==> Layers(Walk(p, off, l)) == Longest(l)
    decreases if l.Some? then Rank(l.value) + 1 else 0
  {
    hide Walk, Room;
    WalkStops(p, off, l);
    LongestHead(l);
    if l.Some? {
      LayerFits(l.value);
    } else {
      RoomNone();
    }
    if l.Some? && CanLoad(p, off, Size(l.value)) {
      var h := p.bytes[off..off + Size(l.value)];
      var next := Next(l.value, h);
      var rest := Walk(p, off + Stride(l.value, h), next);
      WalkUnfold(p, off, l.value, h);
      WalkFits(p, off + Stride(l.value, h), next);
      RoomStep(l.value, h);
      var w := [Header(l.value, h)] + rest;
      assert w[1..] == rest;
      assert Layers(w) == [l.value] + Layers(rest);
      if Layers(w) == Longest(l) {
        assert Layers(rest) == Layers(w)[1..] == Longest(l)[1..] == Longest(LongNext(l.value));
        LongestHead(LongNext(l.value));
        WalkStops(p, off + Stride(l.value, h), next);
      }
    }
  }

  lemma LongestFromEth()
    ensures Longest(Some(Eth)) == [Eth, Vlan, Ip, Udp, Vxlan, InnerEth, InnerIp, InnerTcp]
  {
    assert Longest(Some(InnerEth)) == [InnerEth, InnerIp, InnerTcp];
    assert Longest(Some(Udp)) == [Udp, Vxlan, InnerEth, InnerIp, InnerTcp];
    assert Longest(Some(Vlan)) == [Vlan, Ip, Udp, Vxlan, InnerEth, InnerIp, InnerTcp];
  }

  // Reading the compacted headers by size gives the headers of the packet, wherever the walk
  // stopped and whatever lengths the IPv4 headers declare.
  lemma {:induction false} DecodeUndoesCompaction(p: Packet, off: nat, l: Option<Layer>)
    ensures Decode(Concat(Walk(p, off, l)), l) == Walk(p, off, l)
    decreases if l.Some? then Rank(l.value) + 1 else 0
  {
    hide Walk, Next, Stride;
    WalkStops(p, off, l);
    if l.Some? && CanLoad(p, off, Size(l.value)) {
      var h := p.bytes[off..off + Size(l.value)];
      var rest := Walk(p, off + Stride(l.value, h), Next(l.value, h));
      WalkUnfold(p, off, l.value, h);
      DecodeUndoesCompaction(p, off + Stride(l.value, h), Next(l.value, h));
      var w := [Header(l.value, h)] + rest;
      assert w[1..] == rest;
      assert Concat(w)[..|h|] == h && Concat(w)[|h|..] == Concat(rest);
    }
  }

  /* ---- What a walk means on the wire ---- */

  // The length of a header without options: Ethernet, an IEEE 802.1Q tag, section 3.1 of RFC 791,
  // and the transport and VXLAN headers.
  function WireLength(l: Layer): nat {
    if l == Eth || l == InnerEth then 6 + 6 + 2
    else if l == Vlan then 2 + 2
    else if l == Ip || l == InnerIp || l == Tcp || l == InnerTcp then 5 * 4
    else 2 * 4
  }

  // The octets by which a header announces the next one.
  predicate Announces(l: Layer, h: seq<Octet>, next: Layer)
    requires |h| == WireLength(l)
  {
    || (l == Eth && next == Vlan && (h[12..14] == [0x81, 0x00] || h[12..14] == [0x88, 0xA8]))
    || (l == Eth && next == Ip && h[12..14] == [0x08, 0x00])
    || (l == Vlan && next == Ip && h[2..4] == [0x08, 0x00])
    || (l == Ip && ((next == Icmp && h[9] == 1) || (next == Tcp && h[9] == 6) || (next == Udp && h[9] == 17)))
    || (l == Udp && next == Vxlan && h[2..4] == [0x12, 0xB5])
    || (l == Vxlan && next == InnerEth)
    || (l == InnerEth && next == InnerIp)
    || (l == InnerIp
        && ((next == InnerIcmp && h[9] == 1) || (next == InnerTcp && h[9] == 6) || (next == InnerUdp && h[9] == 17)))
  }

  // Where the next header lies: an IPv4 header tells its length in words in the low half of its first
  // octet (section 3.1 of RFC 791).
  ghost predicate EndsAt(l: Layer, first: Octet, off: nat, next: nat) {
    if l == Ip || l == InnerIp then
      exists version: nat, words: nat :: Nibbles(first, version, words) && next == off + 4 * words
    else next == off + WireLength(l)
  }

  predicate Nibbles(octet: Octet, high: nat, low: nat) {
    low < 16 && octet == 16 * high + low
  }

  // Header i of `hs` lies at offs[i] of the packet, and announces the header after it, which lies
  // where it ends.
  ghost predicate LiesAt(p: Packet, hs: seq<Header>, offs: seq<nat>, i: nat)
    requires |hs| == |offs| && i < |hs|
  {
    var l, n := hs[i].layer, WireLength(hs[i].layer);
    && offs[i] + n <= |p.bytes|
    && hs[i].bytes == p.bytes[offs[i]..offs[i] + n]
    && (i + 1 < |hs| ==>
          Announces(l, hs[i].bytes, hs[i + 1].layer) && EndsAt(l, p.bytes[offs[i]], offs[i], offs[i + 1]))
  }

  // The last header announces none, or one that cannot be loaded.
  ghost predicate StopsAt(p: Packet, l: Layer, h: seq<Octet>, off: nat) {
    && |h| == WireLength(l) > 0
    && forall next, end: nat | Announces(l, h, next) && EndsAt(l, h[0], off, end) :: Unloadable(p, next, end)
  }

  predicate Unloadable(p: Packet, l: Layer, off: nat) {
    off + WireLength(l) > |p.bytes| || (off, WireLength(l)) in p.faults
  }

  // A chain of headers as they lie in the packet, from layer `l` at `off` as far as it goes.
  ghost predicate HeaderStack(p: Packet, off: nat, l: Layer, hs: seq<Header>, offs: seq<nat>) {
    && |hs| == |offs|
    && (hs == [] ==> Unloadable(p, l, off))
    && (hs != [] ==> hs[0].layer == l && offs[0] == off)
    && (forall i :: 0 <= i < |hs| ==> LiesAt(p, hs, offs, i))
    && (hs != [] ==> StopsAt(p, hs[|hs| - 1].layer, hs[|hs| - 1].bytes, offs[|hs| - 1]))
  }

  lemma SizeIsWireLength(l: Layer)
    ensures Size(l) == WireLength(l) > 0
  {
  }

  lemma NextIsAnnounced(l: Layer, h: seq<Octet>, next: Layer)
    requires |h| == Size(l) == WireLength(l)
    ensures Next(l, h) == Some(next) <==> Announces(l, h, next)
  {
    if l == Eth {
      BytesOf16(h, 12);
    } else if l == Vlan || l == Udp {
      BytesOf16(h, 2);
    }
  }

  lemma BytesOf16(h: seq<Octet>, i: nat)
    requires i + 1 < |h|
    ensures forall a: Octet, b: Octet :: h[i..i + 2] == [a, b] <==> Be16(h, i) == 256 * a + b
  {
  }

  lemma StrideIsEnd(l: Layer, h: seq<Octet>, off: nat, next: nat)
    requires |h| == Size(l) == WireLength(l) > 0
    ensures next == off + Stride(l, h) <==> EndsAt(l, h[0], off, next)
  {
    hide Size, WireLength;
    if l == Ip || l == InnerIp {
      var first: nat := h[0];
      assert Nibbles(h[0], first / 16, first % 16);
      if EndsAt(l, h[0], off, next) {
        var version: nat, words: nat :| Nibbles(h[0], version, words) && next == off + 4 * words;
        assert first % 16 == words;
      }
    }
  }

  // Every walk is the header stack of the packet.
  lemma {:induction false} WalkIsHeaderStack(p: Packet, off: nat, l: Layer) returns (offs: seq<nat>)
    ensures HeaderStack(p, off, l, Walk(p, off, Some(l)), offs)
    decreases Rank(l)
  {
    hide Walk, Next, Stride, Size, Announces, EndsAt, WireLength;
    SizeIsWireLength(l);
    WalkStops(p, off, Some(l));
    if !CanLoad(p, off, Size(l)) {
      return [];
    }
    var h := p.bytes[off..off + Size(l)];
    var next, end := Next(l, h), off + Stride(l, h);
    assert h[0] == p.bytes[off];
    WalkUnfold(p, off, l, h);
    WalkStops(p, end, next);
    var rest := Walk(p, end, next);
    assert LiesAt(p, [Header(l, h)], [off], 0);
    Successor(p, l, h, off);
    var others: seq<nat> := [];
    if next.Some? {
      NextRank(l, h);
      others := WalkIsHeaderStack(p, end, next.value);
    }
    StackCons(p, Header(l, h), rest, off, others);
    hide LiesAt, StopsAt;
    offs := [off] + others;
  }

  // The step of a walk is what the header announces.
  lemma Successor(p: Packet, l: Layer, h: seq<Octet>, off: nat)
    requires |h| == Size(l) == WireLength(l) > 0
    ensures
      var next, end := Next(l, h), off + Stride(l, h);
      && (next.Some? ==> Announces(l, h, next.value) && EndsAt(l, h[0], off, end))
      && (next == None || Unloadable(p, next.value, end) ==> StopsAt(p, l, h, off))
  {
    hide Announces, EndsAt, Next, Stride, Size, Unloadable;
    var end := off + Stride(l, h);
    StrideIsEnd(l, h, off, end);
    forall n: Layer
      ensures Next(l, h) == Some(n) <==> Announces(l, h, n)
    {
      NextIsAnnounced(l, h, n);
    }
    forall e: nat
      ensures e == end <==> EndsAt(l, h[0], off, e)
    {
      StrideIsEnd(l, h, off, e);
    }
  }

  lemma NextRank(l: Layer, h: seq<Octet>)
    requires |h| == Size(l) && Next(l, h).Some?
    ensures Rank(Next(l, h).value) < Rank(l)
  {
  }

  lemma StackCons(p: Packet, first: Header, rest: seq<Header>, off: nat, others: seq<nat>)
    requires |rest| == |others| && forall i :: 0 <= i < |rest| ==> LiesAt(p, rest, others, i)
    requires LiesAt(p, [first], [off], 0)
    requires rest != [] ==>
      Announces(first.layer, first.bytes, rest[0].layer) && EndsAt(first.layer, p.bytes[off], off, others[0])
    ensures forall i :: 0 <= i <= |rest| ==> LiesAt(p, [first] + rest, [off] + others, i)
  {
    hide Announces, EndsAt, WireLength;
    var hs, offs := [first] + rest, [off] + others;
    forall i | 0 <= i <= |rest|
      ensures LiesAt(p, hs, offs, i)
    {
      if i > 0 {
        assert LiesAt(p, rest, others, i - 1);
        assert hs[i] == rest[i - 1] && offs[i] == others[i - 1];
        if i < |rest| {
          assert hs[i + 1] == rest[i] && offs[i + 1] == others[i];
        }
      }
    }
  }

  // Copying one more header of the walk.
  lemma WalkExtends(p: Packet, done: seq<Header>, l: Layer, varOff: nat, h: seq<Octet>)
    requires CanLoad(p, varOff, Size(l)) && h == p.bytes[varOff..varOff + Size(l)]
    ensures done + Walk(p, varOff, Some(l))
         == (done + [Header(l, h)]) + Walk(p, varOff + Stride(l, h), Next(l, h))
  {
    hide Walk, Next, Stride, Size;
    var rest := Walk(p, varOff + Stride(l, h), Next(l, h));
    WalkUnfold(p, varOff, l, h);
    assert done + ([Header(l, h)] + rest) == (done + [Header(l, h)]) + rest;
  }

  // struct event, without the fields copy_headers does not touch
  class EventBuffer {
    var totalLen: nat
    const data: array<Octet>

    constructor ()
      ensures totalLen == 0 && data.Length == DATA_SIZE && fresh(data)
    {
      totalLen := 0;
      data := new Octet[DATA_SIZE](i => 0);
    }

    // `done` is what has been copied; the walk goes on at `varOff` with layer `l`, if any.
    ghost predicate Copied(p: Packet, done: seq<Header>, l: Option<Layer>, varOff: nat, cpyOff: nat)
      reads this, data
    {
      && data.Length == DATA_SIZE
      && cpyOff == |Concat(done)|
      && cpyOff + Room(l) <= DATA_SIZE
      && data[..cpyOff] == Concat(done)
      && Walk(p, 0, Some(Eth)) == done + Walk(p, varOff, l)
      && (done != [] ==> totalLen == cpyOff)
    }

    // The walk is over and all of it is in the buffer.
    ghost predicate Complete(p: Packet)
      reads this, data
    {
      && totalLen <= data.Length == DATA_SIZE
      && data[..totalLen] == Concat(Walk(p, 0, Some(Eth)))
    }

    // Nothing is left to walk.
    lemma CopiedAll(p: Packet, done: seq<Header>, varOff: nat, cpyOff: nat)
      requires Copied(p, done, None, varOff, cpyOff) && done != []
      ensures Complete(p)
    {
      hide Concat, Room;
      WalkStops(p, varOff, None);
      assert done + [] == done;
    }

    // The macro __memcpy: one load into the buffer. A failed load may clobber its target bytes.
    method Memcpy(p: Packet, l: Layer, varOff: nat, cpyOff: nat, ghost done: seq<Header>) returns (ok: bool)
      requires Copied(p, done, Some(l), varOff, cpyOff)
      modifies this, data
      ensures ok == CanLoad(p, varOff, Size(l))
      ensures !ok ==> totalLen == old(totalLen) && Walk(p, 0, Some(Eth)) == done && (done != [] ==> Complete(p))
      ensures ok ==>
        var h := p.bytes[varOff..varOff + Size(l)];
        && cpyOff + Size(l) <= DATA_SIZE
        && data[cpyOff..cpyOff + Size(l)] == h
        && Copied(p, done + [Header(l, h)], Next(l, h), varOff + Stride(l, h), cpyOff + Size(l))
    {
      hide Walk, Room, Concat, Decode, Next, Stride;
      WalkStops(p, varOff, Some(l));
      LayerFits(l);
      var n := Size(l);
      ok := varOff + n <= |p.bytes| && (varOff, n) !in p.faults;
      Fill(cpyOff, if ok then p.bytes[varOff..varOff + n] else seq(n, i => 0));
      if !ok {
        assert done + [] == done;
        return;
      }
      totalLen := cpyOff + n;
      ghost var h := p.bytes[varOff..varOff + n];
      WalkExtends(p, done, l, varOff, h);
      ConcatAppend(done, Header(l, h));
      RoomStep(l, h);
    }

    method Fill(at: nat, bytes: seq<Octet>)
      requires at + |bytes| <= data.Length
      modifies data
      ensures data[..at] == old(data[..at])
      ensures data[at..at + |bytes|] == bytes
      ensures data[..at + |bytes|] == old(data[..at]) + bytes
    {
      forall i | 0 <= i < |bytes| {
        data[at + i] := bytes[i];
      }
    }

    method CopyHeaders(p: Packet)
      requires data.Length == DATA_SIZE
      modifies this, data
      ensures CanLoad(p, 0, Size(Eth)) ==> Complete(p)
      ensures !CanLoad(p, 0, Size(Eth)) ==> totalLen == old(totalLen) && Walk(p, 0, Some(Eth)) == []
    {
      hide Walk, Room, Decode;
      var varOff: nat, cpyOff: nat := 0, 0;
      ghost var done: seq<Header> := [];
      RoomTable();

      var ok := Memcpy(p, Eth, varOff, cpyOff, done);
      if !ok { return; }
      var eth := data[cpyOff..cpyOff + 14];
      done, varOff, cpyOff := done + [Header(Eth, eth)], varOff + 14, cpyOff + 14;

      if IsVlanProto(Be16(eth, 12)) {
        ok := Memcpy(p, Vlan, varOff, cpyOff, done);
        if !ok { return; }
        var vh := data[cpyOff..cpyOff + 4];
        done, varOff, cpyOff := done + [Header(Vlan, vh)], varOff + 4, cpyOff + 4;
        if Be16(vh, 2) != ETH_P_IP {
          CopiedAll(p, done, varOff, cpyOff);
          return;
        }
      } else if Be16(eth, 12) != ETH_P_IP {
        CopiedAll(p, done, varOff, cpyOff);
        return;
      }
      CopyIp(p, varOff, cpyOff, done);
    }

    // copy_headers from the outer IPv4 header on
    method CopyIp(p: Packet, varOff0: nat, cpyOff0: nat, ghost done0: seq<Header>)
      requires Copied(p, done0, Some(Ip), varOff0, cpyOff0) && done0 != []
      modifies this, data
      ensures Complete(p)
    {
      hide Walk, Room, Concat, Decode;
      var varOff: nat, cpyOff: nat := varOff0, cpyOff0;
      ghost var done := done0;

      var ok := Memcpy(p, Ip, varOff, cpyOff, done);
      if !ok { return; }
      var iph := data[cpyOff..cpyOff + 20];
      done, varOff, cpyOff := done + [Header(Ip, iph)], varOff + Ihl(iph), cpyOff + 20;

      if iph[9] == IPPROTO_ICMP {
        CopyLast(p, Icmp, varOff, cpyOff, done);
      } else if iph[9] == IPPROTO_TCP {
        CopyLast(p, Tcp, varOff, cpyOff, done);
      } else if iph[9] == IPPROTO_UDP {
        CopyUdp(p, varOff, cpyOff, done);
      } else {
        CopiedAll(p, done, varOff, cpyOff);
      }
    }

    // copy_headers from the outer UDP header on
    method CopyUdp(p: Packet, varOff0: nat, cpyOff0: nat, ghost done0: seq<Header>)
      requires Copied(p, done0, Some(Udp), varOff0, cpyOff0) && done0 != []
      modifies this, data
      ensures Complete(p)
    {
      hide Walk, Room, Concat, Decode;
      var varOff: nat, cpyOff: nat := varOff0, cpyOff0;
      ghost var done := done0;

      var ok := Memcpy(p, Udp, varOff, cpyOff, done);
      if !ok { return; }
      var udph := data[cpyOff..cpyOff + 8];
      done, varOff, cpyOff := done + [Header(Udp, udph)], varOff + 8, cpyOff + 8;
      if Be16(udph, 2) != VXLAN_PORT {
        CopiedAll(p, done, varOff, cpyOff);
        return;
      }
      CopyVxlan(p, varOff, cpyOff, done);
    }

    // copy_headers from the VXLAN header on
    method CopyVxlan(p: Packet, varOff0: nat, cpyOff0: nat, ghost done0: seq<Header>)
      requires Copied(p, done0, Some(Vxlan), varOff0, cpyOff0) && done0 != []
      modifies this, data
      ensures Complete(p)
    {
      hide Walk, Room, Concat, Decode;
      var varOff: nat, cpyOff: nat := varOff0, cpyOff0;
      ghost var done := done0;

      var ok := Memcpy(p, Vxlan, varOff, cpyOff, done);
      if !ok { return; }
      done, varOff, cpyOff := done + [Header(Vxlan, data[cpyOff..cpyOff + 8])], varOff + 8, cpyOff + 8;

      ok := Memcpy(p, InnerEth, varOff, cpyOff, done);
      if !ok { return; }
      done, varOff, cpyOff := done + [Header(InnerEth, data[cpyOff..cpyOff + 14])], varOff + 14, cpyOff + 14;

      CopyInnerIp(p, varOff, cpyOff, done);
    }

    // copy_headers from the inner IPv4 header on
    method CopyInnerIp(p: Packet, varOff0: nat, cpyOff0: nat, ghost done0: seq<Header>)
      requires Copied(p, done0, Some(InnerIp), varOff0, cpyOff0) && done0 != []
      modifies this, data
      ensures Complete(p)
    {
      hide Walk, Room, Concat, Decode;
      var varOff: nat, cpyOff: nat := varOff0, cpyOff0;
      ghost var done := done0;

      var ok := Memcpy(p, InnerIp, varOff, cpyOff, done);
      if !ok { return; }
      var iph := data[cpyOff..cpyOff + 20];
      done, varOff, cpyOff := done + [Header(InnerIp, iph)], varOff + Ihl(iph), cpyOff + 20;

      if iph[9] == IPPROTO_ICMP {
        CopyLast(p, InnerIcmp, varOff, cpyOff, done);
      } else if iph[9] == IPPROTO_TCP {
        CopyLast(p, InnerTcp, varOff, cpyOff, done);
      } else if iph[9] == IPPROTO_UDP {
        CopyLast(p, InnerUdp, varOff, cpyOff, done);
      } else {
        CopiedAll(p, done, varOff, cpyOff);
      }
    }

    // A header that nothing is read from afterwards.
    method CopyLast(p: Packet, l: Layer, varOff: nat, cpyOff: nat, ghost done: seq<Header>)
      requires Copied(p, done, Some(l), varOff, cpyOff) && done != []
      requires Rank(l) == 0
      modifies this, data
      ensures Complete(p)
    {
      hide Walk, Room, Concat, Decode;
      var ok := Memcpy(p, l, varOff, cpyOff, done);
      if ok {
        ghost var h := p.bytes[varOff..varOff + Size(l)];
        CopiedAll(p, done + [Header(l, h)], varOff + Stride(l, h), cpyOff + Size(l));
      }
    }

    // What a consumer of the event sees: the packet's own header stack.
    method CopyThenDecode(p: Packet) returns (hs: seq<Header>)
      requires data.Length == DATA_SIZE && totalLen == 0
      modifies this, data
      ensures totalLen <= DATA_SIZE
      ensures hs == Decode(data[..totalLen], Some(Eth)) == Walk(p, 0, Some(Eth))
      ensures totalLen == |Concat(hs)|
      ensures totalLen == DATA_SIZE <==> Layers(hs) == [Eth, Vlan, Ip, Udp, Vxlan, InnerEth, InnerIp, InnerTcp]
      ensures exists offs :: HeaderStack(p, 0, Eth, hs, offs)
    {
      hide Walk, Room, Longest, HeaderStack;
      ghost var offs := WalkIsHeaderStack(p, 0, Eth);
      CopyHeaders(p);
      DecodeUndoesCompaction(p, 0, Some(Eth));
      WalkFits(p, 0, Some(Eth));
      LongestFromEth();
      RoomTable();
      hs := Decode(data[..totalLen], Some(Eth));
    }
  }
}
