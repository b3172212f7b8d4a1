/**
 The Internet checksum of ebpf/headers/bpf/bpf_csum.h: fold, compute, update in place, verify.
 RFC 1071 describes the arithmetic.
 */
module Csum {
  import opened Common
  import Bits
  import Endian

  // A 16-bit field as a little-endian machine loads it.
  function Half(b: seq<Octet>, i: nat): int
    requires i + 1 < |b|
  {
    b[i] as int + 256 * (b[i + 1] as int)
  }

  // The plain sum of the 16-bit halves.
  function Sum16(b: seq<Octet>): nat {
    if |b| < 2 then 0 else Half(b, 0) + Sum16(b[2..])
  }

  // The contract of bpf_csum_diff(0, 0, data, size, 0) as a 32-bit value: some representative of
  // the ones' complement sum of a size that is a multiple of 4, and -EINVAL for any other size.
  ghost predicate IsCsumDiff(s: int, data: seq<Octet>) {
    if |data| % 4 != 0 then s == TWO_32 - 22 else Represents(s, Sum16(data))
  }

  // A 32-bit representative of a ones' complement sum.
  predicate Represents(s: int, sum: nat) {
    0 <= s < TWO_32 && s % 0xffff == sum % 0xffff && (s == 0 <==> sum == 0)
  }

  // csum_fold_helper
  function CsumFold(sum: int): (c: int)
    requires 0 <= sum < TWO_32
    ensures 0 <= c < TWO_16
  {
    var s := sum % TWO_16 + sum / TWO_16;
    0xffff - (s % TWO_16 + s / TWO_16) % TWO_16
  }

  // The 16-bit ones' complement representative: 0 only for 0.
  function Rep(s: nat): (r: nat)
    ensures r <= 0xffff
  {
    if s == 0 then 0 else if s % 0xffff == 0 then 0xffff else s % 0xffff
  }

  // What ipv4_csum returns: the complement of the ones' complement sum, and a constant for a size
  // that the helper refuses.
  function Checksum(data: seq<Octet>): int {
    if |data| % 4 != 0 then 0x15 else 0xffff - Rep(Sum16(data))
  }

  lemma FoldIsComplement(sum: int)
    requires 0 <= sum < TWO_32
    ensures CsumFold(sum) == 0xffff - Rep(sum)
  {
    var s := sum % TWO_16 + sum / TWO_16;
    var t := s % TWO_16 + s / TWO_16;
    assert sum == s + 0xffff * (sum / TWO_16);
    assert s == t + 0xffff * (s / TWO_16);
    ModShift(s, sum / TWO_16);
    ModShift(t, s / TWO_16);
    assert 0 <= t < TWO_16;
    assert t == 0 <==> sum == 0;
  }

  lemma ModShift(a: int, k: int)
    ensures (a + 0xffff * k) % 0xffff == a % 0xffff
  {
  }

  // Whichever representative the helper returns, the folded checksum is the same.
  lemma FoldOfAnyCsumDiff(s: int, data: seq<Octet>)
    requires IsCsumDiff(s, data)
    ensures CsumFold(s) == Checksum(data)
  {
    if |data| % 4 == 0 {
      FoldIsComplement(s);
    }
  }

  // A helper that meets the contract: 32-bit words added with end-around carry.
  method BpfCsumDiff(data: seq<Octet>) returns (s: int)
    ensures IsCsumDiff(s, data)
  {
    if |data| % 4 != 0 {
      return TWO_32 - 22;
    }
    s := 0;
    var i := |data|;
    assert data[i..] == [];
    while i > 0
      invariant 0 <= i <= |data| && i % 4 == 0
      invariant IsCsumDiff(s, data[i..])
    {
      i := i - 4;
      var word := Half(data, i) + TWO_16 * Half(data, i + 2);
      CsumOfWord(s, data, i);
      hide Half, Sum16, IsCsumDiff;
      s := AddWord(s, word);
    }
    assert data[0..] == data;
  }

  // Addition of 32-bit words with the carry added back.
  function AddWord(s: int, word: int): int {
    if s + word < TWO_32 then s + word else s + word - TWO_32 + 1
  }

  lemma CsumOfWord(s: int, data: seq<Octet>, i: nat)
    requires i + 4 <= |data| && |data| % 4 == 0 && i % 4 == 0
    requires IsCsumDiff(s, data[i + 4..])
    ensures IsCsumDiff(AddWord(s, Half(data, i) + TWO_16 * Half(data, i + 2)), data[i..])
  {
    hide Half, Sum16, AddWord, Represents;
    var before, after := data[i + 4..], data[i..];
    TailSize(|data|, i);
    TailSize(|data|, i + 4);
    SumWord(data, i);
    HalfRange(data, i);
    HalfRange(data, i + 2);
    AddCarry(s, Sum16(before), Half(data, i), Half(data, i + 2), Sum16(after));
  }

  lemma HalfRange(data: seq<Octet>, i: nat)
    requires i + 1 < |data|
    ensures 0 <= Half(data, i) < TWO_16
  {
  }

  lemma TailSize(n: nat, i: nat)
    requires n % 4 == 0 && i % 4 == 0 && i <= n
    ensures (n - i) % 4 == 0
  {
  }

  lemma SumWord(data: seq<Octet>, i: nat)
    requires i + 4 <= |data|
    ensures Sum16(data[i..]) == Half(data, i) + Half(data, i + 2) + Sum16(data[i + 4..])
  {
    var b := data[i..];
    assert b[2..][2..] == data[i + 4..];
    assert Half(b, 0) == Half(data, i) && Half(b[2..], 0) == Half(data, i + 2);
  }

  lemma AddCarry(s: int, rest: nat, lo: int, hi: int, sum: nat)
    requires 0 <= lo < TWO_16 && 0 <= hi < TWO_16 && sum == lo + hi + rest
    requires Represents(s, rest)
    ensures Represents(AddWord(s, lo + TWO_16 * hi), sum)
  {
    var total := s + lo + TWO_16 * hi;
    var q := s / 0xffff - rest / 0xffff;
    assert s == rest + 0xffff * q;
    assert total == (rest + lo + hi) + 0xffff * (q + hi);
    ModShift(rest + lo + hi, q + hi);
    assert total - TWO_32 + 1 == (rest + lo + hi) + 0xffff * (q + hi - 0x1_0001);
    ModShift(rest + lo + hi, q + hi - 0x1_0001);
  }

  // ipv4_csum
  method Ipv4Csum(data: seq<Octet>) returns (c: int)
    ensures c == Checksum(data)
    ensures 0 <= c < TWO_16
  {
    var sum := BpfCsumDiff(data);
    FoldOfAnyCsumDiff(sum, data);
    c := CsumFold(sum);
  }

  // Store a 16-bit field.
  function Put(b: seq<Octet>, i: nat, v: int): (r: seq<Octet>)
    requires i + 1 < |b| && 0 <= v < TWO_16
    ensures |r| == |b|
  {
    b[i := v % 256][i + 1 := v / 256]
  }

  // The buffer after its checksum field at `at` has been cleared and then filled in.
  function Updated(b: seq<Octet>, at: nat): (r: seq<Octet>)
    requires at + 1 < |b|
    ensures |r| == |b|
  {
    Put(Put(b, at, 0), at, Checksum(Put(b, at, 0)))
  }

  // __update_icmp_checksum (field at 2) and __update_ip_checksum (field at 10, size 20): in place
  method UpdateChecksum(a: array<Octet>, at: nat, size: nat)
    requires at + 1 < size <= a.Length
    modifies a
    ensures a[..size] == Updated(old(a[..size]), at)
    ensures forall k :: 0 <= k < a.Length && k != at && k != at + 1 ==> a[k] == old(a[k])
    ensures a[size..] == old(a[size..])
  {
    a[at], a[at + 1] := 0, 0;
    assert a[..size] == Put(old(a[..size]), at, 0);
    var c := Ipv4Csum(a[..size]);
    a[at], a[at + 1] := c % 256, c / 256;
    assert a[..size] == Put(Put(old(a[..size]), at, 0), at, c);
  }

  lemma {:induction false} SumPut(b: seq<Octet>, i: nat, v: int)
    requires i % 2 == 0 && i + 1 < |b| && 0 <= v < TWO_16
    ensures Sum16(Put(b, i, v)) == Sum16(b) - Half(b, i) + v
    decreases |b|
  {
    var r := Put(b, i, v);
    if i == 0 {
      assert r[2..] == b[2..];
    } else {
      assert r[2..] == Put(b[2..], i - 2, v);
      SumPut(b[2..], i - 2, v);
      assert Half(b[2..], i - 2) == Half(b, i);
    }
  }

  lemma {:induction false} HalfBounds(b: seq<Octet>, i: nat)
    requires i % 2 == 0 && i + 1 < |b|
    ensures 0 <= Half(b, i) <= Sum16(b)
    ensures Half(b, i) < TWO_16
    decreases i
  {
    if i > 0 {
      HalfBounds(b[2..], i - 2);
      assert Half(b[2..], i - 2) == Half(b, i);
    }
  }

  // After an update the checksum of the same bytes is zero, for every content of the buffer;
  // and only if the helper accepts the size.
  lemma UpdateThenVerify(b: seq<Octet>, at: nat)
    requires at % 2 == 0 && at + 1 < |b|
    ensures Checksum(Updated(b, at)) == 0 <==> |b| % 4 == 0
  {
    if |b| % 4 == 0 {
      var zeroed := Put(b, at, 0);
      var c := Checksum(zeroed);
      SumPut(b, at, 0);
      SumPut(zeroed, at, c);
      var s := Sum16(zeroed);
      var q := s / 0xffff;
      assert s == s % 0xffff + 0xffff * q;
      assert s + c == 0xffff * (if s == 0 then 1 else if s % 0xffff == 0 then q else q + 1);
    }
  }

  // Which changes of one aligned field of a verified buffer go unnoticed: none but the exchange of
  // the two representations of zero, and not even that when it would clear the whole buffer.
  lemma CorruptionUnnoticed(b: seq<Octet>, i: nat, v: int)
    requires i % 2 == 0 && i + 1 < |b| && 0 <= v < TWO_16
    requires |b| % 4 == 0 && Checksum(b) == 0
    ensures Checksum(Put(b, i, v)) == 0
       <==> v == Half(b, i) || (Half(b, i) == 0 && v == 0xffff)
            || (Half(b, i) == 0xffff && v == 0 && Sum16(b) != 0xffff)
  {
    hide Sum16, Half, Put;
    SumPut(b, i, v);
    HalfBounds(b, i);
    ZeroKept(Sum16(b), Half(b, i), v);
  }

  lemma ZeroKept(s: int, h: int, v: int)
    requires s > 0 && s % 0xffff == 0 && 0 <= h <= s && h <= 0xffff && 0 <= v <= 0xffff
    ensures s - h + v != 0 && (s - h + v) % 0xffff == 0
       <==> v == h || (h == 0 && v == 0xffff) || (h == 0xffff && v == 0 && s != 0xffff)
  {
    assert s - h + v == (v - h) + 0xffff * (s / 0xffff);
    ModShift(v - h, s / 0xffff);
  }

  /* ---- Byte order ---- */

  function Swap16(x: int): int
    requires 0 <= x < TWO_16
  {
    (x % 256) * 256 + x / 256
  }

  // The bytes of every half exchanged.
  function SwapHalves(b: seq<Octet>): (r: seq<Octet>)
    ensures |r| == |b|
  {
    if |b| < 2 then b else [b[1], b[0]] + SwapHalves(b[2..])
  }

  lemma {:induction false} SumSwapped(b: seq<Octet>)
    ensures exists k :: Sum16(SwapHalves(b)) == 256 * Sum16(b) - 0xffff * k
    ensures Sum16(SwapHalves(b)) == 0 <==> Sum16(b) == 0
    decreases |b|
  {
    var r := SwapHalves(b);
    if |b| < 2 {
      assert Sum16(r) == 256 * Sum16(b) - 0xffff * 0;
    } else {
      SumSwapped(b[2..]);
      assert r[2..] == SwapHalves(b[2..]);
      var k :| Sum16(r[2..]) == 256 * Sum16(b[2..]) - 0xffff * k;
      assert Half(r, 0) == 256 * Half(b, 0) - 0xffff * (b[1] as int);
      assert Sum16(r) == 256 * Sum16(b) - 0xffff * (k + b[1] as int);
    }
  }

  lemma RepSwapped(s: nat, t: nat, k: int)
    requires t == 256 * s - 0xffff * k
    requires t == 0 <==> s == 0
    ensures Rep(t) == Swap16(Rep(s))
  {
    hide Swap16, Rep, RepCarry;
    if s == 0 {
      RepOfZero();
    }
    if s != 0 {
      var r, q := Rep(s), RepCarry(s);
      RepForm(s);
      SwapForm(r);
      assert t == Swap16(r) + 0xffff * (256 * q + r / 256 - k);
      RepUnique(Swap16(r), 256 * q + r / 256 - k);
    }
  }

  lemma RepOfZero()
    ensures Rep(0) == Swap16(Rep(0))
  {
  }

  function RepCarry(s: nat): int {
    if s % 0xffff == 0 then s / 0xffff - 1 else s / 0xffff
  }

  lemma RepForm(s: nat)
    requires s != 0
    ensures s == Rep(s) + 0xffff * RepCarry(s) && 0 < Rep(s) <= 0xffff
  {
  }

  lemma SwapForm(r: int)
    requires 0 < r <= 0xffff
    ensures Swap16(r) == 256 * r - 0xffff * (r / 256) && 0 < Swap16(r) <= 0xffff
  {
  }

  lemma RepUnique(u: nat, n: int)
    requires 0 < u <= 0xffff && u + 0xffff * n > 0
    ensures Rep(u + 0xffff * n) == u
  {
    ModShift(u, n);
  }

  // The checksum does not depend on the byte order of the machine: computed over swapped halves it
  // comes out swapped, for every size the helper accepts and for no other.
  lemma SwapCommutes(b: seq<Octet>)
    ensures Checksum(SwapHalves(b)) == Swap16(Checksum(b)) <==> |b| % 4 == 0
  {
    hide Sum16, SwapHalves, Rep, Swap16;
    if |b| % 4 == 0 {
      SumSwapped(b);
      var k :| Sum16(SwapHalves(b)) == 256 * Sum16(b) - 0xffff * k;
      RepSwapped(Sum16(b), Sum16(SwapHalves(b)), k);
      SwapComplement(Rep(Sum16(b)));
    } else {
      SwapConstant();
    }
  }

  lemma SwapConstant()
    ensures Swap16(0x15) == 0x1500
  {
  }

  lemma SwapComplement(r: int)
    requires 0 <= r <= 0xffff
    ensures Swap16(0xffff - r) == 0xffff - Swap16(r)
  {
    var a, b := r / 256, r % 256;
    assert 0xffff - r == 256 * (255 - a) + (255 - b);
    assert (0xffff - r) / 256 == 255 - a && (0xffff - r) % 256 == 255 - b;
  }

  /* ---- The 16-bit swap macro on values ---- */

  function Bit(b: bool): nat {
    if b then 1 else 0
  }

  function ByteValue(b: Bits.Byte8): (v: nat)
    ensures v < 256
  {
    Bit(b[0]) + 2 * Bit(b[1]) + 4 * Bit(b[2]) + 8 * Bit(b[3])
    + 16 * Bit(b[4]) + 32 * Bit(b[5]) + 64 * Bit(b[6]) + 128 * Bit(b[7])
  }

  // The binary value of a word, its lowest bit first.
  function BinaryValue(w: Bits.Word): nat {
    if w == [] then 0 else (if w[0] then 1 else 0) + 2 * BinaryValue(w[1..])
  }

  lemma ByteValueIsBinary(b: Bits.Byte8)
    ensures ByteValue(b) == BinaryValue(b)
  {
    var b1 := b[1..];
    var b2 := b1[1..];
    var b3 := b2[1..];
    var b4 := b3[1..];
    var b5 := b4[1..];
    var b6 := b5[1..];
    var b7 := b6[1..];
    assert b7[1..] == [];
    assert BinaryValue(b7) == Bit(b[7]);
    assert BinaryValue(b6) == Bit(b[6]) + 2 * BinaryValue(b7);
    assert BinaryValue(b5) == Bit(b[5]) + 2 * BinaryValue(b6);
    assert BinaryValue(b4) == Bit(b[4]) + 2 * BinaryValue(b5);
    assert BinaryValue(b3) == Bit(b[3]) + 2 * BinaryValue(b4);
    assert BinaryValue(b2) == Bit(b[2]) + 2 * BinaryValue(b3);
    assert BinaryValue(b1) == Bit(b[1]) + 2 * BinaryValue(b2);
  }

  function Value16(x: Bits.Word): (v: nat)
    requires |x| == 16
    ensures v < TWO_16
  {
    ByteValue(x[..8]) + 256 * ByteValue(x[8..])
  }

  // ___bpf_swab16 is Swap16 on the value of its operand.
  lemma SwabIsSwap16(x: Bits.Word)
    requires |x| == 16
    ensures Value16(Endian.Swab16(x)) == Swap16(Value16(x))
  {
    hide ByteValue, Endian.Swab16;
    Endian.Swab16Reverses(x);
    var r := Endian.Swab16(x);
    assert r[..8] == x[8..] && r[8..] == x[..8];
  }
}
