/**
 The bitfield macros of ebpf/headers/bpf/bpf_core_read.h: BPF_CORE_READ_BITFIELD,
 BPF_CORE_READ_BITFIELD_PROBED and BPF_CORE_WRITE_BITFIELD, on either byte order.
 */
module CoreRead {
  import opened Bits

  // The relocations of one field: __CORE_RELO with BYTE_OFFSET, BYTE_SIZE, LSHIFT_U64, RSHIFT_U64
  // and SIGNED.
  datatype Field = Field(off: nat, size: nat, lshift: nat, rshift: nat, signed: bool)

  predicate HasCase(size: nat) {
    size == 1 || size == 2 || size == 4 || size == 8
  }

  // The field lies in its storage unit, and the unit in memory.
  predicate Fits(f: Field, memLen: nat) {
    f.off + f.size <= memLen && f.size in {1, 2, 4, 8} && f.lshift <= f.rshift < 64 && 64 - f.lshift <= 8 * f.size
  }

  function Reversed(bytes: seq<Byte8>): (r: seq<Byte8>) {
    seq(|bytes|, i requires 0 <= i < |bytes| => bytes[|bytes| - 1 - i])
  }

  // The value of the bytes of an unsigned integer in memory, as an unsigned long long.
  function Load(bytes: seq<Byte8>, big: bool): (w: Word)
    ensures |w| == 64
  {
    Resize(Join(if big then Reversed(bytes) else bytes), 64)
  }

  // The bytes that a value occupies in memory, cut to `size` bytes.
  function Store(w: Word, size: nat, big: bool): (bytes: seq<Byte8>)
    requires |w| == 64 && size <= 8
    ensures |bytes| == size
  {
    seq(size, i requires 0 <= i < size =>
      var at := 8 * (if big then size - 1 - i else i);
      w[at..at + 8])
  }

  function Extract(w: Word, f: Field): Word {
    var left := Shl(w, f.lshift);
    if f.signed then Sar(left, f.rshift) else Shr(left, f.rshift)
  }

  // BPF_CORE_READ_BITFIELD: a load of 1, 2, 4 or 8 bytes, and 0 for any other size.
  function ReadDirect(mem: seq<Byte8>, f: Field, big: bool): Word
    requires f.off + f.size <= |mem|
  {
    Extract(if HasCase(f.size) then Load(mem[f.off..f.off + f.size], big) else Zeros(64), f)
  }

  // BPF_CORE_READ_BITFIELD_PROBED: the bytes are copied into a zeroed 8-byte integer, to its end
  // on a big-endian machine.
  function ReadProbed(mem: seq<Byte8>, f: Field, big: bool): Word
    requires f.off + f.size <= |mem| && f.size <= 8
  {
    var bytes := mem[f.off..f.off + f.size];
    var pad: seq<Byte8> := seq(8 - f.size, i => Zeros(8));
    Extract(Load(if big then pad + bytes else bytes + pad, big), f)
  }

  // (~0ULL << rshift) >> lshift
  function Mask(f: Field): (m: Word)
    ensures |m| == 64
  {
    Shr(Shl(Not(Zeros(64)), f.rshift), f.lshift)
  }

  function Merge(unit: Word, nval: Word, f: Field): (w: Word)
    requires |unit| == 64 && |nval| == 64 && f.lshift <= f.rshift
    ensures |w| == 64
  {
    Or(And(unit, Not(Mask(f))), And(Shl(nval, f.rshift - f.lshift), Mask(f)))
  }

  // Memory after BPF_CORE_WRITE_BITFIELD.
  function Written(mem: seq<Byte8>, f: Field, nval: Word, big: bool): (r: seq<Byte8>)
    requires Fits(f, |mem|) && |nval| == 64
    ensures |r| == |mem|
  {
    mem[..f.off]
    + Store(Merge(Load(mem[f.off..f.off + f.size], big), nval, f), f.size, big)
    + mem[f.off + f.size..]
  }

  // BPF_CORE_WRITE_BITFIELD, in place
  method WriteBitfield(mem: array<Byte8>, f: Field, nval: Word64, big: bool)
    requires Fits(f, mem.Length)
    modifies mem
    ensures mem[..] == Written(old(mem[..]), f, nval, big)
  {
    hide Load, Store;
    var rpad := f.rshift - f.lshift;
    var val := Load(mem[f.off..f.off + f.size], big);
    var mask := Shr(Shl(Not(Zeros(64)), f.rshift), f.lshift);
    val := Or(And(val, Not(mask)), And(Shl(nval, rpad), mask));
    hide And, Or, Not, Shl, Shr;
    var bytes := Store(val, f.size, big);
    forall i | 0 <= i < f.size {
      mem[f.off + i] := bytes[i];
    }
    ghost var was := old(mem[..]);
    assert was[f.off..f.off + f.size] == old(mem[f.off..f.off + f.size]);
    assert mem[f.off..f.off + f.size] == bytes;
    assert mem[..f.off] == was[..f.off] && mem[f.off + f.size..] == was[f.off + f.size..];
    assert mem[..] == mem[..f.off] + mem[f.off..f.off + f.size] + mem[f.off + f.size..];
  }

  /* ---- Where a field lies ---- */

  // The value bits that belong to the field.
  predicate InField(f: Field, i: nat) {
    f.rshift - f.lshift <= i < 64 - f.lshift
  }

  // The byte of memory that holds value bit i of the storage unit.
  function ByteOf(f: Field, i: nat, big: bool): int {
    f.off + if big then f.size - 1 - i / 8 else i / 8
  }

  lemma LoadBit(mem: seq<Byte8>, f: Field, big: bool, i: nat)
    requires f.off + f.size <= |mem| && i < 64
    ensures i < 8 * f.size ==> f.off <= ByteOf(f, i, big) < f.off + f.size
    ensures Load(mem[f.off..f.off + f.size], big)[i] == (i < 8 * f.size && mem[ByteOf(f, i, big)][i % 8])
  {
    hide Load;
    var bytes := mem[f.off..f.off + f.size];
    LoadBytes(bytes, big, i);
    if i < 8 * f.size {
      assert bytes[ByteOf(f, i, big) - f.off] == mem[ByteOf(f, i, big)];
    }
  }

  lemma LoadBytes(bytes: seq<Byte8>, big: bool, i: nat)
    requires i < 64
    ensures i < 8 * |bytes| ==> 0 <= i / 8 < |bytes|
    ensures Load(bytes, big)[i] == (i < 8 * |bytes| && bytes[if big then |bytes| - 1 - i / 8 else i / 8][i % 8])
  {
    if i < 8 * |bytes| {
      assert 0 <= i / 8 < |bytes|;
      assert big ==> Reversed(bytes)[i / 8] == bytes[|bytes| - 1 - i / 8];
    }
  }

  lemma MaskBit(f: Field, i: nat)
    requires f.lshift <= f.rshift < 64 && i < 64
    ensures Mask(f)[i] == InField(f, i)
  {
  }

  lemma MergeBit(unit: Word, nval: Word, f: Field, i: nat)
    requires |unit| == 64 && |nval| == 64 && f.lshift <= f.rshift < 64 && i < 64
    ensures Merge(unit, nval, f)[i] == if InField(f, i) then nval[i - (f.rshift - f.lshift)] else unit[i]
  {
    hide Mask;
    MaskBit(f, i);
  }

  lemma StoreBit(w: Word, size: nat, big: bool, p: nat, k: nat)
    requires |w| == 64 && size <= 8 && p < size && k < 8
    ensures Store(w, size, big)[p][k] == w[8 * (if big then size - 1 - p else p) + k]
  {
  }

  // What a write leaves in memory, bit by bit.
  lemma WrittenBit(mem: seq<Byte8>, f: Field, nval: Word, big: bool, b: nat, k: nat)
    requires Fits(f, |mem|) && |nval| == 64 && b < |mem| && k < 8
    ensures
      var i := 8 * (if big then f.off + f.size - 1 - b else b - f.off) + k;
      Written(mem, f, nval, big)[b][k]
        == if f.off <= b < f.off + f.size && InField(f, i) then nval[i - (f.rshift - f.lshift)] else mem[b][k]
  {
    hide Load, Merge, Store;
    if f.off <= b < f.off + f.size {
      var i := 8 * (if big then f.off + f.size - 1 - b else b - f.off) + k;
      var unit := Load(mem[f.off..f.off + f.size], big);
      LoadBit(mem, f, big, i);
      MergeBit(unit, nval, f, i);
      StoreBit(Merge(unit, nval, f), f.size, big, b - f.off, k);
      assert Written(mem, f, nval, big)[b] == Store(Merge(unit, nval, f), f.size, big)[b - f.off];
      assert ByteOf(f, i, big) == b && i % 8 == k;
    }
  }

  // The low `width` bits of a value, extended to 64 bits.
  function Extended(w: Word, width: nat, signed: bool): Word
    requires |w| == 64 && 0 < width <= 64
  {
    seq(64, i requires 0 <= i < 64 => if i < width then w[i] else signed && w[width - 1])
  }

  // A read takes just the field's own bits.
  lemma ReadBit(mem: seq<Byte8>, f: Field, big: bool, i: nat)
    requires Fits(f, |mem|) && i < 64
    ensures
      var rpad := f.rshift - f.lshift;
      var top := 63 - f.lshift;
      var at := if i < 64 - f.rshift then i + rpad else top;
      && 0 <= ByteOf(f, at, big) < |mem|
      && ReadDirect(mem, f, big)[i]
         == ((i < 64 - f.rshift || f.signed) && mem[ByteOf(f, at, big)][at % 8])
  {
    hide Load;
    var rpad := f.rshift - f.lshift;
    var at := if i < 64 - f.rshift then i + rpad else 63 - f.lshift;
    LoadBit(mem, f, big, at);
    var unit := Load(mem[f.off..f.off + f.size], big);
    assert ReadDirect(mem, f, big) == Extract(unit, f);
  }

  // Reading back what was written gives its low 64 - rshift bits, extended as the field is signed.
  lemma ReadAfterWrite(mem: seq<Byte8>, f: Field, nval: Word, big: bool)
    requires Fits(f, |mem|) && |nval| == 64
    ensures ReadDirect(Written(mem, f, nval, big), f, big) == Extended(nval, 64 - f.rshift, f.signed)
  {
    hide Written, ReadDirect;
    var r := Written(mem, f, nval, big);
    ReadLength(r, f, big);
    forall i | 0 <= i < 64
      ensures ReadDirect(r, f, big)[i] == Extended(nval, 64 - f.rshift, f.signed)[i]
    {
      var at := if i < 64 - f.rshift then i + (f.rshift - f.lshift) else 63 - f.lshift;
      ReadBit(r, f, big, i);
      WrittenBit(mem, f, nval, big, ByteOf(f, at, big), at % 8);
    }
  }

  lemma ReadLength(mem: seq<Byte8>, f: Field, big: bool)
    requires f.off + f.size <= |mem|
    ensures |ReadDirect(mem, f, big)| == 64
  {
  }

  // Whether two fields share a bit of memory.
  ghost predicate Overlap(f: Field, g: Field, big: bool) {
    exists i, j | 0 <= i < 64 && 0 <= j < 64 && InField(f, i) && InField(g, j) ::
      ByteOf(f, i, big) == ByteOf(g, j, big) && i % 8 == j % 8
  }

  // A write keeps every other field of the structure, even in the same or an overlapping unit.
  lemma WriteKeepsOtherFields(mem: seq<Byte8>, f: Field, g: Field, nval: Word, big: bool)
    requires Fits(f, |mem|) && Fits(g, |mem|) && |nval| == 64 && !Overlap(f, g, big)
    ensures ReadDirect(Written(mem, f, nval, big), g, big) == ReadDirect(mem, g, big)
  {
    hide Written, ReadDirect;
    var r := Written(mem, f, nval, big);
    ReadLength(r, g, big);
    ReadLength(mem, g, big);
    forall i | 0 <= i < 64
      ensures ReadDirect(r, g, big)[i] == ReadDirect(mem, g, big)[i]
    {
      var at := if i < 64 - g.rshift then i + (g.rshift - g.lshift) else 63 - g.lshift;
      ReadBit(r, g, big, i);
      ReadBit(mem, g, big, i);
      var b := ByteOf(g, at, big);
      WrittenBit(mem, f, nval, big, b, at % 8);
      if f.off <= b < f.off + f.size {
        var j := 8 * (if big then f.off + f.size - 1 - b else b - f.off) + at % 8;
        assert ByteOf(f, j, big) == b && j % 8 == at % 8;
        assert InField(g, at);
      }
    }
  }

  // Every bit outside the field, and every byte outside its storage unit, stays as it was.
  lemma WriteKeepsOtherBits(mem: seq<Byte8>, f: Field, nval: Word, big: bool, b: nat, k: nat)
    requires Fits(f, |mem|) && |nval| == 64 && b < |mem| && k < 8
    requires forall i :: 0 <= i < 64 && InField(f, i) ==> ByteOf(f, i, big) != b || i % 8 != k
    ensures Written(mem, f, nval, big)[b][k] == mem[b][k]
  {
    hide Written;
    WrittenBit(mem, f, nval, big, b, k);
    if f.off <= b < f.off + f.size {
      var i := 8 * (if big then f.off + f.size - 1 - b else b - f.off) + k;
      assert ByteOf(f, i, big) == b && i % 8 == k;
    }
  }

  // The two readers agree on every storage unit that the direct one has a case for; for any other
  // size the direct one yields 0.
  lemma ReadersAgree(mem: seq<Byte8>, f: Field, big: bool)
    requires f.off + f.size <= |mem| && f.size <= 8
    ensures f.size in {1, 2, 4, 8} ==> ReadProbed(mem, f, big) == ReadDirect(mem, f, big)
    ensures f.size !in {1, 2, 4, 8} ==> ReadDirect(mem, f, big) == Zeros(64)
  {
    hide Load;
    var bytes := mem[f.off..f.off + f.size];
    var pad: seq<Byte8> := seq(8 - f.size, i => Zeros(8));
    var padded := if big then pad + bytes else bytes + pad;
    forall i | 0 <= i < 64
      ensures Load(padded, big)[i] == Load(bytes, big)[i]
    {
      LoadBytes(padded, big, i);
      LoadBytes(bytes, big, i);
    }
    assert Load(padded, big) == Load(bytes, big);
  }
}
