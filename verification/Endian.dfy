/** The byte-swapping macros of ebpf/headers/bpf/bpf_endian.h. */
module Endian {
  import opened Bits

  // ___bpf_mvb(x, b, n, m). C promotes a 16-bit operand to a 32-bit int before shifting it, so x may
  // be wider than b.
  function Mvb(x: Word, b: nat, n: nat, m: nat): Word
    requires (n + 1) * 8 <= b
  {
    Shl(Shr(Shl(x, b - (n + 1) * 8), b - 8), m * 8)
  }

  function Swab16(x: Word): Word
    requires |x| == 16
  {
    var p := Resize(x, 32);
    Resize(Or(Mvb(p, 16, 0, 1), Mvb(p, 16, 1, 0)), 16)
  }

  function Swab32(x: Word): Word
    requires |x| == 32
  {
    Or(Or(Or(Mvb(x, 32, 0, 3), Mvb(x, 32, 1, 2)), Mvb(x, 32, 2, 1)), Mvb(x, 32, 3, 0))
  }

  function Swab64(x: Word): Word
    requires |x| == 64
  {
    Or(Or(Or(Or(Or(Or(Or(
      Mvb(x, 64, 0, 7), Mvb(x, 64, 1, 6)), Mvb(x, 64, 2, 5)), Mvb(x, 64, 3, 4)),
      Mvb(x, 64, 4, 3)), Mvb(x, 64, 5, 2)), Mvb(x, 64, 6, 1)), Mvb(x, 64, 7, 0))
  }

  // On an operand of its own width the macro isolates byte n and puts it into byte m.
  lemma MvbMovesOneByte(x: Word, n: nat, m: nat)
    requires |x| % 8 == 0 && n < |x| / 8 && m < |x| / 8
    ensures |Mvb(x, |x|, n, m)| == |x|
    ensures forall i :: 0 <= i < |x| ==> Mvb(x, |x|, n, m)[i] == (i / 8 == m && x[8 * n + i % 8])
  {
    var b := |x|;
    var isolated := Shr(Shl(x, b - (n + 1) * 8), b - 8);
    forall i | 0 <= i < b
      ensures isolated[i] == (i < 8 && x[8 * n + i])
    {
      if i < 8 {
        assert i + (b - 8) < b && i + (b - 8) >= b - (n + 1) * 8;
        assert i + (b - 8) - (b - (n + 1) * 8) == 8 * n + i;
      }
    }
    forall i | 0 <= i < b
      ensures Mvb(x, b, n, m)[i] == (i / 8 == m && x[8 * n + i % 8])
    {
      if i >= m * 8 {
        assert i - m * 8 < 8 <==> i / 8 == m;
      }
    }
  }

  // Each macro reverses the bytes of its operand; the 16-bit one needs its final cast for that,
  // since the promoted operand keeps its high byte when it is shifted left.
  lemma Swab16Reverses(x: Word)
    requires |x| == 16
    ensures Swab16(x) == ReverseBytes(x)
    ensures Swab16(Swab16(x)) == x
  {
    Swab16Bits(x);
    Swab16Bits(Swab16(x));
    ReverseTwice(x);
  }

  lemma Swab16Bits(x: Word)
    requires |x| == 16
    ensures Swab16(x) == ReverseBytes(x)
  {
    var p := Resize(x, 32);
    forall i | 0 <= i < 16
      ensures Swab16(x)[i] == ReverseBytes(x)[i]
    {
      assert Mvb(p, 16, 0, 1)[i] == (i >= 8 && x[i - 8]);
      assert Mvb(p, 16, 1, 0)[i] == (i < 8 && x[i + 8]);
    }
  }

  lemma Swab32Bits(x: Word)
    requires |x| == 32
    ensures Swab32(x) == ReverseBytes(x)
  {
    MvbMovesOneByte(x, 0, 3);
    MvbMovesOneByte(x, 1, 2);
    MvbMovesOneByte(x, 2, 1);
    MvbMovesOneByte(x, 3, 0);
    hide Mvb;
  }

  lemma Swab32Reverses(x: Word)
    requires |x| == 32
    ensures Swab32(x) == ReverseBytes(x)
    ensures Swab32(Swab32(x)) == x
  {
    hide Swab32;
    Swab32Bits(x);
    ReverseTwice(x);
    Swab32Bits(ReverseBytes(x));
  }

  lemma Swab64Bits(x: Word)
    requires |x| == 64
    ensures Swab64(x) == ReverseBytes(x)
  {
    MvbMovesOneByte(x, 0, 7);
    MvbMovesOneByte(x, 1, 6);
    MvbMovesOneByte(x, 2, 5);
    MvbMovesOneByte(x, 3, 4);
    MvbMovesOneByte(x, 4, 3);
    MvbMovesOneByte(x, 5, 2);
    MvbMovesOneByte(x, 6, 1);
    MvbMovesOneByte(x, 7, 0);
    hide Mvb;
    forall i | 0 <= i < 64
      ensures Swab64(x)[i] == ReverseBytes(x)[i]
    {
      var byte := i / 8;
      assert byte == 0 || byte == 1 || byte == 2 || byte == 3 || byte == 4 || byte == 5 || byte == 6 || byte == 7;
      assert Mirror(64, i) == 8 * (7 - byte) + i % 8;
    }
  }

  lemma Swab64Reverses(x: Word)
    requires |x| == 64
    ensures Swab64(x) == ReverseBytes(x)
    ensures Swab64(Swab64(x)) == x
  {
    hide Swab64;
    Swab64Bits(x);
    ReverseTwice(x);
    Swab64Bits(ReverseBytes(x));
  }
}
