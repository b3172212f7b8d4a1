/** Machine words as sequences of bits, the least significant bit first, with C's shifts and masks. */
module Bits {
  type Word = seq<bool>
  type Word64 = w: seq<bool> | |w| == 64 witness seq(64, i => false)
  type Byte8 = b: seq<bool> | |b| == 8 witness seq(8, i => false)

  function Zeros(n: nat): (w: Word) {
    seq(n, i => false)
  }

  function Not(w: Word): Word {
    seq(|w|, i requires 0 <= i < |w| => !w[i])
  }

  function And(v: Word, w: Word): Word
    requires |v| == |w|
  {
    seq(|v|, i requires 0 <= i < |v| => v[i] && w[i])
  }

  function Or(v: Word, w: Word): Word
    requires |v| == |w|
  {
    seq(|v|, i requires 0 <= i < |v| => v[i] || w[i])
  }

  function Shl(w: Word, k: nat): Word {
    seq(|w|, i requires 0 <= i < |w| => i >= k && w[i - k])
  }

  // The shift of an unsigned word.
  function Shr(w: Word, k: nat): Word {
    seq(|w|, i requires 0 <= i < |w| => i + k < |w| && w[i + k])
  }

  // The shift of a signed word: the sign bit moves in from the left.
  function Sar(w: Word, k: nat): Word {
    seq(|w|, i requires 0 <= i < |w| => if i + k < |w| then w[i + k] else w[|w| - 1])
  }

  // Zero-extend or cut to n bits.
  function Resize(w: Word, n: nat): (r: Word) {
    seq(n, i requires 0 <= i < n => i < |w| && w[i])
  }

  // Bytes laid out one after another, the first one lowest.
  function Join(bytes: seq<Byte8>): Word {
    seq(8 * |bytes|, i requires 0 <= i < 8 * |bytes| => bytes[i / 8][i % 8])
  }

  function ReverseBytes(w: Word): Word
    requires |w| % 8 == 0
  {
    seq(|w|, i requires 0 <= i < |w| => w[Mirror(|w|, i)])
  }

  // The place of bit i once the bytes of an n-bit word are reversed.
  function Mirror(n: nat, i: nat): (j: nat)
    requires n % 8 == 0 && i < n
    ensures j < n && j % 8 == i % 8 && j / 8 == n / 8 - 1 - i / 8
  {
    (n / 8 - 1 - i / 8) * 8 + i % 8
  }

  lemma ReverseTwice(w: Word)
    requires |w| % 8 == 0
    ensures ReverseBytes(ReverseBytes(w)) == w
  {
    forall i | 0 <= i < |w|
      ensures Mirror(|w|, Mirror(|w|, i)) == i
    {
    }
  }
}
