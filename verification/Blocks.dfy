/** Disk blocks as bytes, and the three ways the file system reads them: as little-endian
    32-bit words (log header, indirect block), as single bits (free map) and as plain bytes
    (file content).  Each access is a get/put pair that obeys the usual get-after-put laws. */
module Blocks {

  const BSIZE: nat := 1024
  /** Words in a block, `BSIZE / sizeof(uint)`. */
  const WORDS: nat := 256
  /** Bits in a block, `BSIZE * 8`. */
  const BPB: nat := 8192

  type Byte = x: int | 0 <= x < 256
  /** A C `uint`. */
  type Uint = x: int | 0 <= x < 0x1_0000_0000

  type Block = b: seq<Byte> | |b| == BSIZE witness seq(BSIZE, _ => 0)

  function ZeroBlock(): (b: Block)
    ensures forall i | 0 <= i < BSIZE :: b[i] == 0
  {
    seq(BSIZE, _ => 0)
  }

  // Words.

  function Word(b: Block, i: nat): (w: Uint)
    requires i < WORDS
  {
    var d0: int, d1: int, d2: int, d3: int := b[4 * i], b[4 * i + 1], b[4 * i + 2], b[4 * i + 3];
    d0 + 0x100 * d1 + 0x1_0000 * d2 + 0x100_0000 * d3
  }

  function WordBytes(w: Uint): (bytes: seq<Byte>)
    ensures |bytes| == 4
  {
    [w % 0x100, w / 0x100 % 0x100, w / 0x1_0000 % 0x100, w / 0x100_0000]
  }

  function PutWord(b: Block, i: nat, w: Uint): (b': Block)
    requires i < WORDS
  {
    b[..4 * i] + WordBytes(w) + b[4 * i + 4..]
  }

  lemma DigitsOfWord(w: Uint)
    ensures w == w % 0x100 + 0x100 * (w / 0x100 % 0x100)
                 + 0x1_0000 * (w / 0x1_0000 % 0x100) + 0x100_0000 * (w / 0x100_0000)
  {
    var q1 := w / 0x100;
    var q2 := w / 0x1_0000;
    var q3 := w / 0x100_0000;
    assert q2 == q1 / 0x100;
    assert q3 == q2 / 0x100;
  }

  lemma WordPut(b: Block, i: nat, w: Uint, j: nat)
    requires i < WORDS && j < WORDS
    ensures Word(PutWord(b, i, w), j) == if i == j then w else Word(b, j)
  {
    DigitsOfWord(w);
    var b' := PutWord(b, i, w);
    if i == j {
      assert b'[4 * i..4 * i + 4] == WordBytes(w);
    } else {
      assert b'[4 * j..4 * j + 4] == b[4 * j..4 * j + 4];
    }
  }

  lemma ZeroWord(i: nat)
    requires i < WORDS
    ensures Word(ZeroBlock(), i) == 0
  {
  }

  // Bits.

  function Pow2(n: nat): (p: nat)
    ensures p > 0
  {
    if n == 0 then 1 else 2 * Pow2(n - 1)
  }

  /** `x & (1 << k)` is non-zero. */
  predicate NatBit(x: nat, k: nat) {
    if k == 0 then x % 2 == 1 else NatBit(x / 2, k - 1)
  }

  /** `x | (1 << k)`, or `x & ~(1 << k)`. */
  function PutNatBit(x: nat, k: nat, on: bool): (y: nat) {
    if k == 0 then x - x % 2 + (if on then 1 else 0)
    else x % 2 + 2 * PutNatBit(x / 2, k - 1, on)
  }

  lemma {:induction false} NatBitPut(x: nat, k: nat, on: bool, j: nat)
    ensures NatBit(PutNatBit(x, k, on), j) == if j == k then on else NatBit(x, j)
  {
    var y := PutNatBit(x, k, on);
    if k == 0 {
      assert y / 2 == x / 2;
    } else {
      assert y % 2 == x % 2 && y / 2 == PutNatBit(x / 2, k - 1, on);
      if j > 0 {
        NatBitPut(x / 2, k - 1, on, j - 1);
      }
    }
  }

  lemma {:induction false} PutNatBitBound(x: nat, k: nat, on: bool, width: nat)
    requires x < Pow2(width) && k < width
    ensures PutNatBit(x, k, on) < Pow2(width)
  {
    if k > 0 {
      PutNatBitBound(x / 2, k - 1, on, width - 1);
    }
  }

  lemma ByteWidth()
    ensures Pow2(8) == 256
  {
    assert Pow2(4) == 16;
  }

  predicate Bit(b: Block, i: nat)
    requires i < BPB
  {
    NatBit(b[i / 8], i % 8)
  }

  function PutBit(b: Block, i: nat, on: bool): (b': Block)
    requires i < BPB
  {
    ByteWidth();
    PutNatBitBound(b[i / 8], i % 8, on, 8);
    b[i / 8 := PutNatBit(b[i / 8], i % 8, on)]
  }

  lemma BitPut(b: Block, i: nat, on: bool, j: nat)
    requires i < BPB && j < BPB
    ensures Bit(PutBit(b, i, on), j) == if i == j then on else Bit(b, j)
  {
    assert i == 8 * (i / 8) + i % 8;
    assert j == 8 * (j / 8) + j % 8;
    NatBitPut(b[i / 8], i % 8, on, j % 8);
  }

  // Bytes.

  /** `memmove(b + at, src, |src|)`. */
  function PutBytes(b: Block, at: nat, src: seq<Byte>): (b': Block)
    requires at + |src| <= BSIZE
    ensures forall k | 0 <= k < BSIZE :: b'[k] == if at <= k < at + |src| then src[k - at] else b[k]
  {
    b[..at] + src + b[at + |src|..]
  }

  /** Positions in one block of a file. */
  lemma SameBlock(off: nat, k: nat)
    requires off % BSIZE + k < BSIZE
    ensures (off + k) / BSIZE == off / BSIZE && (off + k) % BSIZE == off % BSIZE + k
  {
  }

  lemma SameBlockOnly(off: nat, len: nat, p: nat)
    requires p / BSIZE == off / BSIZE && !(off <= p < off + len)
    ensures !(off % BSIZE <= p % BSIZE < off % BSIZE + len)
  {
  }

  /** Bits in one block of the free map. */
  lemma SameMapBlock(q: nat, bi: nat)
    requires bi < BPB
    ensures (q * BPB + bi) / BPB == q && (q * BPB + bi) % BPB == bi
  {
  }
}
