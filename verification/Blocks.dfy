/** Disk blocks as bytes: the 32-bit words and the bitmap bits stored in them. */
module Blocks {

  type Byte = x: int | 0 <= x < 256

  const BSIZE := 512
  const BPB := 4096 // bitmap bits per block
  const NINDIRECT := 128 // 32-bit words per block
  const NDIRECT := 12
  const MAXFILE := 140
  const UINT := 0x1_0000_0000

  type Block = b: seq<Byte> | |b| == BSIZE witness seq(BSIZE, _ => 0)

  function Zero(): (b: Block)
    ensures forall k: nat | k < BSIZE :: b[k] == 0
  {
    seq(BSIZE, _ => 0)
  }

  // ----- Little-endian 32-bit words

  function Word(b: Block, j: nat): (w: nat)
    requires j < NINDIRECT
    ensures w < UINT
  {
    b[4 * j] as int + 0x100 * b[4 * j + 1] as int + 0x1_0000 * b[4 * j + 2] as int + 0x100_0000 * b[4 * j + 3] as int
  }

  lemma WordParts(w: nat)
    requires w < UINT
    ensures w / 0x100_0000 < 256
    ensures w % 0x100 + 0x100 * (w / 0x100 % 0x100) + 0x1_0000 * (w / 0x1_0000 % 0x100)
            + 0x100_0000 * (w / 0x100_0000) == w
  {
    var a := w / 0x100;
    var b := a / 0x100;
    assert w / 0x1_0000 == b && w / 0x100_0000 == b / 0x100;
    assert w == w % 0x100 + 0x100 * a && a == a % 0x100 + 0x100 * b && b == b % 0x100 + 0x100 * (b / 0x100);
  }

  function PutWord(b: Block, j: nat, w: nat): (r: Block)
    requires j < NINDIRECT && w < UINT
    ensures Word(r, j) == w
    ensures forall k: nat | k < NINDIRECT && k != j :: Word(r, k) == Word(b, k)
  {
    WordParts(w);
    b[4 * j := w % 0x100]
     [4 * j + 1 := w / 0x100 % 0x100]
     [4 * j + 2 := w / 0x1_0000 % 0x100]
     [4 * j + 3 := w / 0x100_0000]
  }

  lemma ZeroWords(j: nat)
    requires j < NINDIRECT
    ensures Word(Zero(), j) == 0
  {
  }

  // ----- Bits

  function Pow2(n: nat): (p: nat)
    ensures p > 0
  {
    if n == 0 then 1 else 2 * Pow2(n - 1)
  }

  /** x >> k & 1 */
  predicate HasBit(x: nat, k: nat) {
    if k == 0 then x % 2 == 1 else HasBit(x / 2, k - 1)
  }

  /** x | 1 << k */
  function OrBit(x: nat, k: nat): nat {
    if k == 0 then x / 2 * 2 + 1 else OrBit(x / 2, k - 1) * 2 + x % 2
  }

  /** x & ~(1 << k) */
  function AndNotBit(x: nat, k: nat): nat {
    if k == 0 then x / 2 * 2 else AndNotBit(x / 2, k - 1) * 2 + x % 2
  }

  lemma {:induction false} OrBitHas(x: nat, k: nat, j: nat)
    ensures HasBit(OrBit(x, k), j) <==> j == k || HasBit(x, j)
  {
    if k > 0 && j > 0 { OrBitHas(x / 2, k - 1, j - 1); }
  }

  lemma {:induction false} AndNotBitHas(x: nat, k: nat, j: nat)
    ensures HasBit(AndNotBit(x, k), j) <==> j != k && HasBit(x, j)
  {
    if k > 0 && j > 0 { AndNotBitHas(x / 2, k - 1, j - 1); }
  }

  lemma {:induction false} BitsInRange(x: nat, k: nat, n: nat)
    requires k < n && x < Pow2(n)
    ensures OrBit(x, k) < Pow2(n) && AndNotBit(x, k) < Pow2(n)
  {
    var p := Pow2(n - 1);
    assert Pow2(n) == 2 * p && x / 2 * 2 + 1 < 2 * p;
    if k > 0 {
      BitsInRange(x / 2, k - 1, n - 1);
      assert OrBit(x, k) == OrBit(x / 2, k - 1) * 2 + x % 2 && AndNotBit(x, k) == AndNotBit(x / 2, k - 1) * 2 + x % 2;
    }
  }

  /** The low n bits of a number and the bits above them. */
  lemma {:induction false} SplitBits(lo: nat, hi: nat, n: nat, k: nat)
    requires lo < Pow2(n)
    ensures HasBit(lo + Pow2(n) * hi, k) <==> if k < n then HasBit(lo, k) else HasBit(hi, k - n)
  {
    if n > 0 {
      assert lo + Pow2(n) * hi == lo + 2 * (Pow2(n - 1) * hi);
      assert (lo + Pow2(n) * hi) / 2 == lo / 2 + Pow2(n - 1) * hi;
      if k > 0 { SplitBits(lo / 2, hi, n - 1, k - 1); }
    }
  }

  // ----- Bitmap bits of a block, byte by byte as the kernel and mkfs see them

  /** data[bi/8] & 1 << bi%8 */
  predicate BlockBit(b: Block, bi: nat)
    requires bi < BPB
  {
    HasBit(b[bi / 8], bi % 8)
  }

  function WithBit(b: Block, bi: nat): (r: Block)
    requires bi < BPB
    ensures forall j: nat | j < BPB :: BlockBit(r, j) <==> j == bi || BlockBit(b, j)
  {
    BitsOfByte(b[bi / 8], bi % 8);
    b[bi / 8 := OrBit(b[bi / 8], bi % 8)]
  }

  function WithoutBit(b: Block, bi: nat): (r: Block)
    requires bi < BPB
    ensures forall j: nat | j < BPB :: BlockBit(r, j) <==> j != bi && BlockBit(b, j)
  {
    BitsOfByte(b[bi / 8], bi % 8);
    b[bi / 8 := AndNotBit(b[bi / 8], bi % 8)]
  }

  lemma BitsOfByte(x: Byte, k: nat)
    requires k < 8
    ensures OrBit(x, k) < 256 && AndNotBit(x, k) < 256
    ensures forall j: nat :: HasBit(OrBit(x, k), j) <==> j == k || HasBit(x, j)
    ensures forall j: nat :: HasBit(AndNotBit(x, k), j) <==> j != k && HasBit(x, j)
  {
    assert Pow2(8) == 256;
    BitsInRange(x, k, 8);
    forall j: nat
      ensures HasBit(OrBit(x, k), j) <==> j == k || HasBit(x, j)
      ensures HasBit(AndNotBit(x, k), j) <==> j != k && HasBit(x, j)
    {
      OrBitHas(x, k, j);
      AndNotBitHas(x, k, j);
    }
  }

  /** ... and the same bit in the 32-bit word that fscheck tests. */
  lemma WordBit(b: Block, bi: nat)
    requires bi < BPB
    ensures HasBit(Word(b, bi / 32), bi % 32) <==> BlockBit(b, bi)
  {
    var j, k := bi / 32, bi % 32;
    BytesBit(b[4 * j], b[4 * j + 1], b[4 * j + 2], b[4 * j + 3], k);
    assert Pow2(8) == 256;
    assert bi / 8 == 4 * j + k / 8 && bi % 8 == k % 8;
  }

  /** A bit of a little-endian word is a bit of one of its bytes. */
  lemma BytesBit(b0: nat, b1: nat, b2: nat, b3: nat, k: nat)
    requires b0 < 256 && b1 < 256 && b2 < 256 && b3 < 256 && k < 32
    ensures HasBit(b0 + Pow2(8) * (b1 + Pow2(8) * (b2 + Pow2(8) * b3)), k)
       <==> HasBit(if k < 8 then b0 else if k < 16 then b1 else if k < 24 then b2 else b3, k % 8)
  {
    assert Pow2(8) == 256;
    SplitBits(b0, b1 + Pow2(8) * (b2 + Pow2(8) * b3), 8, k);
    if k >= 8 { SplitBits(b1, b2 + Pow2(8) * b3, 8, k - 8); }
    if k >= 16 { SplitBits(b2, b3, 8, k - 16); }
  }
}
