/** Disk blocks as byte strings, and the two views the kernel takes of them:
    little-endian 32-bit words (log header, indirect blocks) and single bits (free map). */
module Blocks {
  import opened Basics

  const BSIZE: nat := 512
  const WORDS: nat := 128  // 32-bit words in a block: NINDIRECT
  const BPB: nat := 4096   // bitmap bits in a block

  type byte = x: int | 0 <= x < 256
  type Block = b: seq<byte> | |b| == BSIZE witness seq(512, _ => 0)

  function Zeros(): (b: Block)
    ensures forall k :: 0 <= k < BSIZE ==> b[k] == 0
  {
    seq(BSIZE, _ => 0)
  }

  /** `n` bytes from `i` on, least significant first. */
  function Number(b: Block, i: nat, n: nat): (w: nat)
    requires i + n <= BSIZE
    ensures w < Limit(n)
    decreases n
  {
    if n == 0 then 0 else b[i] as int + 0x100 * Number(b, i + 1, n - 1)
  }

  function Limit(n: nat): (m: nat) {
    if n == 0 then 1 else 0x100 * Limit(n - 1)
  }

  function PutNumber(b: Block, i: nat, n: nat, w: nat): (r: Block)
    requires i + n <= BSIZE
    ensures forall k :: 0 <= k < BSIZE && !(i <= k < i + n) ==> r[k] == b[k]
    decreases n
  {
    if n == 0 then b else PutNumber(b, i + 1, n - 1, w / 0x100)[i := w % 0x100]
  }

  lemma {:induction false} NumberFrame(b: Block, c: Block, i: nat, n: nat)
    requires i + n <= BSIZE && forall k :: i <= k < i + n ==> b[k] == c[k]
    ensures Number(b, i, n) == Number(c, i, n)
    decreases n
  {
    if n > 0 { NumberFrame(b, c, i + 1, n - 1); }
  }

  lemma {:induction false} PutNumberReads(b: Block, i: nat, n: nat, w: nat)
    requires i + n <= BSIZE && w < Limit(n)
    ensures Number(PutNumber(b, i, n, w), i, n) == w
    decreases n
  {
    if n > 0 {
      PutNumberReads(b, i + 1, n - 1, w / 0x100);
      NumberFrame(PutNumber(b, i, n, w), PutNumber(b, i + 1, n - 1, w / 0x100), i + 1, n - 1);
    }
  }

  lemma WordLimit()
    ensures Limit(4) == UINT
  {
  }

  /** The `j`th word of a block, as `((uint*)data)[j]` reads it on x86. */
  function Word(b: Block, j: nat): (w: nat)
    requires j < WORDS
    ensures w < UINT
  {
    WordLimit();
    Number(b, 4 * j, 4)
  }

  /** Least significant byte first. */
  lemma WordBytes(b: Block, j: nat)
    requires j < WORDS
    ensures Word(b, j) == b[4 * j] as int + 0x100 * b[4 * j + 1] as int + 0x1_0000 * b[4 * j + 2] as int
      + 0x100_0000 * b[4 * j + 3] as int
  {
    assert Number(b, 4 * j + 4, 0) == 0;
    assert Number(b, 4 * j + 3, 1) == b[4 * j + 3] as int;
    assert Number(b, 4 * j + 2, 2) == b[4 * j + 2] as int + 0x100 * Number(b, 4 * j + 3, 1);
    assert Number(b, 4 * j + 1, 3) == b[4 * j + 1] as int + 0x100 * Number(b, 4 * j + 2, 2);
  }

  function PutWord(b: Block, j: nat, w: nat): (r: Block)
    requires j < WORDS && w < UINT
    ensures Word(r, j) == w
    ensures forall k: nat :: k < WORDS && k != j ==> Word(r, k) == Word(b, k)
  {
    WordLimit();
    PutNumberReads(b, 4 * j, 4, w);
    var r := PutNumber(b, 4 * j, 4, w);
    assert forall k: nat :: k < WORDS && k != j ==> Word(r, k) == Word(b, k) by {
      forall k: nat | k < WORDS && k != j ensures Word(r, k) == Word(b, k) {
        NumberFrame(r, b, 4 * k, 4);
      }
    }
    r
  }

  lemma {:induction false} ZeroNumber(i: nat, n: nat)
    requires i + n <= BSIZE
    ensures Number(Zeros(), i, n) == 0
    decreases n
  {
    if n > 0 { ZeroNumber(i + 1, n - 1); }
  }

  lemma ZeroWord(j: nat)
    requires j < WORDS
    ensures Word(Zeros(), j) == 0
  {
  }

  /** The mask `1 << k`. */
  function Mask(k: nat): (m: nat)
    ensures m > 0
  {
    if k == 0 then 1 else 2 * Mask(k - 1)
  }

  /** Bit `k` of a number: `(x >> k) & 1`, equivalently `(x & (1 << k)) != 0`. */
  predicate NumBit(x: nat, k: nat) {
    if k == 0 then x % 2 == 1 else NumBit(x / 2, k - 1)
  }

  /** Adding the mask of a clear bit sets that bit, changes no other and does not carry out of `n` bits. */
  lemma {:induction false} SetNumBit(x: nat, k: nat, n: nat)
    requires k < n && x < Mask(n) && !NumBit(x, k)
    ensures x + Mask(k) < Mask(n)
    ensures forall j: nat :: NumBit(x + Mask(k), j) <==> NumBit(x, j) || j == k
  {
    if k > 0 {
      SetNumBit(x / 2, k - 1, n - 1);
      assert (x + Mask(k)) / 2 == x / 2 + Mask(k - 1);
    }
  }

  /** Subtracting the mask of a set bit clears that bit and changes no other. */
  lemma {:induction false} ClearNumBit(x: nat, k: nat)
    requires NumBit(x, k)
    ensures x >= Mask(k)
    ensures forall j: nat :: NumBit(x - Mask(k), j) <==> NumBit(x, j) && j != k
  {
    if k > 0 {
      ClearNumBit(x / 2, k - 1);
      assert (x - Mask(k)) / 2 == x / 2 - Mask(k - 1);
    }
  }

  /** Bit `i` of a bitmap block: `data[i/8] & (1 << (i % 8))`. */
  predicate Bit(b: Block, i: nat)
    requires i < BPB
  {
    NumBit(b[i / 8], i % 8)
  }

  /** The first bit of a byte is its lowest. */
  lemma BitOfByte(b: Block, i: nat)
    requires i < BPB
    ensures Bit(b, i) <==> b[i / 8] / [1, 2, 4, 8, 16, 32, 64, 128][i % 8] % 2 == 1
  {
    var x := b[i / 8];
    Halves(x, i % 8);
  }

  lemma {:induction false} Halves(x: nat, k: nat)
    requires k < 8
    ensures NumBit(x, k) <==> x / [1, 2, 4, 8, 16, 32, 64, 128][k] % 2 == 1
    decreases k
  {
    if k > 0 {
      Halves(x / 2, k - 1);
      var p := [1, 2, 4, 8, 16, 32, 64, 128];
      assert p[k] == 2 * p[k - 1];
    }
  }

  function SetBit(b: Block, i: nat): (r: Block)
    requires i < BPB && !Bit(b, i)
    ensures forall j: nat :: j < BPB ==> (Bit(r, j) <==> Bit(b, j) || j == i)
  {
    assert Mask(8) == 256;
    SetNumBit(b[i / 8], i % 8, 8);
    var r := b[i / 8 := b[i / 8] + Mask(i % 8)];
    assert forall j: nat | j < BPB && j / 8 == i / 8 && j != i :: j % 8 != i % 8;
    r
  }

  function ClearBit(b: Block, i: nat): (r: Block)
    requires i < BPB && Bit(b, i)
    ensures forall j: nat :: j < BPB ==> (Bit(r, j) <==> Bit(b, j) && j != i)
  {
    ClearNumBit(b[i / 8], i % 8);
    var r := b[i / 8 := b[i / 8] - Mask(i % 8)];
    assert forall j: nat | j < BPB && j / 8 == i / 8 && j != i :: j % 8 != i % 8;
    r
  }
}
