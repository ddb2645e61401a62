/** Disk blocks as the kernel sees them: BSIZE bytes, also read and written as an
    array of little-endian 32-bit words (log header, indirect block) and as an
    array of bits (free map). */
module Blocks {

  const BSIZE := 1024
  const WORDS := 256
  const UINT32 := 0x1_0000_0000

  type byte = x: int | 0 <= x < 256

  type Block = b: seq<byte> | |b| == BSIZE witness seq(BSIZE, i => 0)

  function ZeroBlock(): (b: Block) {
    seq(BSIZE, i => 0)
  }

  /** `((uint*)b)[i]` */
  function GetWord(b: Block, i: nat): (w: nat)
    requires i < WORDS
    ensures w < UINT32
  {
    b[4*i] as int + 0x100 * (b[4*i+1] as int) + 0x1_0000 * (b[4*i+2] as int) + 0x100_0000 * (b[4*i+3] as int)
  }

  /** A word is the sum of its four bytes. */
  lemma FourBytes(w: nat)
    requires w < UINT32
    ensures w == w % 0x100 + 0x100 * (w / 0x100 % 0x100) + 0x1_0000 * (w / 0x1_0000 % 0x100) + 0x100_0000 * (w / 0x100_0000)
    ensures w / 0x100_0000 < 0x100
  {
    assert w / 0x1_0000 == w / 0x100 / 0x100;
    assert w / 0x100_0000 == w / 0x1_0000 / 0x100;
  }

  /** `((uint*)b)[i] = w` */
  function SetWord(b: Block, i: nat, w: nat): (b': Block)
    requires i < WORDS
    requires w < UINT32
    ensures GetWord(b', i) == w
    ensures forall j | 0 <= j < WORDS && j != i :: GetWord(b', j) == GetWord(b, j)
  {
    FourBytes(w);
    b[4*i := w % 0x100][4*i+1 := w / 0x100 % 0x100][4*i+2 := w / 0x1_0000 % 0x100][4*i+3 := w / 0x100_0000]
  }

  /** 2^n */
  function Pow2(n: nat): (p: nat)
    ensures p > 0
  {
    if n == 0 then 1 else 2 * Pow2(n - 1)
  }

  /** `(x & (1 << k)) != 0` */
  predicate GetBit(x: nat, k: nat) {
    if k == 0 then x % 2 == 1 else GetBit(x / 2, k - 1)
  }

  /** `x | (1 << k)` when `v`, `x & ~(1 << k)` otherwise. */
  function PutBit(x: nat, k: nat, v: bool): (y: nat)
    ensures GetBit(y, k) == v
  {
    if k == 0 then x / 2 * 2 + (if v then 1 else 0)
    else PutBit(x / 2, k - 1, v) * 2 + x % 2
  }

  /** Changing one bit changes no other bit. */
  lemma {:induction false} PutBitOther(x: nat, k: nat, v: bool, j: nat)
    requires j != k
    ensures GetBit(PutBit(x, k, v), j) == GetBit(x, j)
  {
    var y := PutBit(x, k, v);
    if k == 0 {
      assert y / 2 == x / 2;
    } else {
      assert y / 2 == PutBit(x / 2, k - 1, v) && y % 2 == x % 2;
    }
    if k != 0 && j != 0 {
      PutBitOther(x / 2, k - 1, v, j - 1);
    }
  }

  /** Changing one of the low n bits of an n-bit number yields an n-bit number. */
  lemma {:induction false} PutBitBound(x: nat, k: nat, v: bool, n: nat)
    requires k < n && x < Pow2(n)
    ensures PutBit(x, k, v) < Pow2(n)
  {
    var p, h := Pow2(n - 1), x / 2;
    assert x == 2 * h + x % 2;
    assert h < p;
    if k != 0 {
      PutBitBound(h, k - 1, v, n - 1);
      assert PutBit(x, k, v) == PutBit(h, k - 1, v) * 2 + x % 2;
    }
  }
}
