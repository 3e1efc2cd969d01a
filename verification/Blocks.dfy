/** Disk blocks: 512 bytes, also read as 128 little-endian 32-bit words and as
    4096 bits.  Log headers, indirect blocks and disk inodes are word views,
    the free map is a bit view, file contents are the bytes themselves. */
module Blocks {
  import opened Machine

  const BSIZE := 512
  const NWORDS := 128
  const BPB := 4096

  type Block = b: seq<byte> | |b| == BSIZE witness seq(BSIZE, _ => 0)

  /** The block that memset(bp->data, 0, BSIZE) leaves. */
  function ZeroBlock(): (b: Block)
    ensures forall k :: 0 <= k < BSIZE ==> b[k] == 0
  {
    seq(BSIZE, _ => 0)
  }

  /** The number four bytes spell, least significant first. */
  function LittleEndian(b0: byte, b1: byte, b2: byte, b3: byte): uint32
  {
    (b0 as int) + 0x100 * (b1 as int) + 0x1_0000 * (b2 as int) + 0x100_0000 * (b3 as int)
  }

  lemma SplitWord(w: uint32)
    ensures LittleEndian(w % 0x100, w / 0x100 % 0x100, w / 0x1_0000 % 0x100, w / 0x100_0000) == w
  {
    assert w / 0x100 / 0x100 == w / 0x1_0000;
    assert w / 0x1_0000 / 0x100 == w / 0x100_0000;
  }

  /** Word i of a block. */
  function Word(b: Block, i: nat): uint32
    requires i < NWORDS
  {
    LittleEndian(b[4 * i], b[4 * i + 1], b[4 * i + 2], b[4 * i + 3])
  }

  /** Store w as word i: that word reads back as w, all others are untouched. */
  function SetWord(b: Block, i: nat, w: uint32): (r: Block)
    requires i < NWORDS
    ensures Word(r, i) == w
    ensures forall j :: 0 <= j < NWORDS && j != i ==> Word(r, j) == Word(b, j)
  {
    SplitWord(w);
    b[4 * i := w % 0x100]
     [4 * i + 1 := w / 0x100 % 0x100]
     [4 * i + 2 := w / 0x1_0000 % 0x100]
     [4 * i + 3 := w / 0x100_0000]
  }

  /** Is bit k of x set, as x & (1 << k) tests it? */
  predicate NatBit(x: nat, k: nat)
  {
    if k == 0 then x % 2 == 1 else NatBit(x / 2, k - 1)
  }

  function Pow2(n: nat): nat
  {
    if n == 0 then 1 else 2 * Pow2(n - 1)
  }

  /** x with bit k forced to v, the low n bits wide: x | (1 << k) or x & ~(1 << k). */
  function PutNatBit(x: nat, k: nat, v: bool, n: nat): (y: nat)
    requires k < n && x < Pow2(n)
    ensures y < Pow2(n)
    ensures NatBit(y, k) == v
    ensures forall j: nat :: j != k ==> NatBit(y, j) == NatBit(x, j)
  {
    if k == 0 then x - x % 2 + (if v then 1 else 0)
    else 2 * PutNatBit(x / 2, k - 1, v, n - 1) + x % 2
  }

  function PutByteBit(x: byte, k: nat, v: bool): (y: byte)
    requires k < 8
    ensures NatBit(y, k) == v
    ensures forall j: nat :: j != k ==> NatBit(y, j) == NatBit(x, j)
  {
    assert Pow2(8) == 256;
    PutNatBit(x, k, v, 8)
  }

  /** Bit i of a block: bit i % 8 of byte i / 8. */
  predicate Bit(b: Block, i: nat)
    requires i < BPB
  {
    NatBit(b[i / 8], i % 8)
  }

  /** Bit i forced to v, all others untouched. */
  function PutBit(b: Block, i: nat, v: bool): (r: Block)
    requires i < BPB
    ensures Bit(r, i) == v
    ensures forall j :: 0 <= j < BPB && j != i ==> Bit(r, j) == Bit(b, j)
  {
    b[i / 8 := PutByteBit(b[i / 8], i % 8, v)]
  }
}
