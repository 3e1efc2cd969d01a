/** The on-disk layout of fs.h and the pointers of an inode: twelve direct ones
    and one indirect block of 128, plus who owns each block. */
module FileLayout {
  import opened Blocks
  import opened Machine

  const NDIRECT := 12
  const NINDIRECT := 128
  const MAXFILE := 140
  const INDIRECT := 140      // slot of the indirect block itself, after the 140 data slots
  const IPB := 8             // inodes per block
  const T_DEV := 3

  /** The super block, as mkfs computes it. */
  datatype Super = Super(size: nat, nblocks: nat, ninodes: nat, inodestart: nat, bmapstart: nat) {
    function DataStart(): int {
      size - nblocks
    }

    predicate Valid() {
      && size < UINT_RANGE
      && 2 <= inodestart
      && inodestart + ninodes / IPB + 1 <= bmapstart
      && bmapstart + size / BPB + 1 <= DataStart()
    }

    /** Block containing inode i. */
    function Iblock(i: nat): nat {
      i / IPB + inodestart
    }

    /** Block of the free map containing the bit for block b. */
    function Bblock(b: nat): nat {
      b / BPB + bmapstart
    }
  }

  /** struct inode, without the cache's own bookkeeping. */
  datatype InodeFields = Inode(
    typ: uint16, major: uint16, minor: uint16, nlink: uint16, size: uint32, addrs: seq<uint32>)

  type Inode = ip: InodeFields | |ip.addrs| == NDIRECT + 1
    witness Inode(0, 0, 0, 0, 0, seq(NDIRECT + 1, _ => 0))

  // ---- Disk inodes: sixteen words each ----

  function Fields(ip: Inode): (ws: seq<uint32>)
    ensures |ws| == 16
  {
    [ip.typ + 0x1_0000 * ip.major, ip.minor + 0x1_0000 * ip.nlink, ip.size] + ip.addrs
  }

  function FromFields(ws: seq<uint32>): (ip: Inode)
    requires |ws| == 16
  {
    Inode(ws[0] % 0x1_0000, ws[0] / 0x1_0000, ws[1] % 0x1_0000, ws[1] / 0x1_0000, ws[2], ws[3..])
  }

  lemma FieldsRoundTrip(ip: Inode)
    ensures FromFields(Fields(ip)) == ip
  {
    assert Fields(ip)[3..] == ip.addrs;
  }

  /** Words base, base + 1, ... of b overwritten with the first n of ws. */
  function PutWords(b: Block, base: nat, ws: seq<uint32>, n: nat): (r: Block)
    requires base + |ws| <= NWORDS && n <= |ws|
    ensures forall i :: base <= i < base + n ==> Word(r, i) == ws[i - base]
    ensures forall i :: 0 <= i < NWORDS && !(base <= i < base + n) ==> Word(r, i) == Word(b, i)
  {
    if n == 0 then b else SetWord(PutWords(b, base, ws, n - 1), base + n - 1, ws[n - 1])
  }

  lemma PutWordsNone(b: Block, base: nat, ws: seq<uint32>)
    requires base + |ws| <= NWORDS
    ensures PutWords(b, base, ws, 0) == b
  {
  }

  lemma PutWordsNext(b: Block, base: nat, ws: seq<uint32>, n: nat)
    requires base + |ws| <= NWORDS && n < |ws|
    ensures PutWords(b, base, ws, n + 1) == SetWord(PutWords(b, base, ws, n), base + n, ws[n])
  {
  }

  /** Words base .. base + n - 1 of b. */
  function Words(b: Block, base: nat, n: nat): (ws: seq<uint32>)
    requires base + n <= NWORDS
    ensures |ws| == n && forall i :: 0 <= i < n ==> ws[i] == Word(b, base + i)
  {
    if n == 0 then [] else Words(b, base, n - 1) + [Word(b, base + n - 1)]
  }

  /** The inode in slot k of an inode block. */
  function InodeAt(b: Block, k: nat): Inode
    requires k < IPB
  {
    FromFields(Words(b, 16 * k, 16))
  }

  /** What iupdate stores reads back, and the other slots are untouched. */
  lemma PutInode(b: Block, k: nat, ip: Inode)
    requires k < IPB
    ensures var r := PutWords(b, 16 * k, Fields(ip), 16);
            InodeAt(r, k) == ip && forall j :: 0 <= j < IPB && j != k ==> InodeAt(r, j) == InodeAt(b, j)
  {
    hide Word, Words, PutWords, Fields, FromFields;
    var r := PutWords(b, 16 * k, Fields(ip), 16);
    assert Words(r, 16 * k, 16) == Fields(ip);
    FieldsRoundTrip(ip);
    forall j | 0 <= j < IPB && j != k ensures InodeAt(r, j) == InodeAt(b, j) {
      assert Words(r, 16 * j, 16) == Words(b, 16 * j, 16);
    }
  }

  // ---- Pointers ----

  /** Slot s of an inode: data blocks 0 .. 139, then the indirect block; 0 if none. */
  function PtrOf(blk: seq<Block>, ip: Inode, s: nat): nat
    requires s <= INDIRECT
  {
    if s < NDIRECT then ip.addrs[s]
    else if s == INDIRECT then ip.addrs[NDIRECT]
    else if ip.addrs[NDIRECT] == 0 || ip.addrs[NDIRECT] >= |blk| then 0
    else Word(blk[ip.addrs[NDIRECT]], s - NDIRECT)
  }

  datatype Owner = Meta | Free | Owned(inum: nat, slot: nat)

  /** The bitmap bit of block b. */
  predicate Used(sb: Super, blk: seq<Block>, b: nat)
    requires sb.Bblock(b) < |blk|
  {
    Bit(blk[sb.Bblock(b)], b % BPB)
  }

  ghost predicate Shapes(sb: Super, blk: seq<Block>, ino: seq<Inode>, owner: seq<Owner>)
  {
    sb.Valid() && |blk| == |owner| == sb.size && |ino| == sb.ninodes
  }

  /** Set bits are exactly the owned blocks, metadata included. */
  ghost predicate BitsMatch(sb: Super, blk: seq<Block>, owner: seq<Owner>)
    requires sb.Valid() && |blk| == |owner| == sb.size
  {
    && (forall b :: 0 <= b < sb.size ==> (Used(sb, blk, b) <==> owner[b] != Free))
    && (forall b :: 0 <= b < sb.size ==> (owner[b] == Meta <==> b < sb.DataStart()))
  }

  /** Every pointer leads to a block owned through that very slot, so no block is
      reachable twice; and every owned block is reachable. */
  ghost predicate PtrsMatch(blk: seq<Block>, ino: seq<Inode>, owner: seq<Owner>)
  {
    && (forall i, s {:trigger PtrOf(blk, ino[i], s)} :: 0 <= i < |ino| && 0 <= s <= INDIRECT ==>
          PtrOf(blk, ino[i], s) == 0
          || (PtrOf(blk, ino[i], s) < |owner| && owner[PtrOf(blk, ino[i], s)] == Owned(i, s)))
    && (forall b :: 0 <= b < |owner| && owner[b].Owned? ==>
          && 0 < b && owner[b].inum < |ino| && owner[b].slot <= INDIRECT
          && PtrOf(blk, ino[owner[b].inum], owner[b].slot) == b)
  }

  /** The file system's block ownership. */
  ghost predicate Owns(sb: Super, blk: seq<Block>, ino: seq<Inode>, owner: seq<Owner>)
  {
    Shapes(sb, blk, ino, owner) && BitsMatch(sb, blk, owner) && PtrsMatch(blk, ino, owner)
  }

  // ---- Bitmap updates ----

  function WithBit(sb: Super, blk: seq<Block>, b: nat, v: bool): (blk': seq<Block>)
    requires sb.Bblock(b) < |blk|
  {
    blk[sb.Bblock(b) := PutBit(blk[sb.Bblock(b)], b % BPB, v)]
  }

  lemma BblockInjective(sb: Super, b: nat, c: nat)
    requires b != c
    ensures sb.Bblock(b) != sb.Bblock(c) || b % BPB != c % BPB
  {
  }

  /** Changing one bit changes who owns that one block. */
  lemma BitFlips(sb: Super, blk: seq<Block>, owner: seq<Owner>, b: nat, o: Owner)
    requires sb.Valid() && |blk| == |owner| == sb.size && BitsMatch(sb, blk, owner)
    requires b < sb.size && owner[b] != Meta && o != Meta
    ensures BitsMatch(sb, WithBit(sb, blk, b, o != Free), owner[b := o])
  {
    hide Bit, PutBit;
    var blk' := WithBit(sb, blk, b, o != Free);
    forall c | 0 <= c < sb.size ensures Used(sb, blk', c) <==> owner[b := o][c] != Free {
      if c != b { BblockInjective(sb, b, c); }
    }
  }

  /** Writing a block that is not part of the bitmap changes no bit. */
  lemma WriteKeepsBits(sb: Super, blk: seq<Block>, owner: seq<Owner>, b: nat, v: Block)
    requires sb.Valid() && |blk| == |owner| == sb.size && BitsMatch(sb, blk, owner)
    requires b < sb.size && (b < sb.bmapstart || b >= sb.DataStart())
    ensures BitsMatch(sb, blk[b := v], owner)
  {
    hide Bit;
    forall c | 0 <= c < sb.size ensures Used(sb, blk[b := v], c) == Used(sb, blk, c) {
    }
  }

  // ---- Pointer updates ----

  /** A nonzero address is a block owned through that slot. */
  lemma AddrOwned(blk: seq<Block>, ino: seq<Inode>, owner: seq<Owner>, i: nat, k: nat)
    requires PtrsMatch(blk, ino, owner) && i < |ino| && k <= NDIRECT
    ensures var p, s := ino[i].addrs[k], if k < NDIRECT then k else INDIRECT;
            PtrOf(blk, ino[i], s) == p && (p != 0 ==> p < |owner| && owner[p] == Owned(i, s))
  {
    hide Word;
    assert PtrOf(blk, ino[i], if k < NDIRECT then k else INDIRECT) == ino[i].addrs[k];
  }

  /** Writing a block that is no inode's indirect block moves no pointer. */
  lemma WriteKeepsPtrs(blk: seq<Block>, ino: seq<Inode>, owner: seq<Owner>, b: nat, v: Block)
    requires PtrsMatch(blk, ino, owner) && b < |blk| == |owner|
    requires owner[b].Owned? ==> owner[b].slot != INDIRECT
    ensures forall i, s {:trigger PtrOf(blk[b := v], ino[i], s)} :: 0 <= i < |ino| && 0 <= s <= INDIRECT ==>
              PtrOf(blk[b := v], ino[i], s) == PtrOf(blk, ino[i], s)
    ensures PtrsMatch(blk[b := v], ino, owner)
  {
    hide Word;
    forall i, s | 0 <= i < |ino| && 0 <= s <= INDIRECT
      ensures PtrOf(blk[b := v], ino[i], s) == PtrOf(blk, ino[i], s)
    {
      assert PtrOf(blk, ino[i], INDIRECT) == ino[i].addrs[NDIRECT];
    }
  }

  /** From one state to the other, slot s of inode i becomes b and no other
      pointer changes. */
  ghost predicate PtrStored(blk: seq<Block>, ino: seq<Inode>, blk': seq<Block>, ino': seq<Inode>,
                            i: nat, s: nat, b: nat)
  {
    && |ino'| == |ino|
    && forall j, t {:trigger PtrOf(blk', ino'[j], t)} :: 0 <= j < |ino| && 0 <= t <= INDIRECT ==>
         PtrOf(blk', ino'[j], t) == if j == i && t == s then b else PtrOf(blk, ino[j], t)
  }

  /** Storing a free block in an empty slot keeps every block reachable once. */
  lemma StoreKeepsPtrs(blk: seq<Block>, ino: seq<Inode>, owner: seq<Owner>,
                       blk': seq<Block>, ino': seq<Inode>, i: nat, s: nat, b: nat)
    requires PtrsMatch(blk, ino, owner) && i < |ino| && s <= INDIRECT
    requires 0 < b < |owner| && owner[b] == Free && PtrOf(blk, ino[i], s) == 0
    requires PtrStored(blk, ino, blk', ino', i, s, b)
    ensures PtrsMatch(blk', ino', owner[b := Owned(i, s)])
  {
    hide PtrOf;
    var owner' := owner[b := Owned(i, s)];
    forall c | 0 <= c < |owner'| && owner'[c].Owned?
      ensures 0 < c && owner'[c].inum < |ino'| && owner'[c].slot <= INDIRECT
           && PtrOf(blk', ino'[owner'[c].inum], owner'[c].slot) == c
    {
      if c != b {
        assert PtrOf(blk, ino[owner[c].inum], owner[c].slot) == c;
      }
    }
    forall j, t | 0 <= j < |ino'| && 0 <= t <= INDIRECT
      ensures PtrOf(blk', ino'[j], t) == 0
           || (PtrOf(blk', ino'[j], t) < |owner'| && owner'[PtrOf(blk', ino'[j], t)] == Owned(j, t))
    {
      assert PtrOf(blk, ino[j], t) == 0 || owner[PtrOf(blk, ino[j], t)] == Owned(j, t);
    }
  }

  /** ip with addrs[k] = b. */
  function WithAddr(ip: Inode, k: nat, b: uint32): (r: Inode)
    requires k <= NDIRECT
  {
    ip.(addrs := ip.addrs[k := b])
  }

  lemma StoreDirect(blk: seq<Block>, ino: seq<Inode>, i: nat, s: nat, b: uint32)
    requires i < |ino| && s < NDIRECT
    ensures PtrStored(blk, ino, blk, ino[i := WithAddr(ino[i], s, b)], i, s, b)
  {
    hide Word;
  }

  lemma ZeroWords(k: nat)
    requires k < NWORDS
    ensures Word(ZeroBlock(), k) == 0
  {
  }

  /** A zeroed block installed as indirect block brings no data pointers. */
  lemma StoreIndirect(blk: seq<Block>, ino: seq<Inode>, i: nat, b: uint32)
    requires i < |ino| && ino[i].addrs[NDIRECT] == 0 && 0 < b < |blk| && blk[b] == ZeroBlock()
    ensures PtrStored(blk, ino, blk, ino[i := WithAddr(ino[i], NDIRECT, b)], i, INDIRECT, b)
  {
    hide Word;
    forall k | 0 <= k < NINDIRECT ensures Word(blk[b], k) == 0 {
      ZeroWords(k);
    }
    var ino' := ino[i := WithAddr(ino[i], NDIRECT, b)];
    forall j, t | 0 <= j < |ino| && 0 <= t <= INDIRECT
      ensures PtrOf(blk, ino'[j], t) == if j == i && t == INDIRECT then b else PtrOf(blk, ino[j], t)
    {
      if j == i && NDIRECT <= t < INDIRECT {
        assert PtrOf(blk, ino'[j], t) == Word(blk[b], t - NDIRECT);
      }
    }
  }

  /** An entry of the indirect block. */
  lemma StoreEntry(blk: seq<Block>, ino: seq<Inode>, owner: seq<Owner>, i: nat, s: nat, b: uint32)
    requires PtrsMatch(blk, ino, owner) && |owner| == |blk| && i < |ino| && NDIRECT <= s < INDIRECT
    requires ino[i].addrs[NDIRECT] != 0
    ensures var x := ino[i].addrs[NDIRECT];
            && x < |blk|
            && PtrStored(blk, ino, blk[x := SetWord(blk[x], s - NDIRECT, b)], ino, i, s, b)
  {
    hide Word, SetWord;
    var x := ino[i].addrs[NDIRECT];
    assert PtrOf(blk, ino[i], INDIRECT) == x;
    var blk' := blk[x := SetWord(blk[x], s - NDIRECT, b)];
    forall j, t | 0 <= j < |ino| && 0 <= t <= INDIRECT
      ensures PtrOf(blk', ino[j], t) == if j == i && t == s then b else PtrOf(blk, ino[j], t)
    {
      assert PtrOf(blk, ino[j], INDIRECT) == ino[j].addrs[NDIRECT];
    }
  }

  // ---- Releasing the blocks of an inode, slot by slot ----

  /** The owners once inode i has given up its slots below k. */
  ghost function Released(owner: seq<Owner>, i: nat, k: nat): (r: seq<Owner>)
    ensures |r| == |owner|
    ensures forall b :: 0 <= b < |owner| ==>
              r[b] == if owner[b].Owned? && owner[b].inum == i && owner[b].slot < k then Free else owner[b]
  {
    seq(|owner|, b requires 0 <= b < |owner| =>
      if owner[b].Owned? && owner[b].inum == i && owner[b].slot < k then Free else owner[b])
  }

  lemma ReleaseSlot(blk: seq<Block>, ino: seq<Inode>, owner: seq<Owner>, i: nat, k: nat)
    requires PtrsMatch(blk, ino, owner) && i < |ino| && k <= INDIRECT
    ensures var p := PtrOf(blk, ino[i], k);
            if p == 0 then Released(owner, i, k + 1) == Released(owner, i, k)
            else p < |owner| && owner[p] == Released(owner, i, k)[p] == Owned(i, k)
                 && Released(owner, i, k + 1) == Released(owner, i, k)[p := Free]
  {
    hide PtrOf, Released;
    var p := PtrOf(blk, ino[i], k);
    forall b | 0 <= b < |owner| && owner[b] == Owned(i, k) ensures b == p {
    }
  }

  /** An inode without pointers. */
  function NoAddrs(ip: Inode): (r: Inode)
    ensures forall blk: seq<Block>, s {:trigger PtrOf(blk, r, s)} :: 0 <= s <= INDIRECT ==> PtrOf(blk, r, s) == 0
  {
    ip.(addrs := seq(NDIRECT + 1, _ => 0))
  }

  /** With its pointers cleared and its blocks released, inode i owns nothing and
      the others own what they did. */
  lemma DropInode(blk: seq<Block>, ino: seq<Inode>, owner: seq<Owner>, blk': seq<Block>, i: nat, ip: Inode)
    requires PtrsMatch(blk, ino, owner) && i < |ino| && |blk'| == |blk| == |owner|
    requires forall b :: 0 <= b < |blk| && owner[b].Owned? ==> blk'[b] == blk[b]
    requires ip == NoAddrs(ip)
    ensures PtrsMatch(blk', ino[i := ip], Released(owner, i, INDIRECT + 1))
  {
    hide Word, Released, NoAddrs;
    var owner' := Released(owner, i, INDIRECT + 1);
    var ino' := ino[i := ip];
    forall j, s | 0 <= j < |ino| && j != i && 0 <= s <= INDIRECT
      ensures PtrOf(blk', ino[j], s) == PtrOf(blk, ino[j], s)
    {
      assert PtrOf(blk, ino[j], INDIRECT) == ino[j].addrs[NDIRECT];
    }
    forall j, s | 0 <= j < |ino'| && 0 <= s <= INDIRECT
      ensures PtrOf(blk', ino'[j], s) == 0
           || (PtrOf(blk', ino'[j], s) < |owner'| && owner'[PtrOf(blk', ino'[j], s)] == Owned(j, s))
    {
      if j != i {
        assert PtrOf(blk, ino[j], s) == 0 || owner[PtrOf(blk, ino[j], s)] == Owned(j, s);
      }
    }
    forall b | 0 <= b < |owner'| && owner'[b].Owned?
      ensures 0 < b && owner'[b].inum < |ino'| && owner'[b].slot <= INDIRECT
           && PtrOf(blk', ino'[owner'[b].inum], owner'[b].slot) == b
    {
      assert owner[b] == owner'[b] && owner[b].inum != i;
    }
  }

  // ---- File contents ----

  /** The data blocks in use are exactly those that hold the first len bytes, and
      the indirect block exists exactly when one of them needs it: no holes. */
  ghost predicate Filled(blk: seq<Block>, ip: Inode, len: nat)
  {
    && len <= MAXFILE * BSIZE
    && (forall s {:trigger PtrOf(blk, ip, s)} :: 0 <= s < MAXFILE ==> (PtrOf(blk, ip, s) != 0 <==> s * BSIZE < len))
    && (PtrOf(blk, ip, INDIRECT) != 0 <==> NDIRECT * BSIZE < len)
  }

  ghost predicate PtrsOnDisk(blk: seq<Block>, ip: Inode)
  {
    forall s {:trigger PtrOf(blk, ip, s)} :: 0 <= s <= INDIRECT ==> PtrOf(blk, ip, s) < |blk|
  }

  /** Byte k of the file. */
  ghost function ByteAt(blk: seq<Block>, ip: Inode, k: nat): byte
    requires PtrsOnDisk(blk, ip) && k < MAXFILE * BSIZE
  {
    blk[PtrOf(blk, ip, k / BSIZE)][k % BSIZE]
  }

  /** The first len bytes of the file. */
  ghost function Bytes(blk: seq<Block>, ip: Inode, len: nat): (c: seq<byte>)
    requires PtrsOnDisk(blk, ip) && len <= MAXFILE * BSIZE
    ensures |c| == len && forall k {:trigger c[k]} :: 0 <= k < len ==> c[k] == ByteAt(blk, ip, k)
  {
    seq(len, k requires 0 <= k < len => ByteAt(blk, ip, k))
  }

  lemma OwnedOnDisk(blk: seq<Block>, ino: seq<Inode>, owner: seq<Owner>, i: nat)
    requires PtrsMatch(blk, ino, owner) && i < |ino| && 0 < |owner| == |blk|
    ensures PtrsOnDisk(blk, ino[i])
  {
    hide PtrOf;
  }

  /** Everything inode i does not own is as it was, for every other inode. */
  ghost predicate OthersKept(blk: seq<Block>, ino: seq<Inode>, owner: seq<Owner>,
                             blk': seq<Block>, ino': seq<Inode>, owner': seq<Owner>, i: nat)
  {
    && |blk| == |blk'| == |owner| == |owner'| && |ino'| == |ino|
    && (forall j :: 0 <= j < |ino| && j != i ==> ino'[j] == ino[j])
    && (forall b :: 0 <= b < |owner| && owner[b].Owned? && owner[b].inum != i ==>
          blk'[b] == blk[b] && owner'[b] == owner[b])
  }

  /** Then the contents of every other file are what they were. */
  lemma OthersUnchanged(blk: seq<Block>, ino: seq<Inode>, owner: seq<Owner>,
                        blk': seq<Block>, ino': seq<Inode>, owner': seq<Owner>, i: nat, j: nat, len: nat)
    requires PtrsMatch(blk, ino, owner) && 0 < |owner| && j < |ino| && j != i
    requires OthersKept(blk, ino, owner, blk', ino', owner', i) && Filled(blk, ino[j], len)
    ensures PtrsOnDisk(blk, ino[j]) && PtrsOnDisk(blk', ino'[j]) && Filled(blk', ino'[j], len)
    ensures Bytes(blk', ino'[j], len) == Bytes(blk, ino[j], len)
  {
    hide Word;
    assert PtrOf(blk, ino[j], INDIRECT) == ino[j].addrs[NDIRECT];
    forall s | 0 <= s <= INDIRECT ensures PtrOf(blk', ino'[j], s) == PtrOf(blk, ino[j], s) < |blk| {
    }
    forall k | 0 <= k < len ensures ByteAt(blk', ino'[j], k) == ByteAt(blk, ino[j], k) {
      assert PtrOf(blk, ino[j], k / BSIZE) != 0;
    }
  }
}
