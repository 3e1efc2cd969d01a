/** Block allocation, the inode block map and file contents: balloc, bfree, bmap,
    itrunc, iupdate, readi and writei of fs.c, and filewrite of file.c. */
module FileSystem {
  import opened Blocks
  import opened FileLayout
  import opened Machine
  import LogAdmission

  /** The file system state as a value. */
  datatype View = View(blk: seq<Block>, ino: seq<Inode>, owner: seq<Owner>)

  ghost predicate Owning(sb: Super, v: View)
  {
    Owns(sb, v.blk, v.ino, v.owner)
  }

  predicate SameButAddrs(ip: Inode, ip': Inode) {
    ip' == ip.(addrs := ip'.addrs)
  }

  /** From v to w, free block b became slot s of inode i, and nothing else about
      any file or about the blocks before the bitmap changed. */
  ghost predicate Attached(sb: Super, v: View, w: View, i: nat, s: nat, b: nat)
  {
    && PtrStored(v.blk, v.ino, w.blk, w.ino, i, s, b)
    && OthersKept(v.blk, v.ino, v.owner, w.blk, w.ino, w.owner, i)
    && i < |v.ino| && SameButAddrs(v.ino[i], w.ino[i])
    && 0 < b < |v.owner| && v.owner[b] == Free && w.owner == v.owner[b := Owned(i, s)]
    && (forall c :: 0 <= c < |v.owner| && v.owner[c].Owned? && v.owner[c].slot != INDIRECT ==> w.blk[c] == v.blk[c])
    && (forall c :: 0 <= c < sb.bmapstart && c < |v.blk| ==> w.blk[c] == v.blk[c])
    && (s != INDIRECT ==> w.blk[b] == ZeroBlock())
  }

  /** What balloc leaves: the bit of b set and b zeroed. */
  function Allocated(sb: Super, blk: seq<Block>, b: nat): (r: seq<Block>)
    requires sb.Bblock(b) < |blk| && b < |blk|
    ensures |r| == |blk|
  {
    WithBit(sb, blk, b, true)[b := ZeroBlock()]
  }

  lemma OwnedData(sb: Super, blk: seq<Block>, owner: seq<Owner>, b: nat)
    requires sb.Valid() && |blk| == |owner| == sb.size && BitsMatch(sb, blk, owner)
    requires b < sb.size && owner[b] != Meta
    ensures sb.DataStart() <= b
  {
  }

  /** balloc moves no pointer and changes no owned block. */
  lemma AllocKeeps(sb: Super, v: View, b: nat, o: Owner)
    requires Owning(sb, v) && b < sb.size && v.owner[b] == Free && o.Owned?
    ensures sb.Bblock(b) < sb.DataStart() <= b && sb.bmapstart <= sb.Bblock(b) && v.owner[sb.Bblock(b)] == Meta
    ensures var r := Allocated(sb, v.blk, b);
            && PtrsMatch(r, v.ino, v.owner)
            && (forall j, t {:trigger PtrOf(r, v.ino[j], t)} :: 0 <= j < |v.ino| && 0 <= t <= INDIRECT ==>
                  PtrOf(r, v.ino[j], t) == PtrOf(v.blk, v.ino[j], t))
            && BitsMatch(sb, r, v.owner[b := o])
  {
    hide Word, Bit, PutBit, PtrOf;
    var c := sb.Bblock(b);
    var mid := WithBit(sb, v.blk, b, true);
    WriteKeepsPtrs(v.blk, v.ino, v.owner, c, PutBit(v.blk[c], b % BPB, true));
    WriteKeepsPtrs(mid, v.ino, v.owner, b, ZeroBlock());
    BitFlips(sb, v.blk, v.owner, b, o);
    WriteKeepsBits(sb, mid, v.owner[b := o], b, ZeroBlock());
  }

  /** balloc, then the pointer stored in an address of the inode. */
  lemma AttachAddr(sb: Super, v: View, i: nat, k: nat, b: nat)
    requires Owning(sb, v) && i < |v.ino| && k <= NDIRECT && v.ino[i].addrs[k] == 0
    requires b < sb.size && v.owner[b] == Free
    ensures var s := if k < NDIRECT then k else INDIRECT;
            var w := View(Allocated(sb, v.blk, b), v.ino[i := WithAddr(v.ino[i], k, b)], v.owner[b := Owned(i, s)]);
            Owning(sb, w) && Attached(sb, v, w, i, s, b)
  {
    hide PtrOf, PtrsMatch, PutBit;
    var s := if k < NDIRECT then k else INDIRECT;
    AllocKeeps(sb, v, b, Owned(i, s));
    AddrOwned(v.blk, v.ino, v.owner, i, k);
    var r := Allocated(sb, v.blk, b);
    if k < NDIRECT {
      StoreDirect(r, v.ino, i, k, b);
    } else {
      StoreIndirect(r, v.ino, i, b);
    }
    StoreKeepsPtrs(r, v.ino, v.owner, r, v.ino[i := WithAddr(v.ino[i], k, b)], i, s, b);
  }

  /** balloc, then the pointer stored in an entry of the indirect block. */
  lemma AttachEntry(sb: Super, v: View, i: nat, s: nat, b: nat)
    requires Owning(sb, v) && i < |v.ino| && NDIRECT <= s < INDIRECT
    requires v.ino[i].addrs[NDIRECT] != 0 && PtrOf(v.blk, v.ino[i], s) == 0
    requires b < sb.size && v.owner[b] == Free
    ensures var x, r := v.ino[i].addrs[NDIRECT], Allocated(sb, v.blk, b);
            && sb.inodestart <= x < |r|
            && (var w := View(r[x := SetWord(r[x], s - NDIRECT, b)], v.ino, v.owner[b := Owned(i, s)]);
                Owning(sb, w) && Attached(sb, v, w, i, s, b))
  {
    hide PtrOf, PtrsMatch, BitsMatch, PutBit, SetWord;
    AllocKeeps(sb, v, b, Owned(i, s));
    AddrOwned(v.blk, v.ino, v.owner, i, NDIRECT);
    OwnedData(sb, v.blk, v.owner, v.ino[i].addrs[NDIRECT]);
    var r := Allocated(sb, v.blk, b);
    StoreEntry(r, v.ino, v.owner, i, s, b);
    var x := v.ino[i].addrs[NDIRECT];
    var blk' := r[x := SetWord(r[x], s - NDIRECT, b)];
    StoreKeepsPtrs(r, v.ino, v.owner, blk', v.ino, i, s, b);
    WriteKeepsBits(sb, r, v.owner[b := Owned(i, s)], x, blk'[x]);
  }

  /** From v to w, file i may have gained blocks; what it had, everything other
      inodes have, and the blocks before the bitmap are as they were. */
  ghost predicate Grew(sb: Super, v: View, w: View, i: nat)
  {
    && OthersKept(v.blk, v.ino, v.owner, w.blk, w.ino, w.owner, i)
    && i < |v.ino| && SameButAddrs(v.ino[i], w.ino[i])
    && (forall c :: 0 <= c < |v.owner| && v.owner[c].Owned? ==>
          w.owner[c] == v.owner[c] && (v.owner[c].slot != INDIRECT ==> w.blk[c] == v.blk[c]))
    && (forall t {:trigger PtrOf(w.blk, w.ino[i], t)} :: 0 <= t <= INDIRECT && PtrOf(v.blk, v.ino[i], t) != 0 ==>
          PtrOf(w.blk, w.ino[i], t) == PtrOf(v.blk, v.ino[i], t))
    && (forall c :: 0 <= c < sb.bmapstart && c < |v.blk| ==> w.blk[c] == v.blk[c])
  }

  lemma AttachedGrew(sb: Super, v: View, w: View, i: nat, s: nat, b: nat)
    requires Attached(sb, v, w, i, s, b) && s <= INDIRECT && PtrOf(v.blk, v.ino[i], s) == 0
    ensures Grew(sb, v, w, i)
  {
    hide PtrOf;
  }

  lemma GrewTwice(sb: Super, u: View, v: View, w: View, i: nat)
    requires Grew(sb, u, v, i) && Grew(sb, v, w, i)
    ensures Grew(sb, u, w, i)
  {
    hide PtrOf;
    forall t | 0 <= t <= INDIRECT && PtrOf(u.blk, u.ino[i], t) != 0
      ensures PtrOf(w.blk, w.ino[i], t) == PtrOf(u.blk, u.ino[i], t)
    {
      assert PtrOf(v.blk, v.ino[i], t) == PtrOf(u.blk, u.ino[i], t);
    }
  }

  /** The length up to which blocks exist once bmap(bn) has run. */
  function Covered(len: nat, bn: nat): nat {
    if bn * BSIZE < len then len else bn * BSIZE + 1
  }

  lemma GrewNot(sb: Super, v: View, i: nat)
    requires Owning(sb, v) && i < |v.ino|
    ensures Grew(sb, v, v, i)
  {
    hide PtrOf;
  }

  /** The indirect block, if there is one. */
  function IndirectOf(ip: Inode): set<nat> {
    if ip.addrs[NDIRECT] == 0 then {} else {ip.addrs[NDIRECT]}
  }

  /** How many bitmap blocks bmap may log: one for the data block and one for the
      indirect block, each only if new. */
  function NewMaps(there: bool, ip: Inode, ip': Inode): int {
    (if there then 0 else 1) + |IndirectOf(ip')| - |IndirectOf(ip)|
  }

  predicate InBitmap(sb: Super, b: nat) {
    sb.bmapstart <= b <= sb.bmapstart + sb.size / BPB
  }

  /** What bmap(bn) of file i leads to from v: block addr holds file block bn, new and
      zeroed if there was none, and no other slot changed but that of the indirect
      block, which is there if bn needs it. */
  ghost predicate Reached(sb: Super, v: View, w: View, i: nat, bn: nat, addr: nat)
  {
    && Owning(sb, w) && Grew(sb, v, w, i) && bn < MAXFILE
    && 0 < addr < |w.blk| && w.owner[addr] == Owned(i, bn) && addr == PtrOf(w.blk, w.ino[i], bn)
    && (PtrOf(v.blk, v.ino[i], bn) == 0 ==> w.blk[addr] == ZeroBlock())
    && (forall t {:trigger PtrOf(w.blk, w.ino[i], t)} :: 0 <= t < MAXFILE && t != bn ==>
          PtrOf(w.blk, w.ino[i], t) == PtrOf(v.blk, v.ino[i], t))
    && (PtrOf(w.blk, w.ino[i], INDIRECT) != 0 <==> PtrOf(v.blk, v.ino[i], INDIRECT) != 0 || NDIRECT <= bn)
  }

  /** For the next block of a file without holes: the file has blocks exactly up to
      there. */
  ghost predicate Mapped(sb: Super, v: View, w: View, i: nat, bn: nat, len: nat, addr: nat)
  {
    && Owning(sb, w) && Grew(sb, v, w, i) && bn < MAXFILE
    && Filled(w.blk, w.ino[i], Covered(len, bn))
    && 0 < addr < |w.blk| && w.owner[addr] == Owned(i, bn) && addr == PtrOf(w.blk, w.ino[i], bn)
    && (bn * BSIZE >= len ==> w.blk[addr] == ZeroBlock())
  }

  /** Attaching a data block, with the indirect block it needs in place. */
  lemma AttachedReached(sb: Super, v: View, w: View, i: nat, s: nat, b: nat)
    requires Owning(sb, w) && Attached(sb, v, w, i, s, b) && s < MAXFILE && PtrOf(v.blk, v.ino[i], s) == 0
    requires NDIRECT <= s ==> PtrOf(v.blk, v.ino[i], INDIRECT) != 0
    ensures Reached(sb, v, w, i, s, b) && InBitmap(sb, sb.Bblock(b))
  {
    hide PtrOf;
    AttachedGrew(sb, v, w, i, s, b);
    forall t | 0 <= t <= INDIRECT && t != s ensures PtrOf(w.blk, w.ino[i], t) == PtrOf(v.blk, v.ino[i], t) {
    }
  }

  /** The entry of the indirect block behind a data slot. */
  lemma EntryPtr(sb: Super, v: View, i: nat, s: nat)
    requires Owning(sb, v) && i < |v.ino| && NDIRECT <= s < INDIRECT
    ensures var x := v.ino[i].addrs[NDIRECT];
            && PtrOf(v.blk, v.ino[i], INDIRECT) == x
            && (x == 0 ==> PtrOf(v.blk, v.ino[i], s) == 0)
            && (x != 0 ==> x < |v.blk| && PtrOf(v.blk, v.ino[i], s) == Word(v.blk[x], s - NDIRECT))
  {
    hide Word;
    AddrOwned(v.blk, v.ino, v.owner, i, NDIRECT);
  }

  /** A new indirect block leaves the data slots as they were. */
  lemma IndirectAttached(sb: Super, v: View, w: View, i: nat, b: nat)
    requires Attached(sb, v, w, i, INDIRECT, b) && PtrOf(v.blk, v.ino[i], INDIRECT) == 0
    ensures Grew(sb, v, w, i) && PtrOf(w.blk, w.ino[i], INDIRECT) == b != 0
    ensures forall t {:trigger PtrOf(w.blk, w.ino[i], t)} :: 0 <= t < MAXFILE ==>
              PtrOf(w.blk, w.ino[i], t) == PtrOf(v.blk, v.ino[i], t)
  {
    hide PtrOf;
    AttachedGrew(sb, v, w, i, INDIRECT, b);
    forall t | 0 <= t < MAXFILE ensures PtrOf(w.blk, w.ino[i], t) == PtrOf(v.blk, v.ino[i], t) {
    }
  }

  lemma ReachedAlready(sb: Super, v: View, i: nat, bn: nat)
    requires Owning(sb, v) && i < |v.ino| && bn < MAXFILE && PtrOf(v.blk, v.ino[i], bn) != 0
    ensures Reached(sb, v, v, i, bn, PtrOf(v.blk, v.ino[i], bn))
  {
    hide Word;
    GrewNot(sb, v, i);
    assert PtrOf(v.blk, v.ino[i], INDIRECT) == v.ino[i].addrs[NDIRECT];
  }

  /** A new indirect block first, then the data block. */
  lemma ReachedTwice(sb: Super, u: View, v: View, w: View, i: nat, bn: nat, addr: nat)
    requires Grew(sb, u, v, i) && Reached(sb, v, w, i, bn, addr) && NDIRECT <= bn
    requires forall t {:trigger PtrOf(v.blk, v.ino[i], t)} :: 0 <= t < MAXFILE ==>
               PtrOf(v.blk, v.ino[i], t) == PtrOf(u.blk, u.ino[i], t)
    ensures Reached(sb, u, w, i, bn, addr)
  {
    hide PtrOf, PtrsMatch, BitsMatch;
    GrewTwice(sb, u, v, w, i);
    forall t | 0 <= t < MAXFILE && t != bn ensures PtrOf(w.blk, w.ino[i], t) == PtrOf(u.blk, u.ino[i], t) {
      assert PtrOf(w.blk, w.ino[i], t) == PtrOf(v.blk, v.ino[i], t);
    }
  }

  /** In a file without holes, at most one past the end. */
  lemma ReachedMapped(sb: Super, v: View, w: View, i: nat, bn: nat, len: nat, addr: nat)
    requires Reached(sb, v, w, i, bn, addr) && Filled(v.blk, v.ino[i], len) && bn * BSIZE <= len
    ensures Mapped(sb, v, w, i, bn, len, addr)
    ensures PtrOf(v.blk, v.ino[i], bn) == 0 <==> bn * BSIZE >= len
  {
    hide PtrOf, PtrsMatch, BitsMatch;
    assert PtrOf(v.blk, v.ino[i], bn) != 0 <==> bn * BSIZE < len;
    forall t | 0 <= t < MAXFILE ensures PtrOf(w.blk, w.ino[i], t) != 0 <==> t * BSIZE < Covered(len, bn) {
      if t != bn { assert PtrOf(w.blk, w.ino[i], t) == PtrOf(v.blk, v.ino[i], t); }
    }
  }

  lemma MappedAddr(sb: Super, v: View, w: View, i: nat, bn: nat, len: nat, addr: nat)
    requires Mapped(sb, v, w, i, bn, len, addr)
    ensures i < |v.ino| == |w.ino| && 0 < addr < |w.blk| && addr == PtrOf(w.blk, w.ino[i], bn)
  {
  }

  /** A stretch of one data block is that stretch of the file. */
  lemma BlockBytes(blk: seq<Block>, ip: Inode, len: nat, bn: nat, o: nat, k: nat)
    requires PtrsOnDisk(blk, ip) && len <= MAXFILE * BSIZE && o + k <= BSIZE && bn * BSIZE + o + k <= len
    requires bn < MAXFILE && PtrOf(blk, ip, bn) < |blk|
    ensures blk[PtrOf(blk, ip, bn)][o..o + k] == Bytes(blk, ip, len)[bn * BSIZE + o..bn * BSIZE + o + k]
  {
    hide PtrOf, Bytes;
    var p := bn * BSIZE + o;
    forall j | p <= j < p + k ensures blk[PtrOf(blk, ip, bn)][j - bn * BSIZE] == Bytes(blk, ip, len)[j] {
      assert j / BSIZE == bn && j % BSIZE == j - bn * BSIZE;
    }
  }

  lemma BblockInBitmap(sb: Super, b: nat)
    requires b < sb.size
    ensures InBitmap(sb, sb.Bblock(b))
  {
  }

  lemma SliceMore(c: seq<byte>, a: nat, b: nat, e: nat)
    requires a <= b <= e <= |c|
    ensures c[a..b] + c[b..e] == c[a..e]
  {
  }

  // ---- Data and inode writes ----

  /** m bytes of src from position p on, over the bytes of b from o on. */
  function Overwrite(b: Block, o: nat, src: seq<byte>, p: nat, m: nat): (r: Block)
    requires o + m <= BSIZE && p + m <= |src|
    ensures forall k :: 0 <= k < BSIZE ==> r[k] == if o <= k < o + m then src[p + k - o] else b[k]
  {
    b[..o] + src[p..p + m] + b[o + m..]
  }

  /** Writing a data block of file i changes that block of its contents only. */
  lemma WriteData(sb: Super, v: View, i: nat, s: nat, addr: nat, data: Block)
    requires Owning(sb, v) && i < |v.ino| && s < MAXFILE
    requires 0 < addr < |v.blk| && addr == PtrOf(v.blk, v.ino[i], s)
    ensures var w := v.(blk := v.blk[addr := data]);
            && Owning(sb, w) && sb.DataStart() <= addr
            && OthersKept(v.blk, v.ino, v.owner, w.blk, w.ino, w.owner, i)
            && (forall t {:trigger PtrOf(w.blk, w.ino[i], t)} :: 0 <= t <= INDIRECT ==>
                  PtrOf(w.blk, w.ino[i], t) == PtrOf(v.blk, v.ino[i], t)
                  && (t != s && PtrOf(v.blk, v.ino[i], t) != 0 ==> PtrOf(v.blk, v.ino[i], t) != addr))
  {
    hide PtrOf, Used;
    assert v.owner[addr] == Owned(i, s);
    WriteKeepsPtrs(v.blk, v.ino, v.owner, addr, data);
    WriteKeepsBits(sb, v.blk, v.owner, addr, data);
  }

  /** The disk inode of i says what the in-memory inode says. */
  predicate Synced(sb: Super, v: View, i: nat)
    requires i < |v.ino| && sb.Iblock(i) < |v.blk|
  {
    InodeAt(v.blk[sb.Iblock(i)], i % IPB) == v.ino[i]
  }

  /** The state after iupdate(i). */
  function Updated(sb: Super, v: View, i: nat): (w: View)
    requires i < |v.ino| && sb.Iblock(i) < |v.blk|
  {
    var c := sb.Iblock(i);
    v.(blk := v.blk[c := PutWords(v.blk[c], 16 * (i % IPB), Fields(v.ino[i]), 16)])
  }

  lemma IblockInjective(sb: Super, i: nat, j: nat)
    requires i != j
    ensures sb.Iblock(i) != sb.Iblock(j) || i % IPB != j % IPB
  {
  }

  /** iupdate syncs inode i and touches no other inode, pointer or file block. */
  lemma UpdateSyncs(sb: Super, v: View, i: nat)
    requires Owning(sb, v) && i < |v.ino|
    ensures sb.Iblock(i) < |v.blk|
    ensures var w := Updated(sb, v, i);
            && Owning(sb, w) && Synced(sb, w, i)
            && (forall j :: 0 <= j < |v.ino| && j != i ==>
                  sb.Iblock(j) < |v.blk| && Synced(sb, w, j) == Synced(sb, v, j))
            && (forall b :: 0 <= b < |v.blk| && v.owner[b] != Meta ==> w.blk[b] == v.blk[b])
            && (forall j, t {:trigger PtrOf(w.blk, w.ino[j], t)} :: 0 <= j < |v.ino| && 0 <= t <= INDIRECT ==>
                  PtrOf(w.blk, w.ino[j], t) == PtrOf(v.blk, v.ino[j], t))
  {
    hide PtrOf, Used, PutWords, Fields, InodeAt, PtrsMatch;
    var c := sb.Iblock(i);
    var data := PutWords(v.blk[c], 16 * (i % IPB), Fields(v.ino[i]), 16);
    PutInode(v.blk[c], i % IPB, v.ino[i]);
    WriteKeepsPtrs(v.blk, v.ino, v.owner, c, data);
    WriteKeepsBits(sb, v.blk, v.owner, c, data);
    forall j | 0 <= j < |v.ino| && j != i
      ensures sb.Iblock(j) < |v.blk| && Synced(sb, Updated(sb, v, i), j) == Synced(sb, v, j)
    {
      IblockInjective(sb, i, j);
    }
  }

  // ---- One turn of writei's loop ----

  function Max(a: nat, b: nat): nat {
    if a >= b then a else b
  }

  /** Number of blocks that len bytes take. */
  function BlocksFor(len: nat): nat {
    (len + BSIZE - 1) / BSIZE
  }

  /** Filled depends on the length only through the blocks it takes. */
  lemma FilledSame(blk: seq<Block>, ip: Inode, a: nat, b: nat)
    requires Filled(blk, ip, a) && BlocksFor(a) == BlocksFor(b)
    ensures Filled(blk, ip, b)
  {
    hide PtrOf;
    forall s | 0 <= s < MAXFILE ensures s * BSIZE < a <==> s * BSIZE < b {
    }
  }

  /** From v to w, bytes off .. off + m - 1 of file i became src[p..], its first
      len bytes outside that range stayed, and it has blocks for all of them. */
  ghost predicate Spliced(v: View, w: View, i: nat, len: nat, off: nat, src: seq<byte>, p: nat, m: nat)
    requires i < |v.ino| && i < |w.ino| && p + m <= |src|
  {
    && PtrsOnDisk(v.blk, v.ino[i]) && PtrsOnDisk(w.blk, w.ino[i])
    && off <= len <= MAXFILE * BSIZE && off + m <= MAXFILE * BSIZE
    && (forall k {:trigger ByteAt(w.blk, w.ino[i], k)} :: 0 <= k < Max(len, off + m) ==>
          ByteAt(w.blk, w.ino[i], k) ==
          if off <= k < off + m then src[p + k - off] else ByteAt(v.blk, v.ino[i], k))
  }

  /** bmap keeps the bytes the file already has. */
  lemma GrewBytes(sb: Super, v: View, w: View, i: nat, len: nat)
    requires Owning(sb, v) && Owning(sb, w) && Grew(sb, v, w, i) && Filled(v.blk, v.ino[i], len)
    ensures PtrsOnDisk(v.blk, v.ino[i]) && PtrsOnDisk(w.blk, w.ino[i])
    ensures forall k {:trigger ByteAt(w.blk, w.ino[i], k)} :: 0 <= k < len ==>
              ByteAt(w.blk, w.ino[i], k) == ByteAt(v.blk, v.ino[i], k)
  {
    hide PtrOf, BitsMatch;
    OwnedOnDisk(v.blk, v.ino, v.owner, i);
    OwnedOnDisk(w.blk, w.ino, w.owner, i);
    forall k | 0 <= k < len ensures ByteAt(w.blk, w.ino[i], k) == ByteAt(v.blk, v.ino[i], k) {
      var s := k / BSIZE;
      assert PtrOf(v.blk, v.ino[i], s) != 0;
      assert v.owner[PtrOf(v.blk, v.ino[i], s)] == Owned(i, s);
    }
  }

  /** Overwriting part of the data block that holds off splices the file. */
  lemma DataSplices(sb: Super, v: View, i: nat, len: nat, off: nat, addr: nat, src: seq<byte>, p: nat, m: nat)
    requires Owning(sb, v) && i < |v.ino| && Filled(v.blk, v.ino[i], len)
    requires off < len && off % BSIZE + m <= BSIZE && p + m <= |src| && off + m <= len
    requires 0 < addr < |v.blk| && addr == PtrOf(v.blk, v.ino[i], off / BSIZE)
    ensures var w := v.(blk := v.blk[addr := Overwrite(v.blk[addr], off % BSIZE, src, p, m)]);
            Owning(sb, w) && Filled(w.blk, w.ino[i], len) && Spliced(v, w, i, len, off, src, p, m)
  {
    hide PtrOf, BitsMatch, PtrsMatch, Overwrite, OthersKept;
    var data := Overwrite(v.blk[addr], off % BSIZE, src, p, m);
    WriteData(sb, v, i, off / BSIZE, addr, data);
    var w := v.(blk := v.blk[addr := data]);
    OwnedOnDisk(v.blk, v.ino, v.owner, i);
    OwnedOnDisk(w.blk, w.ino, w.owner, i);
    forall k | 0 <= k < len
      ensures ByteAt(w.blk, w.ino[i], k) ==
              if off <= k < off + m then src[p + k - off] else ByteAt(v.blk, v.ino[i], k)
    {
      assert PtrOf(v.blk, v.ino[i], k / BSIZE) != 0;
      assert PtrOf(w.blk, w.ino[i], k / BSIZE) == PtrOf(v.blk, v.ino[i], k / BSIZE);
    }
  }

  /** From v to w only file i and the bitmap may have changed. */
  ghost predicate Kept(sb: Super, v: View, w: View, i: nat)
  {
    && OthersKept(v.blk, v.ino, v.owner, w.blk, w.ino, w.owner, i)
    && i < |v.ino| && SameButAddrs(v.ino[i], w.ino[i])
    && (forall c :: 0 <= c < sb.bmapstart && c < |v.blk| ==> w.blk[c] == v.blk[c])
    && (v.ino[i].addrs[NDIRECT] != 0 ==> w.ino[i].addrs[NDIRECT] == v.ino[i].addrs[NDIRECT])
  }

  lemma KeptTwice(sb: Super, u: View, v: View, w: View, i: nat)
    requires Kept(sb, u, v, i) && Kept(sb, v, w, i)
    ensures Kept(sb, u, w, i)
  {
  }

  lemma KeptSize(sb: Super, v: View, w: View, i: nat)
    requires Kept(sb, v, w, i)
    ensures i < |v.ino| == |w.ino| && w.ino[i].size == v.ino[i].size && w.ino[i].typ == v.ino[i].typ
    ensures IndirectOf(v.ino[i]) <= IndirectOf(w.ino[i]) && |IndirectOf(v.ino[i])| <= 1
  {
  }

  lemma GrewKept(sb: Super, v: View, w: View, i: nat)
    requires Grew(sb, v, w, i)
    ensures Kept(sb, v, w, i)
  {
    assert PtrOf(w.blk, w.ino[i], INDIRECT) == w.ino[i].addrs[NDIRECT];
    assert PtrOf(v.blk, v.ino[i], INDIRECT) == v.ino[i].addrs[NDIRECT];
  }

  lemma DataKept(sb: Super, v: View, i: nat, s: nat, addr: nat, data: Block)
    requires Owning(sb, v) && i < |v.ino| && s < MAXFILE
    requires 0 < addr < |v.blk| && addr == PtrOf(v.blk, v.ino[i], s)
    ensures Kept(sb, v, v.(blk := v.blk[addr := data]), i) && sb.inodestart <= addr
  {
    hide PtrOf, BitsMatch, PtrsMatch;
    WriteData(sb, v, i, s, addr, data);
  }

  /** The block of off is the only one a piece within it can add. */
  lemma PieceBlocks(len: nat, off: nat, m: nat)
    requires off <= len && 0 < m && off % BSIZE + m <= BSIZE
    ensures BlocksFor(Covered(len, off / BSIZE)) == BlocksFor(Max(len, off + m))
    ensures BlocksFor(Max(len, off + m)) - BlocksFor(len) == if off / BSIZE * BSIZE < len then 0 else 1
    ensures off / BSIZE * BSIZE <= len
  {
  }

  lemma SplicedAfterGrew(sb: Super, v: View, u: View, w: View, i: nat, len: nat, off: nat,
                         src: seq<byte>, p: nat, m: nat)
    requires Owning(sb, v) && Owning(sb, u) && Grew(sb, v, u, i) && Filled(v.blk, v.ino[i], len) && off <= len
    requires i < |w.ino| && p + m <= |src| && Spliced(u, w, i, Max(len, off + m), off, src, p, m)
    ensures Spliced(v, w, i, len, off, src, p, m)
  {
    hide Owning, Grew, ByteAt;
    GrewBytes(sb, v, u, i, len);
  }

  lemma SplicedTwice(u: View, v: View, w: View, i: nat, len: nat, off: nat, src: seq<byte>, t: nat, m: nat)
    requires i < |u.ino| && i < |v.ino| && i < |w.ino| && t + m <= |src|
    requires Spliced(u, v, i, len, off, src, 0, t)
    requires Spliced(v, w, i, Max(len, off + t), off + t, src, t, m)
    ensures Spliced(u, w, i, len, off, src, 0, t + m)
  {
    hide ByteAt, PtrsOnDisk;
    forall k | 0 <= k < Max(len, off + t + m)
      ensures ByteAt(w.blk, w.ino[i], k) ==
              if off <= k < off + t + m then src[k - off] else ByteAt(u.blk, u.ino[i], k)
    {
      if k < Max(len, off + t) {
        assert ByteAt(v.blk, v.ino[i], k) == if off <= k < off + t then src[k - off] else ByteAt(u.blk, u.ino[i], k);
      }
    }
  }

  lemma SplicedNot(sb: Super, v: View, i: nat, len: nat, off: nat, src: seq<byte>)
    requires Owning(sb, v) && i < |v.ino| && Filled(v.blk, v.ino[i], len) && off <= len
    ensures Spliced(v, v, i, len, off, src, 0, 0) && Kept(sb, v, v, i)
  {
    hide PtrOf, ByteAt;
    OwnedOnDisk(v.blk, v.ino, v.owner, i);
  }

  /** c with src written at off, growing if src reaches past the end. */
  function Splice(c: seq<byte>, off: nat, src: seq<byte>): (r: seq<byte>)
    requires off <= |c|
    ensures |r| == Max(|c|, off + |src|)
  {
    c[..off] + src + if off + |src| <= |c| then c[off + |src|..] else []
  }

  lemma SplicedIsSplice(v: View, w: View, i: nat, len: nat, off: nat, src: seq<byte>)
    requires i < |v.ino| && i < |w.ino| && Spliced(v, w, i, len, off, src, 0, |src|)
    ensures Bytes(w.blk, w.ino[i], Max(len, off + |src|)) == Splice(Bytes(v.blk, v.ino[i], len), off, src)
  {
    hide ByteAt, PtrsOnDisk;
    var c, d := Bytes(v.blk, v.ino[i], len), Bytes(w.blk, w.ino[i], Max(len, off + |src|));
    forall k | 0 <= k < |d| ensures d[k] == Splice(c, off, src)[k] {
      assert d[k] == ByteAt(w.blk, w.ino[i], k);
      if k < len { assert c[k] == ByteAt(v.blk, v.ino[i], k); }
    }
  }

  /** Setting the size moves no pointer. */
  lemma SizeKeeps(sb: Super, v: View, i: nat, size: uint32)
    requires Owning(sb, v) && i < |v.ino|
    ensures var w := v.(ino := v.ino[i := v.ino[i].(size := size)]);
            && Owning(sb, w)
            && (forall j, t {:trigger PtrOf(w.blk, w.ino[j], t)} :: 0 <= j < |v.ino| && 0 <= t <= INDIRECT ==>
                  PtrOf(w.blk, w.ino[j], t) == PtrOf(v.blk, v.ino[j], t))
  {
    hide Word, Used;
    var w := v.(ino := v.ino[i := v.ino[i].(size := size)]);
    forall j, t | 0 <= j < |v.ino| && 0 <= t <= INDIRECT
      ensures PtrOf(w.blk, w.ino[j], t) == PtrOf(v.blk, v.ino[j], t)
    {
    }
  }

  /** The new size stored in memory and on disk. */
  function Resized(sb: Super, v: View, i: nat, size: uint32): View
    requires i < |v.ino| && sb.Iblock(i) < |v.blk|
  {
    Updated(sb, v.(ino := v.ino[i := v.ino[i].(size := size)]), i)
  }

  lemma ResizeKeeps(sb: Super, v: View, i: nat, size: uint32)
    requires Owning(sb, v) && i < |v.ino|
    ensures sb.Iblock(i) < |v.blk|
    ensures var w := Resized(sb, v, i, size);
            && Owning(sb, w) && Synced(sb, w, i)
            && w.ino == v.ino[i := v.ino[i].(size := size)] && w.owner == v.owner && |w.blk| == |v.blk|
            && (forall j :: 0 <= j < |v.ino| && j != i ==>
                  sb.Iblock(j) < |v.blk| && Synced(sb, w, j) == Synced(sb, v, j))
            && (forall b :: 0 <= b < |v.blk| && v.owner[b] != Meta ==> w.blk[b] == v.blk[b])
            && (forall j, t {:trigger PtrOf(w.blk, w.ino[j], t)} :: 0 <= j < |v.ino| && 0 <= t <= INDIRECT ==>
                  PtrOf(w.blk, w.ino[j], t) == PtrOf(v.blk, v.ino[j], t))
  {
    hide PtrOf, PtrsMatch, BitsMatch, InodeAt;
    SizeKeeps(sb, v, i, size);
    UpdateSyncs(sb, v.(ino := v.ino[i := v.ino[i].(size := size)]), i);
  }

  // ---- Whole states ----

  /** From blk to blk' only blocks in logged changed, and those are not before the
      inodes. */
  ghost predicate Transaction(sb: Super, blk: seq<Block>, blk': seq<Block>, logged: set<nat>) {
    && |blk'| == |blk|
    && (forall b :: 0 <= b < |blk| && b !in logged ==> blk'[b] == blk[b])
    && (forall b :: b in logged ==> sb.inodestart <= b < |blk|)
  }

  /** The inodes as the disk has them. */
  function DiskInodes(sb: Super, blk: seq<Block>): (ino: seq<Inode>)
    requires sb.Valid() && |blk| == sb.size
    ensures |ino| == sb.ninodes
    ensures forall i {:trigger ino[i]} :: 0 <= i < sb.ninodes ==>
              sb.Iblock(i) < |blk| && ino[i] == InodeAt(blk[sb.Iblock(i)], i % IPB)
  {
    seq(sb.ninodes, i requires 0 <= i < sb.ninodes =>
      assert sb.Iblock(i) < |blk|; InodeAt(blk[sb.Iblock(i)], i % IPB))
  }

  /** Blocks and owners agree, files have no holes, and every disk inode equals
      the in-memory one. */
  ghost predicate ValidView(sb: Super, v: View)
  {
    && Owning(sb, v)
    && (forall i :: 0 <= i < |v.ino| ==> Filled(v.blk, v.ino[i], v.ino[i].size))
    && (forall i :: 0 <= i < |v.ino| ==> sb.Iblock(i) < |v.blk| && Synced(sb, v, i))
  }

  /** The contents of file i. */
  ghost function FileOf(sb: Super, v: View, i: nat): (c: seq<byte>)
    requires ValidView(sb, v) && i < |v.ino|
    ensures |c| == v.ino[i].size
  {
    OwnedOnDisk(v.blk, v.ino, v.owner, i);
    Bytes(v.blk, v.ino[i], v.ino[i].size)
  }

  /** The inodes other than i say the same in memory, on disk and in contents. */
  ghost predicate OtherFilesSame(sb: Super, v: View, w: View, i: nat)
    requires ValidView(sb, v) && ValidView(sb, w)
  {
    && |w.ino| == |v.ino|
    && forall j :: 0 <= j < |v.ino| && j != i ==> w.ino[j] == v.ino[j] && FileOf(sb, w, j) == FileOf(sb, v, j)
  }

  /** Enough for the other inodes: owned blocks, owners and disk inodes kept. */
  lemma OthersValid(sb: Super, v: View, w: View, i: nat)
    requires ValidView(sb, v) && Owning(sb, w) && i < |v.ino|
    requires OthersKept(v.blk, v.ino, v.owner, w.blk, w.ino, w.owner, i)
    requires forall j :: 0 <= j < |v.ino| && j != i ==> sb.Iblock(j) < |w.blk| && Synced(sb, w, j)
    requires Filled(w.blk, w.ino[i], w.ino[i].size) && sb.Iblock(i) < |w.blk| && Synced(sb, w, i)
    ensures ValidView(sb, w) && OtherFilesSame(sb, v, w, i)
  {
    hide PtrOf, Synced, BitsMatch, PtrsMatch, Bytes;
    forall j | 0 <= j < |v.ino| && j != i
      ensures Filled(w.blk, w.ino[j], w.ino[j].size)
      ensures PtrsOnDisk(v.blk, v.ino[j]) && PtrsOnDisk(w.blk, w.ino[j]) && v.ino[j].size <= MAXFILE * BSIZE
      ensures w.ino[j] == v.ino[j] && Bytes(w.blk, w.ino[j], w.ino[j].size) == Bytes(v.blk, v.ino[j], v.ino[j].size)
    {
      OthersUnchanged(v.blk, v.ino, v.owner, w.blk, w.ino, w.owner, i, j, v.ino[j].size);
    }
  }

  lemma FilledByPtrs(blk: seq<Block>, ip: Inode, blk': seq<Block>, ip': Inode, len: nat)
    requires Filled(blk, ip, len)
    requires forall t {:trigger PtrOf(blk', ip', t)} :: 0 <= t <= INDIRECT ==> PtrOf(blk', ip', t) == PtrOf(blk, ip, t)
    ensures Filled(blk', ip', len)
  {
    hide PtrOf;
    assert PtrOf(blk', ip', INDIRECT) == PtrOf(blk, ip, INDIRECT);
    forall t | 0 <= t < MAXFILE ensures PtrOf(blk', ip', t) == PtrOf(blk, ip, t) {
    }
  }

  lemma BytesByPtrs(sb: Super, v: View, w: View, i: nat, len: nat)
    requires Owning(sb, v) && Owning(sb, w) && i < |v.ino| && i < |w.ino| && Filled(v.blk, v.ino[i], len)
    requires |w.blk| == |v.blk| && forall b :: 0 <= b < |v.blk| && v.owner[b] != Meta ==> w.blk[b] == v.blk[b]
    requires forall t {:trigger PtrOf(w.blk, w.ino[i], t)} :: 0 <= t <= INDIRECT ==>
               PtrOf(w.blk, w.ino[i], t) == PtrOf(v.blk, v.ino[i], t)
    ensures PtrsOnDisk(v.blk, v.ino[i]) && PtrsOnDisk(w.blk, w.ino[i])
    ensures Bytes(w.blk, w.ino[i], len) == Bytes(v.blk, v.ino[i], len)
  {
    hide PtrOf, BitsMatch;
    OwnedOnDisk(v.blk, v.ino, v.owner, i);
    OwnedOnDisk(w.blk, w.ino, w.owner, i);
    forall k | 0 <= k < len ensures ByteAt(w.blk, w.ino[i], k) == ByteAt(v.blk, v.ino[i], k) {
      var s := k / BSIZE;
      assert PtrOf(w.blk, w.ino[i], s) == PtrOf(v.blk, v.ino[i], s) != 0;
      assert v.owner[PtrOf(v.blk, v.ino[i], s)] == Owned(i, s);
    }
  }

  /** The end of writei: if the file grew, its size is stored and the inode
      written; otherwise bmap allocated nothing and the disk inode is still right.
      Either way the file is spliced and nothing else changed. */
  lemma WriteGrown(sb: Super, v: View, w: View, i: nat, off: nat, src: seq<byte>)
    requires ValidView(sb, v) && Owning(sb, w) && Kept(sb, v, w, i) && off <= v.ino[i].size <= off + |src|
    requires off + |src| <= MAXFILE * BSIZE && Filled(w.blk, w.ino[i], off + |src|)
    requires Spliced(v, w, i, v.ino[i].size, off, src, 0, |src|)
    ensures sb.Iblock(i) < |w.blk|
    ensures var z := Resized(sb, w, i, off + |src|);
            && ValidView(sb, z) && OtherFilesSame(sb, v, z, i)
            && FileOf(sb, z, i) == Splice(FileOf(sb, v, i), off, src)
  {
    hide PtrOf, BitsMatch, PtrsMatch, InodeAt, Splice, Bytes;
    ResizeKeeps(sb, w, i, off + |src|);
    var z := Resized(sb, w, i, off + |src|);
    hide Resized;
    FilledByPtrs(w.blk, w.ino[i], z.blk, z.ino[i], off + |src|);
    OthersValid(sb, v, z, i);
    SplicedIsSplice(v, w, i, v.ino[i].size, off, src);
    BytesByPtrs(sb, w, z, i, off + |src|);
  }

  lemma WriteInside(sb: Super, v: View, w: View, i: nat, off: nat, src: seq<byte>)
    requires ValidView(sb, v) && Owning(sb, w) && Kept(sb, v, w, i) && off + |src| <= v.ino[i].size
    requires Filled(w.blk, w.ino[i], v.ino[i].size) && w.ino == v.ino
    requires Spliced(v, w, i, v.ino[i].size, off, src, 0, |src|)
    ensures ValidView(sb, w) && OtherFilesSame(sb, v, w, i)
    ensures FileOf(sb, w, i) == Splice(FileOf(sb, v, i), off, src)
  {
    hide PtrOf, BitsMatch, PtrsMatch, InodeAt, Splice, Bytes;
    OthersValid(sb, v, w, i);
    SplicedIsSplice(v, w, i, v.ino[i].size, off, src);
  }

  /** In every valid state the set bits are exactly the metadata blocks and the
      blocks some inode's pointers lead to, each of those is reached through one
      slot of one inode only, and all of them lie in the data area. */
  lemma BlockOwnership(sb: Super, v: View)
    requires ValidView(sb, v)
    ensures forall b :: 0 <= b < sb.size ==>
              (Used(sb, v.blk, b) <==>
                b < sb.DataStart()
                || exists i, s :: 0 <= i < |v.ino| && 0 <= s <= INDIRECT && PtrOf(v.blk, v.ino[i], s) == b)
    ensures forall i, s, j, t :: 0 <= i < |v.ino| && 0 <= j < |v.ino| && 0 <= s <= INDIRECT && 0 <= t <= INDIRECT ==>
              PtrOf(v.blk, v.ino[i], s) == PtrOf(v.blk, v.ino[j], t) != 0 ==> i == j && s == t
    ensures forall i, s :: 0 <= i < |v.ino| && 0 <= s <= INDIRECT && PtrOf(v.blk, v.ino[i], s) != 0 ==>
              sb.DataStart() <= PtrOf(v.blk, v.ino[i], s) < sb.size
  {
    hide PtrOf, Used, Filled, Synced;
    forall b | 0 <= b < sb.size
      ensures Used(sb, v.blk, b) <==>
                b < sb.DataStart()
                || exists i, s :: 0 <= i < |v.ino| && 0 <= s <= INDIRECT && PtrOf(v.blk, v.ino[i], s) == b
    {
      if v.owner[b].Owned? {
        assert PtrOf(v.blk, v.ino[v.owner[b].inum], v.owner[b].slot) == b;
      }
    }
  }

  // ---- Blocks logged by one write ----

  lemma {:induction false} SubsetOfRange(s: set<nat>, lo: nat, n: nat)
    requires forall b :: b in s ==> lo <= b < lo + n
    ensures |s| <= n
  {
    if n == 0 {
      assert s == {};
    } else {
      SubsetOfRange(s - {lo + n - 1}, lo, n - 1);
      assert s <= (s - {lo + n - 1}) + {lo + n - 1};
    }
  }

  lemma SubsetSize(a: set<nat>, b: set<nat>)
    requires a <= b
    ensures |a| <= |b|
  {
    assert b == a + (b - a);
  }

  /** Blocks of the free map. */
  function BitmapBlocks(sb: Super): nat {
    sb.size / BPB + 1
  }

  /** The largest piece filewrite puts in one transaction: two blocks of log for
      each of its three. */
  const CHUNK := 1536

  /** The blocks logged by one chunk of filewrite. */
  predicate ChunkSized(sb: Super, t: set<nat>) {
    |t| <= MAXOPBLOCKS && |t| <= 6 + BitmapBlocks(sb)
  }

  /** Data blocks, bitmap blocks, the indirect block and the inode block: at most
      ten in all for a piece of up to CHUNK bytes written inside or at the end of
      a file, and at most seven when the free map is one block. */
  lemma CountLogged(sb: Super, ip0: Inode, ip: Inode, off: nat, n: nat,
                    log0: set<nat>, log: set<nat>, data: set<nat>, maps: set<nat>, inode: nat)
    requires n <= CHUNK && off <= ip0.size && LogCount(sb, ip0, ip, off, n, log0, log, data, maps)
    ensures ChunkSized(sb, data + maps + IndirectOf(ip) + {inode})
  {
    SubsetOfRange(maps, sb.bmapstart, BitmapBlocks(sb));
    assert |data + maps + IndirectOf(ip) + {inode}| <= |data| + |maps| + |IndirectOf(ip)| + 1;
  }

  /** After tot bytes written at off to a file of size bytes: the blocks logged are
      data blocks, one per block touched, bitmap blocks, one per block allocated,
      and the indirect block. */
  ghost predicate LogCount(sb: Super, ip0: Inode, ip: Inode, off: nat, tot: nat,
                           log0: set<nat>, log: set<nat>, data: set<nat>, maps: set<nat>)
  {
    && log <= log0 + data + maps + IndirectOf(ip)
    && |data| <= (if tot == 0 then 0 else BlocksFor(off + tot) - off / BSIZE)
    && |maps| <= BlocksFor(Max(ip0.size, off + tot)) - BlocksFor(ip0.size) + |IndirectOf(ip)| - |IndirectOf(ip0)|
    && forall b :: b in maps ==> InBitmap(sb, b)
  }

  lemma LogCountNone(sb: Super, ip: Inode, off: nat, log: set<nat>)
    requires off <= ip.size
    ensures LogCount(sb, ip, ip, off, 0, log, log, {}, {})
  {
  }

  lemma BlocksBeyond(x: nat, m: nat)
    requires 0 < m
    ensures BlocksFor(x + m) >= x / BSIZE + 1
  {
  }

  lemma WholeBlocks(x: nat)
    requires x % BSIZE == 0
    ensures BlocksFor(x) == x / BSIZE
  {
  }

  /** The next piece of a write lies in a block not counted so far. */
  lemma OneMoreBlock(off: nat, tot: nat, m: nat)
    requires 0 < m && (tot == 0 || (off + tot) % BSIZE == 0)
    ensures BlocksFor(off + tot + m) >= 1 + if tot == 0 then off / BSIZE else BlocksFor(off + tot)
    ensures BlocksFor(Max(off + tot, off + tot + m)) == BlocksFor(off + tot + m)
  {
    hide BlocksFor;
    BlocksBeyond(off + tot, m);
    if tot > 0 { WholeBlocks(off + tot); }
  }

  lemma LogCountStep(sb: Super, ip0: Inode, ip: Inode, ip': Inode, off: nat, tot: nat, m: nat,
                     log0: set<nat>, log: set<nat>, log': set<nat>,
                     data: set<nat>, maps: set<nat>, addr: nat, more: set<nat>)
    requires LogCount(sb, ip0, ip, off, tot, log0, log, data, maps)
    requires tot == 0 || (off + tot) % BSIZE == 0
    requires 0 < m && (off + tot) % BSIZE + m <= BSIZE
    requires IndirectOf(ip) <= IndirectOf(ip') && log' <= log + {addr} + IndirectOf(ip') + more
    requires |more| <= BlocksFor(Max(Max(ip0.size, off + tot), off + tot + m)) - BlocksFor(Max(ip0.size, off + tot))
                       + |IndirectOf(ip')| - |IndirectOf(ip)|
    requires forall b :: b in more ==> InBitmap(sb, b)
    ensures LogCount(sb, ip0, ip', off, tot + m, log0, log', data + {addr}, maps + more)
  {
    hide IndirectOf, InBitmap, BlocksFor;
    OneMoreBlock(off, tot, m);
    assert |data + {addr}| <= |data| + 1;
    assert |maps + more| <= |maps| + |more|;
  }

  /** If the step is a log_write, its operation stays within the blocks of one chunk. */
  ghost predicate LogsChunk(sb: Super, c: LogAdmission.Config, s: LogAdmission.State, t: LogAdmission.State) {
    forall o: nat, b: nat :: LogAdmission.Guard(c, s, t, o, b) ==>
      exists x: set<nat> :: ChunkSized(sb, x) && s.ops[o].logged + {b} <= x
  }

  /** Such steps are steps of operations with the budget of a chunk. */
  lemma ChunkStep(sb: Super, c: LogAdmission.Config, s: LogAdmission.State, t: LogAdmission.State)
    requires LogAdmission.Next(c, s, t) && LogsChunk(sb, c, s, t)
    ensures LogAdmission.Next(c.(budget := 6 + BitmapBlocks(sb)), s, t)
  {
    if o: nat, b: nat :| LogAdmission.Guard(c, s, t, o, b) {
      var x: set<nat> :| ChunkSized(sb, x) && s.ops[o].logged + {b} <= x;
      SubsetSize(s.ops[o].logged + {b}, x);
      assert LogAdmission.Guard(c.(budget := 6 + BitmapBlocks(sb)), s, t, o, b);
    }
  }

  /** With a free map of up to three blocks, operations that log what chunks of
      filewrite log never make log_write panic and never overrun the log mkfs lays
      out, however they interleave. */
  lemma ChunksFitLog(sb: Super, budget: nat, run: seq<LogAdmission.State>, i: nat)
    requires BitmapBlocks(sb) <= 3 && i < |run| && LogAdmission.IsRun(LogAdmission.Config(LOGSIZE, budget), run)
    requires forall k :: 0 <= k < |run| - 1 ==>
               LogsChunk(sb, LogAdmission.Config(LOGSIZE, budget), run[k], run[k + 1])
    ensures !run[i].panicked && LogAdmission.Fits(LogAdmission.Config(LOGSIZE, budget), run[i])
  {
    var c := LogAdmission.Config(LOGSIZE, 6 + BitmapBlocks(sb));
    forall k | 0 <= k < |run| - 1 ensures LogAdmission.Next(c, run[k], run[k + 1]) {
      ChunkStep(sb, LogAdmission.Config(LOGSIZE, budget), run[k], run[k + 1]);
    }
    assert LogAdmission.IsRun(c, run);
    LogAdmission.RunReaches(c, run, i);
    LogAdmission.ShippedImage();
  }

  // ---- Truncation ----

  /** Part of itrunc(i) is done: the blocks of slots below k are free in the bitmap,
      and no block outside the bitmap has changed since v. */
  ghost predicate Releasing(sb: Super, v: View, blk: seq<Block>, i: nat, k: nat)
  {
    && sb.Valid() && |blk| == |v.blk| == |v.owner| == sb.size
    && BitsMatch(sb, blk, Released(v.owner, i, k))
    && forall c :: 0 <= c < |blk| && !(sb.bmapstart <= c < sb.DataStart()) ==> blk[c] == v.blk[c]
  }

  lemma ReleasingNone(sb: Super, v: View, i: nat)
    requires Owning(sb, v)
    ensures Releasing(sb, v, v.blk, i, 0)
  {
    hide Used, PtrsMatch, Released;
    assert Released(v.owner, i, 0) == v.owner;
  }

  /** The pointer in slot k still leads to a block in use, so freeing it cannot
      panic, and afterwards one more slot is released. */
  lemma ReleaseStep(sb: Super, v: View, blk: seq<Block>, i: nat, k: nat)
    requires Owning(sb, v) && i < |v.ino| && k <= INDIRECT && Releasing(sb, v, blk, i, k)
    ensures var p := PtrOf(v.blk, v.ino[i], k);
            if p == 0 then Releasing(sb, v, blk, i, k + 1)
            else p < sb.size && sb.Bblock(p) < |blk| && InBitmap(sb, sb.Bblock(p)) && Used(sb, blk, p)
                 && Releasing(sb, v, WithBit(sb, blk, p, false), i, k + 1)
  {
    hide PtrOf, PtrsMatch, Released, PutBit, Bit;
    var p := PtrOf(v.blk, v.ino[i], k);
    ReleaseSlot(v.blk, v.ino, v.owner, i, k);
    if p != 0 {
      BitFlips(sb, blk, Released(v.owner, i, k), p, Free);
    }
  }

  /** Without an indirect block there is nothing behind the remaining slots. */
  lemma {:induction false} NothingIndirect(sb: Super, v: View, blk: seq<Block>, i: nat, k: nat)
    requires Owning(sb, v) && i < |v.ino| && v.ino[i].addrs[NDIRECT] == 0
    requires NDIRECT <= k <= INDIRECT + 1 && Releasing(sb, v, blk, i, k)
    ensures Releasing(sb, v, blk, i, INDIRECT + 1)
    decreases INDIRECT + 1 - k
  {
    hide Owning, Releasing, PtrOf;
    if k <= INDIRECT {
      EntryPtr(sb, v, i, if k < INDIRECT then k else NDIRECT);
      ReleaseStep(sb, v, blk, i, k);
      NothingIndirect(sb, v, blk, i, k + 1);
    }
  }

  /** Freeing blocks does not touch the indirect block's contents. */
  lemma IndirectKept(sb: Super, v: View, blk: seq<Block>, i: nat, k: nat)
    requires Owning(sb, v) && i < |v.ino| && v.ino[i].addrs[NDIRECT] != 0 && Releasing(sb, v, blk, i, k)
    ensures var x := v.ino[i].addrs[NDIRECT]; x < |blk| == |v.blk| && blk[x] == v.blk[x]
  {
    hide PtrOf, PtrsMatch, Used, Released;
    AddrOwned(v.blk, v.ino, v.owner, i, NDIRECT);
  }

  /** The state once itrunc(i) has freed every block and cleared the inode. */
  ghost function Emptied(v: View, blk: seq<Block>, i: nat): View
    requires i < |v.ino|
  {
    View(blk, v.ino[i := NoAddrs(v.ino[i]).(size := 0)], Released(v.owner, i, INDIRECT + 1))
  }

  lemma EmptiedOwns(sb: Super, v: View, blk: seq<Block>, i: nat)
    requires Owning(sb, v) && i < |v.ino| && Releasing(sb, v, blk, i, INDIRECT + 1)
    ensures var u := Emptied(v, blk, i);
            Owning(sb, u) && OthersKept(v.blk, v.ino, v.owner, u.blk, u.ino, u.owner, i)
  {
    hide PtrOf, PtrsMatch, Released, Used;
    DropInode(v.blk, v.ino, v.owner, blk, i, NoAddrs(v.ino[i]).(size := 0));
  }

  lemma EmptyFilled(blk: seq<Block>, ip: Inode)
    requires ip.addrs == NoAddrs(ip).addrs
    ensures Filled(blk, ip, 0)
  {
    hide Word;
    assert ip == NoAddrs(ip);
  }

  /** After itrunc(i) and its iupdate the file is empty, its blocks are free, and
      every other file is as it was. */
  lemma TruncateDone(sb: Super, v: View, blk: seq<Block>, i: nat)
    requires ValidView(sb, v) && i < |v.ino| && Releasing(sb, v, blk, i, INDIRECT + 1)
    ensures sb.Iblock(i) < |blk|
    ensures var z := Updated(sb, Emptied(v, blk, i), i);
            ValidView(sb, z) && OtherFilesSame(sb, v, z, i) && FileOf(sb, z, i) == []
  {
    hide PtrOf, PtrsMatch, BitsMatch, Released, InodeAt, PutWords, Fields;
    EmptiedOwns(sb, v, blk, i);
    var u := Emptied(v, blk, i);
    UpdateSyncs(sb, u, i);
    var z := Updated(sb, u, i);
    EmptyFilled(z.blk, z.ino[i]);
    OthersValid(sb, v, z, i);
  }

  // ---- Writes in chunks ----

  lemma SpliceTwice(c: seq<byte>, off: nat, a: seq<byte>, b: seq<byte>)
    requires off <= |c|
    ensures Splice(Splice(c, off, a), off + |a|, b) == Splice(c, off, a + b)
  {
  }

  /** How many of n bytes filewrite writes at off: all of them, or as many whole
      chunks as fit below the largest file size, or none past the end. */
  function Written(size: nat, off: nat, n: nat): (w: nat)
    requires size <= MAXFILE * BSIZE
    ensures w <= n && (w > 0 ==> off <= size && off + w <= MAXFILE * BSIZE)
  {
    if off > size then 0
    else if off + n <= MAXFILE * BSIZE then n
    else (MAXFILE * BSIZE - off) / CHUNK * CHUNK
  }

  /** The bytes of a file after n bytes of src were written at off, as far as
      filewrite goes. */
  function Rewritten(c: seq<byte>, off: nat, src: seq<byte>, n: nat): seq<byte>
    requires n <= |src|
  {
    if off <= |c| then Splice(c, off, src[..n]) else c
  }

  lemma RewrittenMore(c: seq<byte>, off: nat, src: seq<byte>, n: nat, m: nat)
    requires n + m <= |src| && off <= |c|
    ensures off + n <= |Rewritten(c, off, src, n)|
    ensures Splice(Rewritten(c, off, src, n), off + n, src[n..n + m]) == Rewritten(c, off, src, n + m)
  {
    SpliceTwice(c, off, src[..n], src[n..n + m]);
    assert src[..n] + src[n..n + m] == src[..n + m];
  }

  lemma RewrittenNone(c: seq<byte>, off: nat, src: seq<byte>)
    ensures Rewritten(c, off, src, 0) == c
  {
    assert src[..0] == [];
  }

  predicate WholeChunks(n: nat) {
    n % CHUNK == 0
  }

  lemma NextChunk(n: nat)
    ensures WholeChunks(n) ==> WholeChunks(n + CHUNK)
    ensures WholeChunks(0)
  {
  }

  lemma WrittenAll(size: nat, off: nat, n: nat)
    requires size <= MAXFILE * BSIZE && (n > 0 ==> off <= size && off + n <= MAXFILE * BSIZE)
    ensures Written(size, off, n) == n
  {
  }

  /** done bytes are in, in whole chunks, and the next chunk does not fit. */
  lemma WrittenStops(size: nat, off: nat, n: nat, done: nat, m: nat)
    requires size <= MAXFILE * BSIZE && done < n && m == (if n - done < CHUNK then n - done else CHUNK)
    requires WholeChunks(done) && (done > 0 ==> off <= size && off + done <= MAXFILE * BSIZE)
    requires off > size || off + done + m > MAXFILE * BSIZE
    ensures done == Written(size, off, n)
  {
    if off <= size && done == 0 {
      assert off + m > MAXFILE * BSIZE;
    }
  }

  lemma OthersSameNot(sb: Super, v: View, i: nat)
    requires ValidView(sb, v)
    ensures OtherFilesSame(sb, v, v, i)
  {
    hide ValidView, FileOf;
  }

  lemma OthersSameTwice(sb: Super, u: View, v: View, w: View, i: nat)
    requires ValidView(sb, u) && ValidView(sb, v) && ValidView(sb, w)
    requires OtherFilesSame(sb, u, v, i) && OtherFilesSame(sb, v, w, i)
    ensures OtherFilesSame(sb, u, w, i)
  {
    hide ValidView, FileOf;
  }

  lemma SizeBound(sb: Super, v: View, i: nat)
    requires ValidView(sb, v) && i < |v.ino|
    ensures v.ino[i].size <= MAXFILE * BSIZE
  {
    hide Owning, PtrOf;
  }

  /** struct file, for an inode. */
  class File {
    const ip: nat
    const writable: bool
    var off: uint32
  }

  class Fs {
    const sb: Super
    var blk: seq<Block>        // latest contents of every block
    var ino: seq<Inode>        // the in-memory inodes, by number
    ghost var owner: seq<Owner>
    ghost var logged: set<nat> // blocks passed to log_write in this transaction
    ghost var begun: seq<Block> // all blocks as they were when it began

    ghost function Now(): View
      reads this
    {
      View(blk, ino, owner)
    }

    /** A file system as found on a disk, with the inodes read from it. */
    constructor Mount(sb: Super, disk: seq<Block>, ghost owner: seq<Owner>)
      requires sb.Valid() && |disk| == sb.size && ValidView(sb, View(disk, DiskInodes(sb, disk), owner))
      ensures Valid() && Logging() && this.sb == sb && Now() == View(disk, DiskInodes(sb, disk), owner)
    {
      this.sb := sb;
      blk := disk;
      ino := DiskInodes(sb, disk);
      this.owner := owner;
      logged := {};
      begun := disk;
    }

    /** Every block that differs from the start of the transaction has been logged, and
        none before the inodes: the log itself is not a file's. */
    ghost predicate Logging()
      reads this`blk, this`begun, this`logged
    {
      Transaction(sb, begun, blk, logged)
    }

    /** begin_op of a transaction. */
    ghost method BeginOp()
      modifies this`logged, this`begun
      ensures Logging() && logged == {} && begun == blk
    {
      logged := {};
      begun := blk;
    }

    method LogWrite(b: nat, data: Block)
      requires b < |blk| && sb.inodestart <= b && Logging()
      modifies this`blk, this`logged
      ensures blk == old(blk)[b := data] && logged == old(logged) + {b} && Logging()
    {
      blk := blk[b := data];
      logged := logged + {b};
    }

    /** The lowest-numbered free block, now marked and zeroed; a panic when there
        is none. */
    method Balloc() returns (ok: bool, b: nat)
      requires sb.Valid() && |blk| == |owner| == sb.size && BitsMatch(sb, blk, owner) && Logging()
      modifies this`blk, this`logged
      ensures Logging()
      ensures ok ==> b < sb.size && owner[b] == Free && forall c :: 0 <= c < b ==> owner[c] != Free
      ensures ok ==> sb.Bblock(b) < |old(blk)| && blk == Allocated(sb, old(blk), b)
      ensures ok ==> logged == old(logged) + {sb.Bblock(b), b}
      ensures !ok ==> blk == old(blk) && logged == old(logged)
      ensures !ok ==> forall c :: 0 <= c < sb.size ==> owner[c] != Free
    {
      hide PutBit, Bit;
      var base := 0;
      while base < sb.size
        invariant 0 <= base && base % BPB == 0 && blk == old(blk) && logged == old(logged) && Logging()
        invariant forall c :: 0 <= c < base && c < sb.size ==> owner[c] != Free
      {
        var bp := blk[sb.Bblock(base)];
        var bi := 0;
        while bi < BPB && base + bi < sb.size
          invariant 0 <= bi <= BPB && blk == old(blk) && logged == old(logged) && Logging()
          invariant forall c :: 0 <= c < base + bi && c < sb.size ==> owner[c] != Free
        {
          assert sb.Bblock(base + bi) == sb.Bblock(base) && (base + bi) % BPB == bi;
          assert Used(sb, blk, base + bi) == Bit(bp, bi);
          if !Bit(bp, bi) {
            b := base + bi;
            LogWrite(sb.Bblock(base), PutBit(bp, bi, true));
            LogWrite(b, ZeroBlock());
            return true, b;
          }
          bi := bi + 1;
        }
        base := base + BPB;
      }
      return false, 0;
    }

    /** Clears the bit of a block in use; a panic on a free one. */
    method Bfree(b: nat) returns (ok: bool)
      requires sb.Bblock(b) < |blk| && sb.Valid() && Logging()
      modifies this`blk, this`logged
      ensures Logging()
      ensures ok == Used(sb, old(blk), b)
      ensures ok ==> blk == WithBit(sb, old(blk), b, false) && logged == old(logged) + {sb.Bblock(b)}
      ensures !ok ==> blk == old(blk) && logged == old(logged)
    {
      var bp := blk[sb.Bblock(b)];
      if !Bit(bp, b % BPB) { return false; }
      LogWrite(sb.Bblock(b), PutBit(bp, b % BPB, false));
      ok := true;
    }

    ghost predicate Full()
      reads this
    {
      forall c :: 0 <= c < |owner| ==> owner[c] != Free
    }

    /** ip->addrs[k] = balloc(dev). */
    method AllocAddr(i: nat, k: nat) returns (ok: bool, b: nat)
      requires Owning(sb, Now()) && i < |ino| && k <= NDIRECT && ino[i].addrs[k] == 0 && Logging()
      modifies this
      ensures Logging() && begun == old(begun)
      ensures !ok ==> Full() && Now() == old(Now()) && logged == old(logged)
      ensures ok ==> b < sb.size < UINT_RANGE && Owning(sb, Now()) && ino == old(ino)[i := WithAddr(old(ino)[i], k, b)]
      ensures ok ==> Attached(sb, old(Now()), Now(), i, if k < NDIRECT then k else INDIRECT, b)
      ensures ok ==> logged == old(logged) + {sb.Bblock(b), b}
    {
      hide Attached, Logging;
      ok, b := Balloc();
      if ok {
        AttachAddr(sb, old(Now()), i, k, b);
        ino := ino[i := WithAddr(ino[i], k, b)];
        owner := owner[b := Owned(i, if k < NDIRECT then k else INDIRECT)];
      }
    }

    /** a[s - NDIRECT] = balloc(dev); log_write(bp). */
    method AllocEntry(i: nat, s: nat) returns (ok: bool, b: nat)
      requires Owning(sb, Now()) && i < |ino| && NDIRECT <= s < INDIRECT && Logging()
      requires ino[i].addrs[NDIRECT] != 0 && PtrOf(blk, ino[i], s) == 0
      modifies this
      ensures Logging() && begun == old(begun)
      ensures ino == old(ino)
      ensures !ok ==> Full() && Now() == old(Now()) && logged == old(logged)
      ensures ok ==> Owning(sb, Now()) && Attached(sb, old(Now()), Now(), i, s, b)
      ensures ok ==> logged == old(logged) + {sb.Bblock(b), b, ino[i].addrs[NDIRECT]}
    {
      hide Attached, PtrOf, SetWord, PtrsMatch, BitsMatch, Logging;
      ok, b := Balloc();
      if ok {
        AttachEntry(sb, old(Now()), i, s, b);
        var x := ino[i].addrs[NDIRECT];
        LogWrite(x, SetWord(blk[x], s - NDIRECT, b));
        owner := owner[b := Owned(i, s)];
      }
    }

    /** bmap's direct case. */
    method BmapDirect(i: nat, bn: nat) returns (ok: bool, addr: nat, ghost maps: set<nat>)
      requires Owning(sb, Now()) && i < |ino| && bn < NDIRECT && Logging()
      modifies this
      ensures Logging() && begun == old(begun)
      ensures !ok ==> Full()
      ensures ok ==> Reached(sb, old(Now()), Now(), i, bn, addr)
      ensures PtrOf(old(blk), old(ino)[i], bn) != 0 ==> ok && Now() == old(Now()) && logged == old(logged) && maps == {}
      ensures ok ==> logged <= old(logged) + {addr} + maps && |maps| <= 1
      ensures ok ==> ino[i].addrs[NDIRECT] == old(ino)[i].addrs[NDIRECT]
      ensures forall m :: m in maps ==> InBitmap(sb, m)
    {
      hide PtrOf, PtrsMatch, BitsMatch, Attached, PtrStored;
      ok, maps := true, {};
      AddrOwned(blk, ino, owner, i, bn);
      addr := ino[i].addrs[bn];
      if addr == 0 {
        ok, addr := AllocAddr(i, bn);
        if ok {
          maps := {sb.Bblock(addr)};
          AttachedReached(sb, old(Now()), Now(), i, bn, addr);
        }
      } else {
        ReachedAlready(sb, Now(), i, bn);
      }
    }

    /** bmap's indirect case. */
    method BmapIndirect(i: nat, bn: nat) returns (ok: bool, addr: nat, ghost maps: set<nat>)
      requires Owning(sb, Now()) && i < |ino| && NDIRECT <= bn < MAXFILE && Logging()
      modifies this
      ensures Logging() && begun == old(begun)
      ensures !ok ==> Full()
      ensures ok ==> Reached(sb, old(Now()), Now(), i, bn, addr)
      ensures PtrOf(old(blk), old(ino)[i], bn) != 0 ==> ok && Now() == old(Now()) && logged == old(logged) && maps == {}
      ensures ok ==> logged <= old(logged) + {addr} + IndirectOf(ino[i]) + maps
      ensures ok ==> |maps| <= NewMaps(PtrOf(old(blk), old(ino)[i], bn) != 0, old(ino)[i], ino[i])
      ensures forall m :: m in maps ==> InBitmap(sb, m)
    {
      hide PtrOf, PtrsMatch, BitsMatch, Attached, PtrStored, Grew, Word, Logging;
      ghost var v := Now();
      ok, maps := true, {};
      EntryPtr(sb, Now(), i, bn);
      GrewNot(sb, v, i);
      var ind := ino[i].addrs[NDIRECT];
      if ind == 0 {
        ok, ind := AllocAddr(i, NDIRECT);
        if !ok { return ok, 0, {}; }
        maps := {sb.Bblock(ind)};
        IndirectAttached(sb, v, Now(), i, ind);
        BblockInBitmap(sb, ind);
        EntryPtr(sb, Now(), i, bn);
      }
      ghost var u := Now();
      addr := Word(blk[ind], bn - NDIRECT);
      if addr == 0 {
        ok, addr := AllocEntry(i, bn);
        if !ok { return ok, 0, maps; }
        maps := maps + {sb.Bblock(addr)};
        AttachedReached(sb, u, Now(), i, bn, addr);
        ReachedTwice(sb, v, u, Now(), i, bn, addr);
      } else {
        ReachedAlready(sb, v, i, bn);
      }
    }

    /** The block holding file block bn of any file, with or without holes: allocated
        if there is none, and nothing changed if there is.  A panic past the largest
        file, or when no block is left. */
    method Bmap(i: nat, bn: nat) returns (ok: bool, addr: nat, ghost maps: set<nat>)
      requires Owning(sb, Now()) && i < |ino| && Logging()
      modifies this
      ensures Logging() && begun == old(begun)
      ensures !ok ==> bn >= MAXFILE || Full()
      ensures bn >= MAXFILE ==> !ok && Now() == old(Now()) && logged == old(logged)
      ensures ok ==> Reached(sb, old(Now()), Now(), i, bn, addr) && |ino| == |old(ino)|
      ensures bn < MAXFILE && PtrOf(old(blk), old(ino)[i], bn) != 0 ==>
                ok && Now() == old(Now()) && logged == old(logged) && maps == {}
      ensures ok ==> logged <= old(logged) + {addr} + IndirectOf(ino[i]) + maps
      ensures ok ==> |maps| <= NewMaps(PtrOf(old(blk), old(ino)[i], bn) != 0, old(ino)[i], ino[i])
      ensures forall m :: m in maps ==> InBitmap(sb, m)
    {
      hide Owns, PtrOf, Logging;
      if bn < NDIRECT {
        ok, addr, maps := BmapDirect(i, bn);
      } else if bn < MAXFILE {
        ok, addr, maps := BmapIndirect(i, bn);
      } else {
        return false, 0, {};
      }
    }

    /** bmap in a file without holes, up to one block past the len bytes it has. */
    method BmapNext(i: nat, bn: nat, ghost len: nat) returns (ok: bool, addr: nat, ghost maps: set<nat>)
      requires Owning(sb, Now()) && i < |ino| && bn < MAXFILE && Logging()
      requires Filled(blk, ino[i], len) && bn * BSIZE <= len
      modifies this
      ensures Logging() && begun == old(begun)
      ensures !ok ==> Full()
      ensures ok ==> Mapped(sb, old(Now()), Now(), i, bn, len, addr)
      ensures ok ==> |ino| == |old(ino)| && 0 < addr < |blk| && addr == PtrOf(blk, ino[i], bn)
      ensures bn * BSIZE < len ==> ok && Now() == old(Now()) && logged == old(logged) && maps == {}
      ensures ok ==> logged <= old(logged) + {addr} + IndirectOf(ino[i]) + maps
      ensures ok ==> |maps| <= NewMaps(bn * BSIZE < len, old(ino)[i], ino[i])
      ensures forall m :: m in maps ==> InBitmap(sb, m)
    {
      hide Mapped, Owns, Reached, PtrOf, Logging;
      ghost var v := Now();
      ok, addr, maps := Bmap(i, bn);
      if ok {
        ReachedMapped(sb, v, Now(), i, bn, len, addr);
        MappedAddr(sb, v, Now(), i, bn, len, addr);
      }
    }

    /** One turn of itrunc's loops: free the block in slot k, if there is one. */
    method ReleaseBlock(ghost v: View, i: nat, ghost k: nat, p: nat)
      requires Owning(sb, v) && i < |v.ino| && k <= INDIRECT && p == PtrOf(v.blk, v.ino[i], k) && Logging()
      requires Releasing(sb, v, blk, i, k)
      modifies this`blk, this`logged
      ensures Logging()
      ensures Releasing(sb, v, blk, i, k + 1)
      ensures forall b :: b in logged - old(logged) ==> InBitmap(sb, b)
    {
      hide PtrOf, BitsMatch, PtrsMatch, PutBit, Used, Logging;
      ReleaseStep(sb, v, blk, i, k);
      if p != 0 {
        var ok := Bfree(p);
        assert ok;
      }
    }

    /** itrunc's loop over the direct pointers. */
    method FreeDirect(ghost v: View, i: nat)
      requires Owning(sb, v) && v == Now() && i < |ino| && Releasing(sb, v, blk, i, 0) && Logging()
      modifies this`blk, this`ino, this`logged
      ensures Logging()
      ensures Releasing(sb, v, blk, i, NDIRECT)
      ensures |ino| == |v.ino| && ino[i] == v.ino[i].(addrs := ino[i].addrs) && ino == v.ino[i := ino[i]]
      ensures ino[i].addrs[NDIRECT] == v.ino[i].addrs[NDIRECT]
      ensures forall k :: 0 <= k < NDIRECT ==> ino[i].addrs[k] == 0
      ensures forall b :: b in logged - old(logged) ==> InBitmap(sb, b)
    {
      hide Owns, Releasing, Word, Logging;
      var k := 0;
      while k < NDIRECT
        invariant 0 <= k <= NDIRECT && Releasing(sb, v, blk, i, k) && Logging()
        invariant |ino| == |v.ino| && ino[i] == v.ino[i].(addrs := ino[i].addrs) && ino == v.ino[i := ino[i]]
        invariant forall j :: k <= j <= NDIRECT ==> ino[i].addrs[j] == v.ino[i].addrs[j]
        invariant forall j :: 0 <= j < k ==> ino[i].addrs[j] == 0
        invariant forall b :: b in logged - old(logged) ==> InBitmap(sb, b)
      {
        ReleaseBlock(v, i, k, ino[i].addrs[k]);
        ino := ino[i := WithAddr(ino[i], k, 0)];
        k := k + 1;
      }
    }

    /** itrunc's loop over the indirect block, and the indirect block itself. */
    method FreeIndirect(ghost v: View, i: nat)
      requires Owning(sb, v) && i < |v.ino| == |ino| && Releasing(sb, v, blk, i, NDIRECT) && Logging()
      requires ino[i].addrs[NDIRECT] == v.ino[i].addrs[NDIRECT]
      modifies this`blk, this`ino, this`logged
      ensures Logging()
      ensures Releasing(sb, v, blk, i, INDIRECT + 1)
      ensures ino == old(ino)[i := WithAddr(old(ino)[i], NDIRECT, 0)]
      ensures forall b :: b in logged - old(logged) ==> InBitmap(sb, b)
    {
      hide Owns, Releasing, Word, PtrOf, Logging;
      var x := ino[i].addrs[NDIRECT];
      if x != 0 {
        IndirectKept(sb, v, blk, i, NDIRECT);
        var a := blk[x];
        var j := NDIRECT;
        while j < INDIRECT
          invariant NDIRECT <= j <= INDIRECT && Releasing(sb, v, blk, i, j) && ino == old(ino) && Logging()
          invariant forall b :: b in logged - old(logged) ==> InBitmap(sb, b)
        {
          EntryPtr(sb, v, i, j);
          ReleaseBlock(v, i, j, Word(a, j - NDIRECT));
          j := j + 1;
        }
        EntryPtr(sb, v, i, NDIRECT);
        ReleaseBlock(v, i, INDIRECT, x);
        ino := ino[i := WithAddr(ino[i], NDIRECT, 0)];
      } else {
        NothingIndirect(sb, v, blk, i, NDIRECT);
        assert ino[i].addrs[NDIRECT := 0] == ino[i].addrs;
      }
    }

    /** itrunc: every block of the file is freed exactly once, never a free one, and
        the inode is left empty in memory and on disk; no other file changes.  Only
        bitmap blocks and the inode's block are logged. */
    method Itrunc(i: nat)
      requires Valid() && i < |ino| && Logging()
      modifies this
      ensures Logging() && begun == old(begun)
      ensures Valid() && |ino| == |old(ino)| && File(i) == []
      ensures ino[i] == NoAddrs(old(ino[i])).(size := 0)
      ensures OtherFilesSame(sb, old(Now()), Now(), i)
      ensures owner == Released(old(owner), i, INDIRECT + 1)
      ensures forall b :: b in logged - old(logged) ==> InBitmap(sb, b) || b == sb.Iblock(i)
    {
      hide PtrOf, Owns, Synced, Filled, Releasing, FileOf, Released, Word, Logging;
      ghost var v := Now();
      ReleasingNone(sb, v, i);
      FreeDirect(v, i);
      FreeIndirect(v, i);
      TruncateDone(sb, v, blk, i);
      ino := ino[i := ino[i].(size := 0)];
      owner := Released(owner, i, INDIRECT + 1);
      assert ino[i].addrs == NoAddrs(v.ino[i]).addrs;
      assert Now() == Emptied(v, blk, i);
      Iupdate(i);
    }

    /** iupdate: the inode's sixteen words, stored one after the other. */
    method Iupdate(i: nat)
      requires i < |ino| && sb.Iblock(i) < |blk| && Logging()
      modifies this`blk, this`logged
      ensures Logging()
      ensures Now() == Updated(sb, old(Now()), i) && logged == old(logged) + {sb.Iblock(i)}
    {
      hide Fields, SetWord, PutWords, Word, InodeAt;
      var bp := blk[sb.Iblock(i)];
      PutWordsNone(bp, 16 * (i % IPB), Fields(ino[i]));
      var base, ws := 16 * (i % IPB), Fields(ino[i]);
      var k := 0;
      while k < 16
        invariant blk == old(blk) && logged == old(logged) && Logging()
        invariant 0 <= k <= 16 && bp == PutWords(blk[sb.Iblock(i)], base, ws, k)
      {
        PutWordsNext(blk[sb.Iblock(i)], base, ws, k);
        bp := SetWord(bp, base + k, ws[k]);
        k := k + 1;
      }
      LogWrite(sb.Iblock(i), bp);
    }

    ghost predicate Valid()
      reads this
    {
      ValidView(sb, Now())
    }

    /** The contents of file i. */
    ghost function File(i: nat): (c: seq<byte>)
      reads this
      requires Valid() && i < |ino|
      ensures |c| == ino[i].size
    {
      FileOf(sb, Now(), i)
    }

    /** One turn of readi's loop: the rest of the block at pos, at most left bytes. */
    method ReadPiece(i: nat, pos: nat, left: nat) returns (piece: seq<byte>)
      requires Valid() && i < |ino| && pos + left <= ino[i].size && left > 0 && Logging()
      modifies this
      ensures Logging() && begun == old(begun)
      ensures Now() == old(Now()) && logged == old(logged)
      ensures 0 < |piece| <= left && piece == old(File(i)[pos..pos + |piece|])
    {
      hide PtrOf, Synced, Mapped, BitsMatch, PtrsMatch, Bytes, Logging;
      OwnedOnDisk(blk, ino, owner, i);
      var ok, addr, maps := BmapNext(i, pos / BSIZE, ino[i].size);
      var o := pos % BSIZE;
      var m := if left < BSIZE - o then left else BSIZE - o;
      BlockBytes(blk, ino[i], ino[i].size, pos / BSIZE, o, m);
      piece := blk[addr][o..o + m];
    }

    /** readi: the bytes from off on, at most n and not past the end; refused if
        off is past the end or off + n overflows.  bmap never allocates here, so
        nothing changes. */
    method Readi(i: nat, off: uint32, n: uint32) returns (r: int, dst: seq<byte>)
      requires Valid() && i < |ino| && ino[i].typ != T_DEV
      modifies this
      ensures Now() == old(Now()) && logged == old(logged) && begun == old(begun) && Valid()
      ensures r == -1 <==> off > ino[i].size || off + n >= UINT_RANGE
      ensures r == -1 ==> dst == []
      ensures r != -1 ==>
                && r == (if off + n <= ino[i].size then n else ino[i].size - off)
                && dst == File(i)[off..off + r]
    {
      hide ValidView, FileOf, Logging;
      if off > ino[i].size || off + n >= UINT_RANGE { return -1, []; }
      var m := if off + n > ino[i].size then ino[i].size - off else n;
      ghost var file := File(i);
      BeginOp();
      dst := [];
      while |dst| < m
        invariant |dst| <= m && Now() == old(Now()) && Logging()
        invariant dst == file[off..off + |dst|]
      {
        var piece := ReadPiece(i, off + |dst|, m - |dst|);
        SliceMore(file, off, off + |dst|, off + |dst| + |piece|);
        dst := dst + piece;
      }
      r := m;
      logged, begun := old(logged), old(begun);
    }

    /** One turn of writei's loop: fill the block at off, with at most left bytes
        of src from position p on. */
    method WritePiece(i: nat, off: nat, src: seq<byte>, p: nat, left: nat, ghost len: nat)
      returns (ok: bool, m: nat, ghost addr: nat, ghost maps: set<nat>)
      requires Owning(sb, Now()) && i < |ino| && Filled(blk, ino[i], len) && Logging()
      requires off <= len && 0 < left && p + left <= |src| && off + left <= MAXFILE * BSIZE
      modifies this
      ensures Logging() && begun == old(begun)
      ensures !ok ==> Full()
      ensures 0 < m <= left && (m == left || (off + m) % BSIZE == 0) && off % BSIZE + m <= BSIZE
      ensures ok ==> Owning(sb, Now()) && Kept(sb, old(Now()), Now(), i) && |ino| == |old(ino)|
      ensures ok ==> Filled(blk, ino[i], Max(len, off + m))
      ensures ok ==> Spliced(old(Now()), Now(), i, len, off, src, p, m)
      ensures ok && off + m <= len ==> ino == old(ino)
      ensures ok ==> logged <= old(logged) + {addr} + IndirectOf(ino[i]) + maps
      ensures ok ==> |maps| <= BlocksFor(Max(len, off + m)) - BlocksFor(len)
                               + |IndirectOf(ino[i])| - |IndirectOf(old(ino)[i])|
      ensures forall b :: b in maps ==> InBitmap(sb, b)
    {
      hide PtrOf, Owns, Spliced, Kept, Grew, Overwrite, Filled, Logging;
      ghost var v := Now();
      var o := off % BSIZE;
      m := if left < BSIZE - o then left else BSIZE - o;
      PieceBlocks(len, off, m);
      var a;
      ok, a, maps := BmapNext(i, off / BSIZE, len);
      addr := a;
      if ok {
        ghost var u := Now();
        GrewKept(sb, v, u, i);
        FilledSame(blk, ino[i], Covered(len, off / BSIZE), Max(len, off + m));
        DataSplices(sb, u, i, Max(len, off + m), off, a, src, p, m);
        DataKept(sb, u, i, off / BSIZE, a, Overwrite(blk[a], o, src, p, m));
        LogWrite(a, Overwrite(blk[a], o, src, p, m));
        KeptTwice(sb, v, u, Now(), i);
        SplicedAfterGrew(sb, v, u, Now(), i, len, off, src, p, m);
      }
    }

    /** writei's loop: src spliced in block by block, and what it logs. */
    method WriteBlocks(i: nat, src: seq<byte>, off: nat)
      returns (ok: bool, ghost data: set<nat>, ghost maps: set<nat>)
      requires Owning(sb, Now()) && i < |ino| && Filled(blk, ino[i], ino[i].size) && Logging()
      requires off <= ino[i].size && off + |src| <= MAXFILE * BSIZE
      modifies this
      ensures Logging() && begun == old(begun)
      ensures !ok ==> Full()
      ensures ok ==> |ino| == |old(ino)| && Owning(sb, Now()) && Kept(sb, old(Now()), Now(), i)
      ensures ok ==> Filled(blk, ino[i], Max(old(ino)[i].size, off + |src|))
      ensures ok ==> Spliced(old(Now()), Now(), i, old(ino)[i].size, off, src, 0, |src|)
      ensures ok && off + |src| <= old(ino)[i].size ==> ino == old(ino)
      ensures ok ==> LogCount(sb, old(ino)[i], ino[i], off, |src|, old(logged), logged, data, maps)
    {
      hide Owning, Kept, Filled, Spliced, IndirectOf, LogCount, BlocksFor, InBitmap, Logging;
      ghost var v, size := Now(), ino[i].size;
      ok, data, maps := true, {}, {};
      LogCountNone(sb, ino[i], off, logged);
      SplicedNot(sb, v, i, size, off, src);
      var tot := 0;
      while tot < |src|
        invariant 0 <= tot <= |src| && i < |ino| == |v.ino| && Logging() && begun == old(begun)
        invariant Owning(sb, Now()) && Kept(sb, v, Now(), i)
        invariant Filled(blk, ino[i], Max(size, off + tot)) && Spliced(v, Now(), i, size, off, src, 0, tot)
        invariant off + tot <= size ==> ino == v.ino
        invariant tot == 0 || tot == |src| || (off + tot) % BSIZE == 0
        invariant LogCount(sb, v.ino[i], ino[i], off, tot, old(logged), logged, data, maps)
      {
        ghost var u, log := Now(), logged;
        ghost var addr, more;
        var m;
        ok, m, addr, more := WritePiece(i, off + tot, src, tot, |src| - tot, Max(size, off + tot));
        if !ok { return; }
        KeptSize(sb, u, Now(), i);
        KeptTwice(sb, v, u, Now(), i);
        SplicedTwice(v, u, Now(), i, size, off, src, tot, m);
        LogCountStep(sb, v.ino[i], u.ino[i], ino[i], off, tot, m, old(logged), log, logged, data, maps, addr, more);
        data, maps := data + {addr}, maps + more;
        tot := tot + m;
      }
    }

    /** writei: refused past the end, on overflow or beyond the largest file;
        otherwise the file is spliced, all other files and inodes are untouched
        and memory and disk agree.  A panic means no block was left. */
    method Writei(i: nat, src: seq<byte>, off: uint32) returns (ok: bool, r: int, ghost tx: set<nat>)
      requires Valid() && i < |ino| && ino[i].typ != T_DEV && |src| < UINT_RANGE && Logging()
      modifies this
      ensures Logging() && begun == old(begun)
      ensures !ok ==> Full()
      ensures ok ==> Valid() && |ino| == |old(ino)| && ino[i].typ == old(ino[i].typ)
      ensures ok ==> (r == -1 <==> off > old(ino[i].size) || off + |src| > MAXFILE * BSIZE)
      ensures ok && r == -1 ==> Now() == old(Now()) && logged == old(logged)
      ensures ok && r != -1 ==> r == |src| && File(i) == Splice(old(File(i)), off, src)
      ensures ok && r != -1 ==> OtherFilesSame(sb, old(Now()), Now(), i)
      ensures ok ==> logged <= old(logged) + tx
      ensures ok && |src| <= CHUNK ==> ChunkSized(sb, tx)
    {
      hide Owns, Kept, Spliced, Synced, Filled, FileOf, Splice, PtrOf, Logging;
      ok, r, tx := true, -1, {};
      if off > ino[i].size || off + |src| >= UINT_RANGE { return; }
      if off + |src| > MAXFILE * BSIZE { return; }
      ghost var v, size := Now(), ino[i].size;
      ghost var data, maps;
      ok, data, maps := WriteBlocks(i, src, off);
      if !ok { return; }
      r := |src|;
      KeptSize(sb, v, Now(), i);
      tx := data + maps + IndirectOf(ino[i]) + {sb.Iblock(i)};
      if |src| <= CHUNK {
        CountLogged(sb, v.ino[i], ino[i], off, |src|, old(logged), logged, data, maps, sb.Iblock(i));
      }
      if |src| > 0 && off + |src| > ino[i].size {
        WriteGrown(sb, v, Now(), i, off, src);
        ino := ino[i := ino[i].(size := off + |src|)];
        Iupdate(i);
      } else {
        WriteInside(sb, v, Now(), i, off, src);
      }
    }

    /** filewrite: chunk after chunk, each a transaction of its own and each within
        the log's bound for one operation. */
    method Filewrite(f: File, src: seq<byte>, n: int) returns (ok: bool, r: int, ghost txs: seq<set<nat>>)
      requires Valid() && f.ip < |ino| && ino[f.ip].typ != T_DEV && n <= |src| < UINT_RANGE
      modifies this, f
      ensures !f.writable || n < 0 ==> ok && r == -1 && Now() == old(Now()) && f.off == old(f.off) && txs == []
      ensures !ok ==> Full()
      ensures ok ==> Valid() && OtherFilesSame(sb, old(Now()), Now(), f.ip)
      ensures ok && f.writable && n >= 0 ==>
                var w := Written(old(ino[f.ip].size), old(f.off), n);
                && File(f.ip) == Rewritten(old(File(f.ip)), old(f.off), src, w)
                && f.off == old(f.off) + w
                && r == (if w == n then n else -1)
      ensures ok ==> forall t :: t in txs ==> ChunkSized(sb, t)
    {
      hide ValidView, FileOf, Splice, Rewritten, OtherFilesSame, BitmapBlocks, Written, WholeChunks, Logging;
      ok, txs := true, [];
      OthersSameNot(sb, Now(), f.ip);
      if !f.writable { return true, -1, []; }
      ghost var v, file, size, off := Now(), File(f.ip), ino[f.ip].size, f.off;
      RewrittenNone(file, off, src);
      SizeBound(sb, v, f.ip);
      NextChunk(0);
      var i := 0;
      while i < n
        invariant 0 <= i && (i <= n || i == 0) && (WholeChunks(i) || i == n)
        invariant Valid() && f.ip < |ino| && ino[f.ip].typ == v.ino[f.ip].typ && f.off == off + i
        invariant i > 0 ==> off <= size && off + i <= MAXFILE * BSIZE
        invariant OtherFilesSame(sb, v, Now(), f.ip) && File(f.ip) == Rewritten(file, off, src, i)
        invariant n < 0 ==> Now() == v && txs == []
        invariant forall t :: t in txs ==> ChunkSized(sb, t)
      {
        var m := if n - i > CHUNK then CHUNK else n - i;
        ghost var u := Now();
        if off <= size { RewrittenMore(file, off, src, i, m); }
        BeginOp();
        ghost var tx;
        ok, r, tx := Writei(f.ip, src[i..i + m], f.off);
        if !ok { return; }
        SubsetSize(logged, tx);
        txs := txs + [logged];
        if r < 0 {
          WrittenStops(size, off, n, i, m);
          break;
        }
        f.off := f.off + r;
        OthersSameTwice(sb, v, u, Now(), f.ip);
        NextChunk(i);
        i := i + r;
      }
      if i == n { WrittenAll(size, off, n); }
      r := if i == n then n else -1;
    }
  }
}
