/** mkfs: inodes handed out and files appended to on a zeroed disk, with blocks taken
    in order and the free map written last. */
module MakeFs {
  import opened Blocks
  import opened FileLayout
  import opened FileSystem
  import opened Machine

  const T_DIR := 1
  const T_FILE := 2
  const DIRSIZ := 14
  const ROOTINO := 1

  // ---- The free map that balloc will write ----

  lemma ZeroBits(k: nat)
    requires k < BPB
    ensures !Bit(ZeroBlock(), k)
  {
    ZeroNatBit(k % 8);
  }

  lemma {:induction false} ZeroNatBit(k: nat)
    ensures !NatBit(0, k)
  {
    if k > 0 { ZeroNatBit(k - 1); }
  }

  /** A block with its first n bits set. */
  function Bits(n: nat): (b: Block)
    requires n <= BPB
    ensures n == 0 ==> b == ZeroBlock()
  {
    if n == 0 then ZeroBlock() else PutBit(Bits(n - 1), n - 1, true)
  }

  lemma {:induction false} BitsSet(n: nat)
    requires n <= BPB
    ensures forall k :: 0 <= k < BPB ==> (Bit(Bits(n), k) <==> k < n)
  {
    hide Bit, PutBit;
    if n == 0 {
      forall k | 0 <= k < BPB ensures !Bit(Bits(n), k) { ZeroBits(k); }
    } else {
      BitsSet(n - 1);
    }
  }

  /** How many of the first n blocks have their bit in bitmap block j. */
  function Share(n: nat, j: int): (r: nat)
    ensures r <= BPB
  {
    var x := n - BPB * j;
    if x < 0 then 0 else if x > BPB then BPB else x
  }

  /** Bitmap block j with the first n blocks of the disk marked. */
  function BitmapBlock(n: nat, j: int): Block {
    Bits(Share(n, j))
  }

  /** The disk with the first n blocks marked in the free map. */
  ghost function Marked(sb: Super, blk: seq<Block>, n: nat): (r: seq<Block>)
    ensures |r| == |blk|
    ensures forall c {:trigger r[c]} :: 0 <= c < |blk| ==>
              r[c] == if InBitmap(sb, c) then BitmapBlock(n, c - sb.bmapstart) else blk[c]
  {
    seq(|blk|, c requires 0 <= c < |blk| => if InBitmap(sb, c) then BitmapBlock(n, c - sb.bmapstart) else blk[c])
  }

  lemma ShareOf(sb: Super, n: nat, b: nat)
    ensures sb.Bblock(b) - sb.bmapstart == b / BPB
    ensures b % BPB < Share(n, b / BPB) <==> b < n
  {
  }

  lemma MarkedUsed(sb: Super, blk: seq<Block>, n: nat, b: nat)
    requires sb.Valid() && |blk| == sb.size && b < sb.size
    ensures sb.Bblock(b) < |blk| && (Used(sb, Marked(sb, blk, n), b) <==> b < n)
  {
    hide Marked, Bit, Share, Bits;
    BblockInBitmap(sb, b);
    ShareOf(sb, n, b);
    BitsSet(Share(n, b / BPB));
  }

  lemma ShareNext(sb: Super, n: nat, c: nat)
    requires sb.bmapstart <= c
    ensures c == sb.Bblock(n) ==> Share(n, c - sb.bmapstart) == n % BPB && Share(n + 1, c - sb.bmapstart) == n % BPB + 1
    ensures c != sb.Bblock(n) ==> Share(n + 1, c - sb.bmapstart) == Share(n, c - sb.bmapstart)
  {
  }

  /** Taking the next block is what the kernel's balloc would do. */
  lemma MarkNext(sb: Super, blk: seq<Block>, n: nat)
    requires sb.Valid() && |blk| == sb.size && sb.DataStart() <= n < sb.size && blk[n] == ZeroBlock()
    ensures sb.Bblock(n) < |blk| && Marked(sb, blk, n + 1) == Allocated(sb, Marked(sb, blk, n), n)
  {
    hide Marked, PutBit, Share;
    BblockInBitmap(sb, n);
    var a, b := Marked(sb, blk, n), Marked(sb, blk, n + 1);
    forall c | 0 <= c < |blk| ensures b[c] == Allocated(sb, a, n)[c] {
      if InBitmap(sb, c) { ShareNext(sb, n, c); }
    }
  }

  lemma MarkWrite(sb: Super, blk: seq<Block>, n: nat, x: nat, data: Block)
    requires x < |blk| && !InBitmap(sb, x)
    ensures Marked(sb, blk[x := data], n) == Marked(sb, blk, n)[x := data]
  {
    hide Marked, BitmapBlock;
  }

  /** balloc writes one block of the map; the others stay zero. */
  lemma MarkFirst(sb: Super, blk: seq<Block>, n: nat)
    requires sb.Valid() && |blk| == sb.size && n < BPB
    requires forall c :: 0 <= c < |blk| && InBitmap(sb, c) ==> blk[c] == ZeroBlock()
    ensures Marked(sb, blk, n) == blk[sb.bmapstart := Bits(n)]
  {
    hide Marked;
    forall c | 0 <= c < |blk| ensures Marked(sb, blk, n)[c] == blk[sb.bmapstart := Bits(n)][c] {
    }
  }

  // ---- The zeroed disk ----

  function EmptyInode(): Inode {
    NewInode(0, 0)
  }

  /** What ialloc stores. */
  function NewInode(typ: uint16, nlink: uint16): (ip: Inode)
    ensures ip.size == 0 && NoAddrs(ip) == ip
  {
    Inode(typ, 0, 0, nlink, 0, seq(NDIRECT + 1, _ => 0))
  }

  lemma ZeroInode(k: nat)
    requires k < IPB
    ensures InodeAt(ZeroBlock(), k) == EmptyInode()
  {
    hide Word;
    var ws := Words(ZeroBlock(), 16 * k, 16);
    forall j | 0 <= j < 16 ensures ws[j] == 0 {
      ZeroWords(16 * k + j);
    }
    assert ws[3..] == seq(NDIRECT + 1, _ => 0);
  }

  /** Blank inodes own nothing. */
  lemma BlankPtrs(blk: seq<Block>, ino: seq<Inode>, owner: seq<Owner>)
    requires forall i :: 0 <= i < |ino| ==> ino[i] == EmptyInode()
    requires forall b :: 0 <= b < |owner| ==> !owner[b].Owned?
    ensures PtrsMatch(blk, ino, owner) && forall i :: 0 <= i < |ino| ==> Filled(blk, ino[i], 0)
  {
    hide Word;
  }

  ghost function BlankOwners(sb: Super): (r: seq<Owner>)
    ensures |r| == sb.size && forall b :: 0 <= b < |r| ==> r[b] == if b < sb.DataStart() then Meta else Free
  {
    seq(sb.size, b => if b < sb.DataStart() then Meta else Free)
  }

  lemma BlankValid(sb: Super, blk: seq<Block>)
    requires sb.Valid() && |blk| == sb.size && forall c :: 2 <= c < sb.size ==> blk[c] == ZeroBlock()
    ensures ValidView(sb, View(Marked(sb, blk, sb.DataStart()), seq(sb.ninodes, _ => EmptyInode()), BlankOwners(sb)))
  {
    hide Marked, BlankOwners, Filled, PtrOf, InodeAt, Used, PtrsMatch, EmptyInode, ZeroBlock;
    var v := View(Marked(sb, blk, sb.DataStart()), seq(sb.ninodes, _ => EmptyInode()), BlankOwners(sb));
    forall b | 0 <= b < sb.size ensures Used(sb, v.blk, b) <==> v.owner[b] != Free {
      MarkedUsed(sb, blk, sb.DataStart(), b);
    }
    BlankPtrs(v.blk, v.ino, v.owner);
    BlankSize();
    forall i | 0 <= i < |v.ino| ensures sb.Iblock(i) < |v.blk| && Synced(sb, v, i) {
      ZeroInode(i % IPB);
    }
  }

  lemma BlankSize()
    ensures EmptyInode().size == 0
  {
  }

  // ---- iappend ----

  /** Blocks that a file of len bytes takes, the indirect block included. */
  function Total(len: nat): nat {
    BlocksFor(len) + if len > NDIRECT * BSIZE then 1 else 0
  }

  /** Blocks that the next byte of a file of len bytes needs. */
  function NextNeeds(len: nat): nat {
    if len % BSIZE != 0 then 0 else if len == NDIRECT * BSIZE then 2 else 1
  }

  lemma TotalNext(len: nat, m: nat)
    requires 0 < m && len % BSIZE + m <= BSIZE
    ensures Total(len + m) == Total(len) + NextNeeds(len)
  {
  }

  lemma {:induction false} TotalGrows(a: nat, b: nat)
    requires a <= b
    ensures Total(a) <= Total(b)
  {
  }

  /** Everything but the bitmap, as it will be read. */
  ghost function ViewOf(sb: Super, blk: seq<Block>, ino: seq<Inode>, owner: seq<Owner>, n: nat): View {
    View(Marked(sb, blk, n), ino, owner)
  }

  /** Blocks of files are below n, and none is part of the bitmap. */
  lemma OwnedBelow(sb: Super, blk: seq<Block>, ino: seq<Inode>, owner: seq<Owner>, n: nat, b: nat)
    requires |blk| == sb.size && Owning(sb, ViewOf(sb, blk, ino, owner, n)) && b < sb.size && owner[b].Owned?
    ensures b < n && sb.DataStart() <= b && !InBitmap(sb, b)
    ensures Marked(sb, blk, n)[b] == blk[b]
  {
    hide Marked, PtrsMatch, Used;
    MarkedUsed(sb, blk, n, b);
  }

  /** din.addrs[k] = freeblock++. */
  lemma TakeAddr(sb: Super, blk: seq<Block>, ino: seq<Inode>, owner: seq<Owner>, n: nat, i: nat, k: nat)
    requires |blk| == sb.size && Owning(sb, ViewOf(sb, blk, ino, owner, n))
    requires sb.DataStart() <= n < sb.size && blk[n] == ZeroBlock()
    requires i < |ino| && k <= NDIRECT && ino[i].addrs[k] == 0
    ensures var s := if k < NDIRECT then k else INDIRECT;
            var w := ViewOf(sb, blk, ino[i := WithAddr(ino[i], k, n)], owner[n := Owned(i, s)], n + 1);
            Owning(sb, w) && Attached(sb, ViewOf(sb, blk, ino, owner, n), w, i, s, n)
  {
    hide Marked, PtrsMatch, Used, Attached, PtrOf;
    MarkedUsed(sb, blk, n, n);
    MarkNext(sb, blk, n);
    AttachAddr(sb, ViewOf(sb, blk, ino, owner, n), i, k, n);
  }

  /** indirect[s - NDIRECT] = freeblock++, and the indirect block written. */
  lemma TakeEntry(sb: Super, blk: seq<Block>, ino: seq<Inode>, owner: seq<Owner>, n: nat, i: nat, s: nat)
    requires |blk| == sb.size && Owning(sb, ViewOf(sb, blk, ino, owner, n))
    requires sb.DataStart() <= n < sb.size && blk[n] == ZeroBlock()
    requires i < |ino| && NDIRECT <= s < INDIRECT && ino[i].addrs[NDIRECT] != 0
    requires PtrOf(Marked(sb, blk, n), ino[i], s) == 0
    ensures var x := ino[i].addrs[NDIRECT];
            && sb.DataStart() <= x < n && !InBitmap(sb, x)
            && (var w := ViewOf(sb, blk[x := SetWord(blk[x], s - NDIRECT, n)], ino, owner[n := Owned(i, s)], n + 1);
                Owning(sb, w) && Attached(sb, ViewOf(sb, blk, ino, owner, n), w, i, s, n))
  {
    hide Marked, PtrsMatch, Used, Attached, PtrOf, SetWord;
    var x, v := ino[i].addrs[NDIRECT], ViewOf(sb, blk, ino, owner, n);
    MarkedUsed(sb, blk, n, n);
    AddrOwned(v.blk, ino, owner, i, NDIRECT);
    OwnedBelow(sb, blk, ino, owner, n, x);
    MarkNext(sb, blk, n);
    MarkWrite(sb, blk, n + 1, x, SetWord(blk[x], s - NDIRECT, n));
    AttachEntry(sb, v, i, s, n);
  }

  /** A file's end decides whether its next block is there. */
  lemma EndBlock(blk: seq<Block>, ip: Inode, len: nat)
    requires Filled(blk, ip, len) && len < MAXFILE * BSIZE
    ensures PtrOf(blk, ip, len / BSIZE) == 0 <==> len % BSIZE == 0
    ensures PtrOf(blk, ip, INDIRECT) != 0 <==> NDIRECT * BSIZE < len
    ensures len / BSIZE < MAXFILE && len / BSIZE * BSIZE <= len
    ensures NDIRECT <= len / BSIZE <==> NDIRECT * BSIZE <= len
  {
    hide PtrOf;
    assert PtrOf(blk, ip, len / BSIZE) != 0 <==> len / BSIZE * BSIZE < len;
  }

  /** The contents of a file and what is appended to it. */
  lemma SpliceEnd(c: seq<byte>, src: seq<byte>)
    ensures Splice(c, |c|, src) == c + src
  {
  }

  /** Everything between the super block and the inodes is zero: the log is empty. */
  ghost predicate LogBlank(sb: Super, blk: seq<Block>) {
    forall c :: 2 <= c < sb.inodestart && c < |blk| ==> blk[c] == ZeroBlock()
  }

  /** Blocks from n on, the log and the bitmap are still zero. */
  ghost predicate RoomFrom(sb: Super, blk: seq<Block>, n: nat) {
    && sb.Valid() && |blk| == sb.size && sb.DataStart() <= n <= sb.size
    && (forall c :: n <= c < |blk| ==> blk[c] == ZeroBlock())
    && (forall c :: 0 <= c < |blk| && InBitmap(sb, c) ==> blk[c] == ZeroBlock())
    && LogBlank(sb, blk)
  }

  lemma RoomKept(sb: Super, blk: seq<Block>, n: nat, x: nat, data: Block)
    requires RoomFrom(sb, blk, n) && sb.DataStart() <= x < n
    ensures x < |blk| && RoomFrom(sb, blk[x := data], n)
  {
    hide ZeroBlock;
  }

  lemma RoomNext(sb: Super, blk: seq<Block>, n: nat)
    requires RoomFrom(sb, blk, n) && n < sb.size
    ensures blk[n] == ZeroBlock() && RoomFrom(sb, blk, n + 1)
  {
    hide ZeroBlock;
  }

  lemma RoomSizes(sb: Super, blk: seq<Block>, n: nat)
    requires RoomFrom(sb, blk, n)
    ensures sb.Valid() && |blk| == sb.size && sb.DataStart() <= n <= sb.size
  {
  }

  /** A blank inode replaced by a new one. */
  lemma ReplaceBlank(sb: Super, v: View, i: nat, ip: Inode)
    requires Owning(sb, v) && i < |v.ino| && v.ino[i] == NoAddrs(v.ino[i]) && ip == NoAddrs(ip)
    ensures Owning(sb, v.(ino := v.ino[i := ip]))
  {
    hide Word, Used;
    var w := v.(ino := v.ino[i := ip]);
    forall j, t | 0 <= j < |v.ino| && 0 <= t <= INDIRECT
      ensures PtrOf(w.blk, w.ino[j], t) == PtrOf(v.blk, v.ino[j], t)
    {
    }
  }

  /** ialloc: the new inode in its slot, on a disk where it was blank. */
  lemma InodeStored(sb: Super, v: View, i: nat, ip: Inode)
    requires ValidView(sb, v) && i < |v.ino| && v.ino[i] == NoAddrs(v.ino[i]) && ip == NoAddrs(ip) && ip.size == 0
    ensures sb.Iblock(i) < |v.blk| && sb.Iblock(i) < sb.bmapstart
    ensures var z := Updated(sb, v.(ino := v.ino[i := ip]), i);
            ValidView(sb, z) && OtherFilesSame(sb, v, z, i) && FileOf(sb, z, i) == []
  {
    hide PtrOf, PtrsMatch, BitsMatch, InodeAt, PutWords, Fields, NoAddrs;
    ReplaceBlank(sb, v, i, ip);
    var u := v.(ino := v.ino[i := ip]);
    UpdateSyncs(sb, u, i);
    var z := Updated(sb, u, i);
    EmptyFilled(z.blk, z.ino[i]);
    OthersValid(sb, v, z, i);
  }

  lemma IblockFits(sb: Super, i: nat)
    requires sb.Valid()
    ensures sb.bmapstart < sb.size && (i < sb.ninodes ==> sb.Iblock(i) < sb.bmapstart)
  {
  }

  /** The disk with inode i stored. */
  function WithInode(sb: Super, blk: seq<Block>, i: nat, din: Inode): (r: seq<Block>)
    requires sb.Iblock(i) < |blk|
    ensures |r| == |blk|
  {
    var c := sb.Iblock(i);
    blk[c := PutWords(blk[c], 16 * (i % IPB), Fields(din), 16)]
  }

  /** Storing an inode in the marked disk. */
  lemma MarkInode(sb: Super, blk: seq<Block>, ino: seq<Inode>, owner: seq<Owner>, n: nat, i: nat)
    requires sb.Valid() && |blk| == sb.size && i < |ino| == sb.ninodes
    ensures sb.Iblock(i) < sb.bmapstart < |blk|
    ensures ViewOf(sb, WithInode(sb, blk, i, ino[i]), ino, owner, n) == Updated(sb, ViewOf(sb, blk, ino, owner, n), i)
  {
    hide Marked, PutWords, Fields;
    IblockFits(sb, i);
    var c := sb.Iblock(i);
    assert Marked(sb, blk, n)[c] == blk[c];
    MarkWrite(sb, blk, n, c, PutWords(blk[c], 16 * (i % IPB), Fields(ino[i]), 16));
  }

  lemma InodeKeepsRoom(sb: Super, blk: seq<Block>, i: nat, din: Inode)
    requires sb.Valid() && |blk| == sb.size && i < sb.ninodes
    ensures sb.Iblock(i) < |blk|
    ensures forall c :: 0 <= c < |blk| && (c < sb.inodestart || sb.bmapstart <= c) ==>
              WithInode(sb, blk, i, din)[c] == blk[c]
  {
    hide PutWords, Fields;
    IblockFits(sb, i);
  }

  lemma NewType(typ: uint16)
    ensures NewInode(typ, 1).typ == typ
  {
  }

  lemma EmptyFile(sb: Super, v: View, i: nat)
    requires ValidView(sb, v) && i < |v.ino| && v.ino[i].size == 0
    ensures FileOf(sb, v, i) == []
  {
    hide ValidView;
  }

  /** The inodes of a valid state are those on its disk. */
  lemma InodesOnDisk(sb: Super, v: View)
    requires ValidView(sb, v)
    ensures |v.blk| == sb.size && sb.Valid() && DiskInodes(sb, v.blk) == v.ino
  {
    hide InodeAt, Owning, Filled;
    ValidSizes(sb, v);
    forall i | 0 <= i < |v.ino| ensures DiskInodes(sb, v.blk)[i] == v.ino[i] {
      assert Synced(sb, v, i);
    }
  }

  lemma BlankAddrs()
    ensures EmptyInode() == NoAddrs(EmptyInode())
  {
  }

  lemma ValidSizes(sb: Super, v: View)
    requires ValidView(sb, v)
    ensures |v.ino| == sb.ninodes && |v.blk| == |v.owner| == sb.size && sb.Valid()
  {
  }

  lemma KeptLink(sb: Super, v: View, w: View, i: nat)
    requires Kept(sb, v, w, i)
    ensures i < |v.ino| == |w.ino| && w.ino[i].nlink == v.ino[i].nlink
  {
  }

  /** rinode finds the inode. */
  lemma DiskInode(sb: Super, blk: seq<Block>, ino: seq<Inode>, owner: seq<Owner>, n: nat, i: nat)
    requires |blk| == sb.size && ValidView(sb, ViewOf(sb, blk, ino, owner, n)) && i < |ino|
    ensures sb.Iblock(i) < |blk| && InodeAt(blk[sb.Iblock(i)], i % IPB) == ino[i]
    ensures Owning(sb, ViewOf(sb, blk, ino, owner, n)) && Filled(Marked(sb, blk, n), ino[i], ino[i].size)
    ensures |FileOf(sb, ViewOf(sb, blk, ino, owner, n), i)| == ino[i].size
  {
    hide Marked, InodeAt, Filled, Owns;
    ValidSizes(sb, ViewOf(sb, blk, ino, owner, n));
    IblockFits(sb, i);
    assert Synced(sb, ViewOf(sb, blk, ino, owner, n), i);
    assert Marked(sb, blk, n)[sb.Iblock(i)] == blk[sb.Iblock(i)];
  }

  /** The block of off, mapped and then overwritten. */
  lemma PieceWritten(sb: Super, v: View, u: View, blk: seq<Block>, n: nat, i: nat, off: nat, x: nat,
                     p: seq<byte>, t: nat, m: nat)
    requires |blk| == sb.size && u.blk == Marked(sb, blk, n) && Owning(sb, v) && i < |v.ino|
    requires Mapped(sb, v, u, i, off / BSIZE, off, x) && Filled(v.blk, v.ino[i], off)
    requires 0 < m && off % BSIZE + m <= BSIZE && t + m <= |p| && off < MAXFILE * BSIZE
    ensures sb.DataStart() <= x < n && x < |blk| && !InBitmap(sb, x)
    ensures var w := u.(blk := Marked(sb, blk[x := Overwrite(blk[x], off % BSIZE, p, t, m)], n));
            && Owning(sb, w) && Kept(sb, v, w, i) && |u.ino| == |v.ino|
            && Filled(w.blk, w.ino[i], off + m) && Spliced(v, w, i, off, off, p, t, m)
  {
    hide Marked, PtrOf, Owns, Filled, Grew, Kept, Spliced, Overwrite;
    MappedAddr(sb, v, u, i, off / BSIZE, off, x);
    MappedOwned(sb, v, u, i, off / BSIZE, off, x);
    OwnedBelow(sb, blk, u.ino, u.owner, n, x);
    PieceBlocks(off, off, m);
    GrewKept(sb, v, u, i);
    FilledSame(u.blk, u.ino[i], Covered(off, off / BSIZE), off + m);
    var data := Overwrite(blk[x], off % BSIZE, p, t, m);
    DataSplices(sb, u, i, off + m, off, x, p, t, m);
    DataKept(sb, u, i, off / BSIZE, x, data);
    MarkWrite(sb, blk, n, x, data);
    KeptTwice(sb, v, u, u.(blk := u.blk[x := data]), i);
    SplicedAfterGrew(sb, v, u, u.(blk := u.blk[x := data]), i, off, off, p, t, m);
  }

  lemma MappedOwned(sb: Super, v: View, u: View, i: nat, bn: nat, len: nat, x: nat)
    requires Mapped(sb, v, u, i, bn, len, x)
    ensures |u.owner| == |u.blk| && x < |u.owner| && u.owner[x].Owned? && u.ino[i].typ == v.ino[i].typ
  {
  }

  lemma FilledBound(blk: seq<Block>, ip: Inode, len: nat)
    requires Filled(blk, ip, len)
    ensures len <= MAXFILE * BSIZE
  {
    hide PtrOf;
  }

  lemma OtherInodes(sb: Super, v: View, w: View, i: nat)
    requires ValidView(sb, v) && ValidView(sb, w) && OtherFilesSame(sb, v, w, i)
    ensures |w.ino| == |v.ino| && forall j :: 0 <= j < |v.ino| && j != i ==> w.ino[j] == v.ino[j]
  {
    hide ValidView, FileOf;
  }

  // ---- Calls of ialloc and iappend, one after the other ----

  datatype Op = Ialloc(typ: uint16) | Iappend(inum: nat, bytes: seq<byte>)

  /** The inode number ialloc gives after ops. */
  function NextInode(ops: seq<Op>): (n: nat)
    ensures 1 <= n
  {
    if ops == [] then 1
    else
      var n := NextInode(ops[..|ops| - 1]);
      if ops[|ops| - 1].Ialloc? then n + 1 else n
  }

  /** All that ops append to file i. */
  function Concat(ops: seq<Op>, i: nat): seq<byte> {
    if ops == [] then []
    else
      var last, c := ops[|ops| - 1], Concat(ops[..|ops| - 1], i);
      if last.Iappend? && last.inum == i then c + last.bytes else c
  }

  /** The type ops give inode i, 0 if none. */
  function TypeOf(ops: seq<Op>, i: nat): uint16 {
    if ops == [] then 0
    else
      var last, rest := ops[|ops| - 1], ops[..|ops| - 1];
      if last.Ialloc? && NextInode(rest) == i then last.typ else TypeOf(rest, i)
  }

  /** Blocks ops take. */
  function Taken(ops: seq<Op>): int {
    if ops == [] then 0
    else
      var last, rest := ops[|ops| - 1], ops[..|ops| - 1];
      Taken(rest) + match last
                    case Ialloc(_) => 0
                    case Iappend(i, b) => Total(|Concat(rest, i)| + |b|) - Total(|Concat(rest, i)|)
  }

  /** Appends go to inodes handed out, and there are that many inodes. */
  predicate Sensible(sb: Super, ops: seq<Op>) {
    ops == []
    || (var last, rest := ops[|ops| - 1], ops[..|ops| - 1];
        && Sensible(sb, rest)
        && if last.Ialloc? then NextInode(rest) < sb.ninodes else 1 <= last.inum < NextInode(rest) <= sb.ninodes)
  }

  /** No file gets too large, and the disk has blocks for all of them. */
  predicate Fits(sb: Super, ops: seq<Op>) {
    ops == []
    || (var last, rest := ops[|ops| - 1], ops[..|ops| - 1];
        && Fits(sb, rest)
        && (last.Iappend? ==>
              |Concat(rest, last.inum)| + |last.bytes| <= MAXFILE * BSIZE && sb.DataStart() + Taken(ops) <= sb.size))
  }

  // One more call.

  lemma MoreInodes(ops: seq<Op>, op: Op)
    ensures NextInode(ops + [op]) == NextInode(ops) + if op.Ialloc? then 1 else 0
  {
    assert (ops + [op])[..|ops|] == ops;
  }

  lemma MoreBytes(ops: seq<Op>, op: Op, i: nat)
    ensures Concat(ops + [op], i) == Concat(ops, i) + if op.Iappend? && op.inum == i then op.bytes else []
  {
    assert (ops + [op])[..|ops|] == ops;
  }

  lemma MoreTypes(ops: seq<Op>, op: Op, i: nat)
    ensures TypeOf(ops + [op], i) == if op.Ialloc? && NextInode(ops) == i then op.typ else TypeOf(ops, i)
  {
    hide NextInode;
    assert (ops + [op])[..|ops|] == ops;
  }

  lemma MoreTaken(ops: seq<Op>, op: Op)
    ensures Taken(ops + [op]) == Taken(ops)
              + if op.Ialloc? then 0 else Total(|Concat(ops, op.inum)| + |op.bytes|) - Total(|Concat(ops, op.inum)|)
  {
    hide Total, Concat;
    assert (ops + [op])[..|ops|] == ops;
  }

  lemma MoreSensible(sb: Super, ops: seq<Op>, op: Op)
    ensures Sensible(sb, ops + [op]) <==>
              Sensible(sb, ops)
              && if op.Ialloc? then NextInode(ops) < sb.ninodes else 1 <= op.inum < NextInode(ops) <= sb.ninodes
  {
    hide NextInode;
    assert (ops + [op])[..|ops|] == ops;
  }

  lemma MoreFits(sb: Super, ops: seq<Op>, op: Op)
    ensures Fits(sb, ops + [op]) <==>
              Fits(sb, ops)
              && (op.Iappend? ==> |Concat(ops, op.inum)| + |op.bytes| <= MAXFILE * BSIZE
                                  && sb.DataStart() + Taken(ops + [op]) <= sb.size)
  {
    hide Taken, Concat;
    assert (ops + [op])[..|ops|] == ops;
  }

  /** Numbers not handed out name empty files. */
  lemma {:induction false} NotHandedOut(sb: Super, ops: seq<Op>, i: nat)
    requires Sensible(sb, ops) && (i == 0 || NextInode(ops) <= i)
    ensures Concat(ops, i) == [] && TypeOf(ops, i) == 0
  {
    if ops != [] { NotHandedOut(sb, ops[..|ops| - 1], i); }
  }

  lemma {:induction false} PrefixSensible(sb: Super, ops: seq<Op>, k: nat)
    requires Sensible(sb, ops) && k <= |ops|
    ensures Sensible(sb, ops[..k])
    decreases |ops|
  {
    if k < |ops| {
      var rest := ops[..|ops| - 1];
      PrefixSensible(sb, rest, k);
      assert rest[..k] == ops[..k];
    } else {
      assert ops[..k] == ops;
    }
  }

  lemma {:induction false} PrefixFits(sb: Super, ops: seq<Op>, k: nat)
    requires Fits(sb, ops) && k <= |ops|
    ensures Fits(sb, ops[..k])
    decreases |ops|
  {
    hide Taken, Concat;
    if k < |ops| {
      var rest := ops[..|ops| - 1];
      PrefixFits(sb, rest, k);
      assert rest[..k] == ops[..k];
    } else {
      assert ops[..k] == ops;
    }
  }

  // ---- The image ----

  class Image {
    const sb: Super
    var blk: seq<Block>
    var freeinode: nat
    var freeblock: nat
    ghost var ino: seq<Inode>
    ghost var owner: seq<Owner>

    ghost function Now(): View
      reads this
    {
      ViewOf(sb, blk, ino, owner, freeblock)
    }

    ghost predicate Room()
      reads this
    {
      RoomFrom(sb, blk, freeblock)
    }

    /** Between calls: once the bitmap is written, a valid file system; and the inodes
        not handed out are blank. */
    ghost predicate Ok()
      reads this
    {
      && Room() && ValidView(sb, Now())
      && 1 <= freeinode
      && forall i :: 0 <= i < |ino| && (i == 0 || freeinode <= i) ==> ino[i] == EmptyInode()
    }

    ghost function File(i: nat): (c: seq<byte>)
      reads this
      requires Ok() && i < |ino|
    {
      FileOf(sb, Now(), i)
    }

    /** main's beginning: a disk of zeroes, the super block in block 1. */
    constructor (sb: Super, super: Block)
      requires sb.Valid()
      ensures this.sb == sb && Ok() && freeinode == 1 && freeblock == sb.DataStart()
      ensures ino == seq(sb.ninodes, _ => EmptyInode())
    {
      this.sb := sb;
      blk := seq(sb.size, _ => ZeroBlock())[1 := super];
      freeinode := 1;
      freeblock := sb.DataStart();
      ino := seq(sb.ninodes, _ => EmptyInode());
      owner := BlankOwners(sb);
      new;
      hide ValidView, EmptyInode, ZeroBlock;
      BlankValid(sb, blk);
    }

    /** ialloc: the next inode number, with a new inode on disk.  mkfs does not look
        whether there are that many inodes, and stops only at the end of the disk. */
    method Ialloc(typ: uint16) returns (ok: bool, inum: nat)
      requires Ok()
      modifies this
      ensures inum == old(freeinode) && freeinode == inum + 1 && freeblock == old(freeblock)
      ensures ok <==> sb.Iblock(inum) < sb.size
      ensures inum < sb.ninodes ==>
                ok && Ok() && ino == old(ino)[inum := NewInode(typ, 1)] && File(inum) == []
                && OtherFilesSame(sb, old(Now()), Now(), inum)
    {
      hide ValidView, NewInode, FileOf, Marked, NoAddrs, OtherFilesSame, Updated, WithInode;
      inum := freeinode;
      freeinode := freeinode + 1;
      IblockFits(sb, inum);
      if sb.Iblock(inum) >= |blk| { return false, inum; }
      ghost var v := Now();
      if inum < sb.ninodes {
        ValidSizes(sb, v);
        BlankAddrs();
        InodeStored(sb, v, inum, NewInode(typ, 1));
        MarkInode(sb, blk, ino[inum := NewInode(typ, 1)], owner, freeblock, inum);
        InodeKeepsRoom(sb, blk, inum, NewInode(typ, 1));
        ino := ino[inum := NewInode(typ, 1)];
      }
      blk := WithInode(sb, blk, inum, NewInode(typ, 1));
      ok := true;
    }

    /** iappend's direct case: the block at off, the end of file i. */
    method MapDirect(i: nat, din: Inode, off: nat) returns (ok: bool, din': Inode, x: nat)
      requires Room() && Owning(sb, Now()) && i < |ino| && ino[i] == din
      requires Filled(Now().blk, din, off) && off < NDIRECT * BSIZE
      modifies this`freeblock, this`ino, this`owner
      ensures ok <==> old(freeblock) + NextNeeds(off) <= sb.size
      ensures ok ==> Room() && freeblock == old(freeblock) + NextNeeds(off) && ino == old(ino)[i := din']
      ensures ok ==> Reached(sb, old(Now()), Now(), i, off / BSIZE, x)
    {
      hide Marked, PtrOf, PtrsMatch, BitsMatch, Filled, Reached, Attached, ZeroBlock;
      var fbn := off / BSIZE;
      din' := din;
      ghost var v := Now();
      EndBlock(v.blk, din, off);
      AddrOwned(v.blk, ino, owner, i, fbn);
      x := din.addrs[fbn];
      ok := true;
      if x == 0 {
        x := freeblock;
        if x >= |blk| { return false, din', x; }
        TakeAddr(sb, blk, ino, owner, freeblock, i, fbn);
        din' := WithAddr(din, fbn, x);
        ino := ino[i := din'];
        owner := owner[x := Owned(i, fbn)];
        freeblock := freeblock + 1;
        AttachedReached(sb, v, Now(), i, fbn, x);
      } else {
        ReachedAlready(sb, v, i, fbn);
        assert ino == ino[i := din'];
      }
    }

    /** The indirect block, taken if there is none. */
    method MapTable(i: nat, din: Inode, off: nat) returns (ok: bool, din': Inode)
      requires Room() && Owning(sb, Now()) && i < |ino| && ino[i] == din
      requires Filled(Now().blk, din, off) && NDIRECT * BSIZE <= off < MAXFILE * BSIZE
      modifies this`freeblock, this`ino, this`owner
      ensures ok <==> off > NDIRECT * BSIZE || old(freeblock) < sb.size
      ensures ok ==> Room() && Owning(sb, Now()) && ino == old(ino)[i := din'] && din'.addrs[NDIRECT] != 0
      ensures ok ==> freeblock == old(freeblock) + (if off > NDIRECT * BSIZE then 0 else 1)
      ensures ok ==> Grew(sb, old(Now()), Now(), i)
      ensures ok ==> forall t {:trigger PtrOf(Now().blk, ino[i], t)} :: 0 <= t < MAXFILE ==>
                       PtrOf(Now().blk, ino[i], t) == PtrOf(old(Now().blk), old(ino)[i], t)
    {
      hide Marked, PtrOf, PtrsMatch, BitsMatch, Filled, Grew, Attached, ZeroBlock;
      din', ok := din, true;
      ghost var v := Now();
      EndBlock(v.blk, din, off);
      AddrOwned(v.blk, ino, owner, i, NDIRECT);
      if din.addrs[NDIRECT] == 0 {
        if freeblock >= |blk| { return false, din'; }
        TakeAddr(sb, blk, ino, owner, freeblock, i, NDIRECT);
        din' := WithAddr(din, NDIRECT, freeblock);
        ino := ino[i := din'];
        owner := owner[freeblock := Owned(i, INDIRECT)];
        freeblock := freeblock + 1;
        IndirectAttached(sb, v, Now(), i, freeblock - 1);
      } else {
        GrewNot(sb, v, i);
        assert ino == ino[i := din'];
      }
    }

    /** iappend's indirect case. */
    method MapIndirect(i: nat, din: Inode, off: nat) returns (ok: bool, din': Inode, x: nat)
      requires Room() && Owning(sb, Now()) && i < |ino| && ino[i] == din
      requires Filled(Now().blk, din, off) && NDIRECT * BSIZE <= off < MAXFILE * BSIZE
      modifies this`blk, this`freeblock, this`ino, this`owner
      ensures ok <==> old(freeblock) + NextNeeds(off) <= sb.size
      ensures ok ==> Room() && freeblock == old(freeblock) + NextNeeds(off) && ino == old(ino)[i := din']
      ensures ok ==> Reached(sb, old(Now()), Now(), i, off / BSIZE, x)
    {
      hide Marked, PtrOf, PtrsMatch, BitsMatch, Filled, Reached, Grew, Attached, ZeroBlock, Word, SetWord, RoomFrom;
      var fbn := off / BSIZE;
      ghost var v := Now();
      RoomSizes(sb, blk, freeblock);
      EndBlock(v.blk, din, off);
      x := 0;
      ok, din' := MapTable(i, din, off);
      if !ok { return; }
      ghost var u := Now();
      RoomSizes(sb, blk, freeblock);
      var ind := din'.addrs[NDIRECT];
      EntryPtr(sb, u, i, fbn);
      AddrOwned(u.blk, ino, owner, i, NDIRECT);
      OwnedBelow(sb, blk, ino, owner, freeblock, ind);
      x := Word(blk[ind], fbn - NDIRECT);
      assert PtrOf(u.blk, u.ino[i], fbn) == PtrOf(v.blk, v.ino[i], fbn);
      if x == 0 {
        x := freeblock;
        if x >= |blk| { return false, din', x; }
        RoomNext(sb, blk, freeblock);
        TakeEntry(sb, blk, ino, owner, freeblock, i, fbn);
        RoomKept(sb, blk, freeblock + 1, ind, SetWord(blk[ind], fbn - NDIRECT, x));
        blk := blk[ind := SetWord(blk[ind], fbn - NDIRECT, x)];
        owner := owner[x := Owned(i, fbn)];
        freeblock := freeblock + 1;
        AttachedReached(sb, u, Now(), i, fbn, x);
      } else {
        ReachedAlready(sb, u, i, fbn);
      }
      ReachedTwice(sb, v, u, Now(), i, fbn, x);
    }

    /** One turn of iappend's loop: the rest of the block at off, from p[t..]. */
    method AppendPiece(i: nat, din: Inode, off: nat, p: seq<byte>, t: nat) returns (ok: bool, din': Inode, m: nat)
      requires Room() && Owning(sb, Now()) && i < |ino| && ino[i] == din && t < |p|
      requires Filled(Now().blk, din, off) && off < MAXFILE * BSIZE
      modifies this`blk, this`freeblock, this`ino, this`owner
      ensures 0 < m <= |p| - t && off % BSIZE + m <= BSIZE
      ensures ok <==> old(freeblock) + NextNeeds(off) <= sb.size
      ensures ok ==> Room() && Owning(sb, Now()) && freeblock == old(freeblock) + NextNeeds(off)
      ensures ok ==> ino == old(ino)[i := din'] && Kept(sb, old(Now()), Now(), i)
      ensures ok ==> Filled(Now().blk, din', off + m) && Spliced(old(Now()), Now(), i, off, off, p, t, m)
    {
      hide Marked, PtrOf, Owns, Filled, Reached, Mapped, Grew, Kept, Spliced, Overwrite, RoomFrom;
      ghost var v := Now();
      RoomSizes(sb, blk, freeblock);
      var o := off % BSIZE;
      m := if |p| - t < BSIZE - o then |p| - t else BSIZE - o;
      PieceBlocks(off, off, m);
      EndBlock(v.blk, din, off);
      var x;
      if off < NDIRECT * BSIZE {
        ok, din', x := MapDirect(i, din, off);
      } else {
        ok, din', x := MapIndirect(i, din, off);
      }
      if ok {
        ghost var u := Now();
        ReachedMapped(sb, v, u, i, off / BSIZE, off, x);
        RoomSizes(sb, blk, freeblock);
        PieceWritten(sb, v, u, blk, freeblock, i, off, x, p, t, m);
        RoomKept(sb, blk, freeblock, x, Overwrite(blk[x], o, p, t, m));
        blk := blk[x := Overwrite(blk[x], o, p, t, m)];
      }
    }

    /** iappend's loop. */
    method AppendPieces(i: nat, din: Inode, p: seq<byte>) returns (ok: bool, din': Inode)
      requires Room() && Owning(sb, Now()) && i < |ino| && ino[i] == din
      requires Filled(Now().blk, din, din.size)
      modifies this`blk, this`freeblock, this`ino, this`owner
      ensures ok <==> din.size + |p| <= MAXFILE * BSIZE
                      && old(freeblock) + Total(din.size + |p|) - Total(din.size) <= sb.size
      ensures ok ==> Room() && Owning(sb, Now())
      ensures ok ==> freeblock == old(freeblock) + Total(din.size + |p|) - Total(din.size)
      ensures ok ==> ino == old(ino)[i := din'] && Kept(sb, old(Now()), Now(), i)
      ensures ok ==> Filled(Now().blk, din', din.size + |p|)
      ensures ok ==> Spliced(old(Now()), Now(), i, din.size, din.size, p, 0, |p|)
    {
      hide Marked, Owning, Filled, Kept, Spliced, Total, NextNeeds, Room;
      ghost var v := Now();
      RoomBound();
      FilledBound(v.blk, din, din.size);
      SplicedNot(sb, v, i, din.size, din.size, p);
      din' := din;
      assert ino == ino[i := din];
      var t := 0;
      while t < |p|
        invariant 0 <= t <= |p| && din.size + t <= MAXFILE * BSIZE && Room() && freeblock <= sb.size
        invariant Owning(sb, Now()) && |ino| == |v.ino| && ino == v.ino[i := din']
        invariant freeblock == old(freeblock) + Total(din.size + t) - Total(din.size)
        invariant Filled(Now().blk, din', din.size + t) && Kept(sb, v, Now(), i)
        invariant Spliced(v, Now(), i, din.size, din.size, p, 0, t)
      {
        if din.size + t >= MAXFILE * BSIZE { return false, din'; }
        ghost var u := Now();
        var m;
        ok, din', m := AppendPiece(i, din', din.size + t, p, t);
        TotalNext(din.size + t, m);
        TotalGrows(din.size + t + m, din.size + |p|);
        if !ok { return; }
        RoomBound();
        KeptTwice(sb, v, u, Now(), i);
        SplicedTwice(v, u, Now(), i, din.size, din.size, p, t, m);
        FilledBound(Now().blk, din', din.size + t + m);
        t := t + m;
      }
      ok := true;
    }

    lemma RoomBound()
      requires Room()
      ensures freeblock <= sb.size
    {
    }

    /** iappend: all of p at the end of the file, in blocks taken in order; it fails
        exactly when the file gets too large or the disk has no block left. */
    method Iappend(inum: nat, p: seq<byte>) returns (ok: bool)
      requires Ok() && inum < |ino| && 0 < inum < freeinode
      modifies this`blk, this`freeblock, this`ino, this`owner
      ensures var size := |old(File(inum))|;
              ok <==> size + |p| <= MAXFILE * BSIZE && old(freeblock) + Total(size + |p|) - Total(size) <= sb.size
      ensures ok ==> Ok() && freeblock == old(freeblock) + Total(|old(File(inum))| + |p|) - Total(|old(File(inum))|)
      ensures ok ==> OtherFilesSame(sb, old(Now()), Now(), inum) && |ino| == |old(ino)|
      ensures ok ==> File(inum) == old(File(inum)) + p
      ensures ok ==> ino[inum].typ == old(ino)[inum].typ && ino[inum].nlink == old(ino)[inum].nlink
    {
      hide Marked, Owning, Filled, Kept, Spliced, FileOf, Total, EmptyInode, ZeroBlock, InodeAt, ValidView,
           WithInode, Splice, OtherFilesSame, Updated;
      ghost var v := Now();
      ValidSizes(sb, v);
      DiskInode(sb, blk, ino, owner, freeblock, inum);
      var din: Inode := InodeAt(blk[sb.Iblock(inum)], inum % IPB);
      var off := din.size + |p|;
      ok, din := AppendPieces(inum, din, p);
      if !ok { return; }
      ghost var w := Now();
      KeptSize(sb, v, w, inum);
      KeptLink(sb, v, w, inum);
      WriteGrown(sb, v, w, inum, off - |p|, p);
      SpliceEnd(FileOf(sb, v, inum), p);
      din := din.(size := off);
      ino := ino[inum := din];
      MarkInode(sb, blk, ino, owner, freeblock, inum);
      InodeKeepsRoom(sb, blk, inum, din);
      blk := WithInode(sb, blk, inum, din);
      assert Now() == Resized(sb, w, inum, off);
      OtherInodes(sb, v, Now(), inum);
    }

    /** The image after ops. */
    ghost predicate Built(ops: seq<Op>)
      reads this
    {
      && Ok() && freeinode == NextInode(ops) && freeblock == sb.DataStart() + Taken(ops)
      && forall i {:trigger ino[i]} :: 0 <= i < |ino| ==> File(i) == Concat(ops, i) && ino[i].typ == TypeOf(ops, i)
    }

    method Step(ghost ops: seq<Op>, op: Op) returns (ok: bool)
      requires Built(ops) && Sensible(sb, ops + [op]) && Fits(sb, ops)
      modifies this
      ensures ok <==> Fits(sb, ops + [op])
      ensures ok ==> Built(ops + [op])
    {
      hide ValidView, FileOf, Room, Total, Concat, TypeOf, NextInode, Taken, Sensible, Fits, EmptyInode, NewInode;
      MoreInodes(ops, op);
      MoreTaken(ops, op);
      MoreSensible(sb, ops, op);
      MoreFits(sb, ops, op);
      ghost var v := Now();
      ValidSizes(sb, v);
      match op {
        case Ialloc(typ) =>
          NotHandedOut(sb, ops, NextInode(ops));
          NewType(typ);
          var inum;
          ok, inum := Ialloc(typ);
        case Iappend(inum, bytes) =>
          assert File(inum) == Concat(ops, inum);
          assert ino[inum].typ == TypeOf(ops, inum);
          ok := Iappend(inum, bytes);
      }
      if ok {
        forall i | 0 <= i < |ino| ensures File(i) == Concat(ops + [op], i) && ino[i].typ == TypeOf(ops + [op], i) {
          MoreBytes(ops, op, i);
          MoreTypes(ops, op, i);
          assert FileOf(sb, v, i) == Concat(ops, i) && v.ino[i].typ == TypeOf(ops, i);
        }
      }
    }

    /** Any calls of ialloc and iappend on a new image: each file is what was appended
        to it.  They stop exactly when a file gets too large or the disk is full. */
    method Run(ops: seq<Op>) returns (ok: bool)
      requires Ok() && freeinode == 1 && freeblock == sb.DataStart() && Sensible(sb, ops)
      modifies this
      ensures ok <==> Fits(sb, ops)
      ensures ok ==> Built(ops)
    {
      hide ValidView, FileOf, Room, Total, Concat, TypeOf, NextInode, Taken, Sensible, Fits, EmptyInode, Ok;
      NothingYet();
      var k := 0;
      assert ops[..0] == [];
      while k < |ops|
        invariant 0 <= k <= |ops| && Built(ops[..k]) && Fits(sb, ops[..k])
      {
        PrefixSensible(sb, ops, k + 1);
        assert ops[..k + 1] == ops[..k] + [ops[k]];
        ok := Step(ops[..k], ops[k]);
        if !ok {
          if Fits(sb, ops) { PrefixFits(sb, ops, k + 1); }
          return;
        }
        k := k + 1;
      }
      assert ops[..k] == ops;
      ok := true;
    }

    lemma NothingYet()
      requires Ok() && freeinode == 1 && freeblock == sb.DataStart()
      ensures Built([]) && Fits(sb, [])
    {
      hide Room, ValidView, FileOf;
      forall i | 0 <= i < |ino| ensures File(i) == Concat([], i) && ino[i].typ == TypeOf([], i) {
        assert ino[i] == EmptyInode();
        EmptyFile(sb, Now(), i);
      }
    }

    /** mkfs's balloc: a bitmap block with its first used bits set. */
    static method FirstBits(used: nat) returns (buf: Block)
      requires used < BPB
      ensures buf == Bits(used)
    {
      buf := ZeroBlock();
      var i := 0;
      while i < used
        invariant 0 <= i <= used && buf == Bits(i)
      {
        buf := PutBit(buf, i, true);
        i := i + 1;
      }
    }

    /** balloc(freeblock): it insists that the blocks taken fit one bitmap block, and
        then the disk is the file system that was built. */
    method Balloc() returns (ok: bool)
      requires Ok()
      modifies this`blk
      ensures ok <==> freeblock < BPB
      ensures ok ==> |blk| == sb.size && View(blk, ino, owner) == old(Now()) && DiskInodes(sb, blk) == ino
      ensures ok ==> LogBlank(sb, blk)
    {
      hide ValidView, Bits, Marked;
      if freeblock >= BPB { return false; }
      MarkFirst(sb, blk, freeblock);
      IblockFits(sb, 0);
      var bits := FirstBits(freeblock);
      InodesOnDisk(sb, Now());
      blk := blk[sb.bmapstart := bits];
      ok := true;
    }
  }

  /** A disk with the files that ops make, whose free map and block pointers are right,
      and whose log is empty. */
  ghost predicate IsImage(sb: Super, disk: seq<Block>, owner: seq<Owner>, ops: seq<Op>) {
    && sb.Valid() && |disk| == sb.size && LogBlank(sb, disk)
    && (var v := View(disk, DiskInodes(sb, disk), owner);
        && ValidView(sb, v)
        && forall i {:trigger v.ino[i]} :: 0 <= i < sb.ninodes ==>
             FileOf(sb, v, i) == Concat(ops, i) && v.ino[i].typ == TypeOf(ops, i))
  }

  /** mkfs: the calls of ialloc and iappend, then balloc.  There is an image exactly if
      every file fits, the disk has the blocks, and one bitmap block covers them. */
  method MakeImage(sb: Super, super: Block, ops: seq<Op>)
    returns (ok: bool, disk: seq<Block>, ghost owner: seq<Owner>)
    requires sb.Valid() && Sensible(sb, ops)
    ensures ok <==> Fits(sb, ops) && sb.DataStart() + Taken(ops) < BPB
    ensures ok ==> IsImage(sb, disk, owner, ops)
  {
    hide ValidView, FileOf, Concat, TypeOf, Taken, Fits, Sensible, NextInode;
    disk, owner := [], [];
    var image := new Image(sb, super);
    ok := image.Run(ops);
    if !ok { return; }
    ValidSizes(sb, image.Now());
    ghost var v := image.Now();
    forall i | 0 <= i < |v.ino| ensures FileOf(sb, v, i) == Concat(ops, i) && v.ino[i].typ == TypeOf(ops, i) {
      assert image.ino[i].typ == TypeOf(ops, i) && image.File(i) == Concat(ops, i);
    }
    ok := image.Balloc();
    disk, owner := image.blk, image.owner;
  }

  // ---- makedirs and main ----

  const DOT: seq<byte> := [46]
  const DOTDOT: seq<byte> := [46, 46]
  const DEV: seq<byte> := [100, 101, 118]
  const BIN: seq<byte> := [98, 105, 110]
  const HOME: seq<byte> := [104, 111, 109, 101]

  /** struct dirent: the inode number as 16 bits, and DIRSIZ bytes of name. */
  function Dirent(inum: nat, name: seq<byte>): (d: seq<byte>)
    ensures |d| == 16
  {
    var n := if |name| < DIRSIZ then |name| else DIRSIZ;
    [inum % 0x100, inum / 0x100 % 0x100] + name[..n] + seq(DIRSIZ - n, _ => 0)
  }

  /** What an entry reads as: its number, and its name as far as DIRSIZ bytes go. */
  lemma DirentReads(inum: nat, name: seq<byte>)
    requires inum < 0x1_0000 && forall k :: 0 <= k < |name| ==> name[k] != 0
    ensures var d := Dirent(inum, name);
            && (d[0] as int) + 0x100 * (d[1] as int) == inum
            && CString(d[2..], 0, 0) == if |name| <= DIRSIZ then name else name[..DIRSIZ]
  {
    var d, n := Dirent(inum, name), if |name| < DIRSIZ then |name| else DIRSIZ;
    assert d[2..] == name[..n] + seq(DIRSIZ - n, _ => 0);
    NameReads(d[2..], name[..n], 0);
  }

  lemma {:induction false} NameReads(mem: seq<byte>, name: seq<byte>, k: nat)
    requires k <= |name| <= |mem| && mem[..|name|] == name && forall j :: 0 <= j < |name| ==> name[j] != 0
    requires |name| < |mem| ==> mem[|name|] == 0
    ensures CString(mem, k, 0) == name[k..]
    decreases |name| - k
  {
    if k < |name| {
      assert mem[k] == mem[..|name|][k];
      NameReads(mem, name, k + 1);
      assert name[k..] == [name[k]] + name[k + 1..];
    }
  }

  /** A directory's own first two entries. */
  function Dots(dir: nat): (d: seq<byte>)
    ensures |d| == 32
  {
    Dirent(dir, DOT) + Dirent(ROOTINO, DOTDOT)
  }

  /** A directory with its two entries. */
  function DotOps(ops: seq<Op>, dir: nat): seq<Op> {
    ops + [Ialloc(T_DIR)] + [Iappend(dir, Dirent(dir, DOT))] + [Iappend(dir, Dirent(ROOTINO, DOTDOT))]
  }

  /** And its entry in the root. */
  function DirOps(ops: seq<Op>, dir: nat, name: seq<byte>): seq<Op> {
    DotOps(ops, dir) + [Iappend(ROOTINO, Dirent(dir, name))]
  }

  function Makedirs(): seq<Op> {
    DirOps(DirOps(DirOps(DotOps([], ROOTINO), 2, DEV), 3, BIN), 4, HOME)
  }

  /** ops can be done, and leave room for n more blocks. */
  predicate Doable(sb: Super, ops: seq<Op>, n: nat) {
    Sensible(sb, ops) && Fits(sb, ops) && sb.DataStart() + Taken(ops) + n <= sb.size
  }

  lemma SmallTotals()
    ensures Total(0) == 0 && forall k :: 0 < k <= BSIZE ==> Total(k) == 1
  {
  }

  /** One more append to a file of one block or none. */
  lemma SmallAppend(sb: Super, ops: seq<Op>, i: nat, b: seq<byte>, n: nat)
    requires Doable(sb, ops, n) && 1 <= i < NextInode(ops) <= sb.ninodes && 0 < |b| && |Concat(ops, i)| + |b| <= BSIZE
    requires Concat(ops, i) == [] ==> n > 0
    ensures var more := ops + [Iappend(i, b)];
            && Doable(sb, more, if Concat(ops, i) == [] then n - 1 else n)
            && NextInode(more) == NextInode(ops) && Concat(more, i) == Concat(ops, i) + b
            && Taken(more) == Taken(ops) + if Concat(ops, i) == [] then 1 else 0
  {
    hide Total, Concat, Taken, Sensible, Fits, NextInode;
    var op := Iappend(i, b);
    MoreInodes(ops, op);
    MoreBytes(ops, op, i);
    MoreTaken(ops, op);
    MoreSensible(sb, ops, op);
    MoreFits(sb, ops, op);
    SmallTotals();
  }

  lemma InodeAdded(sb: Super, ops: seq<Op>, typ: uint16, n: nat)
    requires Doable(sb, ops, n) && NextInode(ops) < sb.ninodes
    ensures var more := ops + [Ialloc(typ)];
            && Doable(sb, more, n) && NextInode(more) == NextInode(ops) + 1 && Taken(more) == Taken(ops)
            && Concat(more, NextInode(ops)) == [] && TypeOf(more, NextInode(ops)) == typ
  {
    hide Total, Concat, Taken, Sensible, Fits, NextInode, TypeOf;
    var op := Ialloc(typ);
    MoreInodes(ops, op);
    MoreTaken(ops, op);
    MoreSensible(sb, ops, op);
    MoreFits(sb, ops, op);
    NotHandedOut(sb, ops, NextInode(ops));
    MoreBytes(ops, op, NextInode(ops));
    MoreTypes(ops, op, NextInode(ops));
  }

  /** What a call leaves alone. */
  lemma OthersKeep(ops: seq<Op>, op: Op, i: nat)
    requires if op.Ialloc? then NextInode(ops) != i else op.inum != i
    ensures Concat(ops + [op], i) == Concat(ops, i) && TypeOf(ops + [op], i) == TypeOf(ops, i)
  {
    hide NextInode, Concat, TypeOf;
    MoreBytes(ops, op, i);
    MoreTypes(ops, op, i);
  }

  lemma TypeKept(ops: seq<Op>, op: Op, i: nat)
    requires op.Iappend?
    ensures TypeOf(ops + [op], i) == TypeOf(ops, i)
  {
    hide NextInode, TypeOf;
    MoreTypes(ops, op, i);
  }

  lemma DotsMade(sb: Super, ops: seq<Op>, dir: nat, n: nat)
    requires Doable(sb, ops, n + 1) && dir == NextInode(ops) < sb.ninodes
    ensures var more := DotOps(ops, dir);
            && Doable(sb, more, n) && NextInode(more) == dir + 1 && Taken(more) == Taken(ops) + 1
            && Concat(more, dir) == Dots(dir) && TypeOf(more, dir) == T_DIR
  {
    hide Concat, Taken, NextInode, TypeOf, Doable, Dirent;
    InodeAdded(sb, ops, T_DIR, n + 1);
    var a := ops + [Ialloc(T_DIR)];
    SmallAppend(sb, a, dir, Dirent(dir, DOT), n + 1);
    var b := a + [Iappend(dir, Dirent(dir, DOT))];
    TypeKept(a, Iappend(dir, Dirent(dir, DOT)), dir);
    SmallAppend(sb, b, dir, Dirent(ROOTINO, DOTDOT), n);
    TypeKept(b, Iappend(dir, Dirent(ROOTINO, DOTDOT)), dir);
  }

  lemma DotsKeep(ops: seq<Op>, dir: nat, i: nat)
    requires dir == NextInode(ops) != i
    ensures Concat(DotOps(ops, dir), i) == Concat(ops, i) && TypeOf(DotOps(ops, dir), i) == TypeOf(ops, i)
  {
    hide Concat, TypeOf, NextInode, Dirent;
    var a := ops + [Ialloc(T_DIR)];
    var b := a + [Iappend(dir, Dirent(dir, DOT))];
    OthersKeep(ops, Ialloc(T_DIR), i);
    OthersKeep(a, Iappend(dir, Dirent(dir, DOT)), i);
    OthersKeep(b, Iappend(dir, Dirent(ROOTINO, DOTDOT)), i);
  }

  lemma DirMade(sb: Super, ops: seq<Op>, dir: nat, name: seq<byte>, n: nat)
    requires Doable(sb, ops, n + 1) && 1 < dir == NextInode(ops) < sb.ninodes
    requires 0 < |Concat(ops, ROOTINO)| <= BSIZE - 16
    ensures var more := DirOps(ops, dir, name);
            && Doable(sb, more, n) && NextInode(more) == dir + 1 && Taken(more) == Taken(ops) + 1
            && Concat(more, dir) == Dots(dir) && TypeOf(more, dir) == T_DIR
            && Concat(more, ROOTINO) == Concat(ops, ROOTINO) + Dirent(dir, name)
            && TypeOf(more, ROOTINO) == TypeOf(ops, ROOTINO)
  {
    hide Concat, Taken, NextInode, TypeOf, Doable, Dirent, DotOps, Dots;
    DotsMade(sb, ops, dir, n);
    DotsKeep(ops, dir, ROOTINO);
    var a, op := DotOps(ops, dir), Iappend(ROOTINO, Dirent(dir, name));
    DoableSensible(sb, a, n);
    SmallAppend(sb, a, ROOTINO, Dirent(dir, name), n);
    TypeKept(a, op, ROOTINO);
    OthersKeep(a, op, dir);
  }

  lemma DirKeeps(ops: seq<Op>, dir: nat, name: seq<byte>, i: nat)
    requires dir == NextInode(ops) != i && i != ROOTINO
    ensures Concat(DirOps(ops, dir, name), i) == Concat(ops, i) && TypeOf(DirOps(ops, dir, name), i) == TypeOf(ops, i)
  {
    hide Concat, TypeOf, NextInode, Dirent, DotOps;
    DotsKeep(ops, dir, i);
    OthersKeep(DotOps(ops, dir), Iappend(ROOTINO, Dirent(dir, name)), i);
  }

  lemma DoableSensible(sb: Super, ops: seq<Op>, n: nat)
    requires Doable(sb, ops, n)
    ensures Sensible(sb, ops)
  {
  }

  /** The root as makedirs leaves it. */
  function RootEntries(): seq<byte> {
    Dots(ROOTINO) + Dirent(2, DEV) + Dirent(3, BIN) + Dirent(4, HOME)
  }

  /** The four directories that every image has, in one block each. */
  lemma MakedirsImage(sb: Super, n: nat)
    requires sb.Valid() && 5 <= sb.ninodes && sb.DataStart() + 4 + n <= sb.size
    ensures var ops := Makedirs();
            && Doable(sb, ops, n) && NextInode(ops) == 5 && Taken(ops) == 4
            && Concat(ops, ROOTINO) == RootEntries()
            && (forall d :: 2 <= d <= 4 ==> Concat(ops, d) == Dots(d))
            && (forall d :: 1 <= d <= 4 ==> TypeOf(ops, d) == T_DIR)
  {
    hide Doable, DotOps, DirOps, Dots, Dirent, Concat, Taken, NextInode, TypeOf;
    var a := DotOps([], ROOTINO);
    NoOps(sb, n + 4);
    DotsMade(sb, [], ROOTINO, n + 3);
    DirMade(sb, a, 2, DEV, n + 2);
    var b := DirOps(a, 2, DEV);
    DirMade(sb, b, 3, BIN, n + 1);
    DirKeeps(b, 3, BIN, 2);
    var c := DirOps(b, 3, BIN);
    DirMade(sb, c, 4, HOME, n);
    DirKeeps(c, 4, HOME, 2);
    DirKeeps(c, 4, HOME, 3);
  }

  lemma NoOps(sb: Super, n: nat)
    requires sb.DataStart() + n <= sb.size
    ensures Doable(sb, [], n) && NextInode([]) == 1 && Taken([]) == 0
  {
  }

  /** A file named to mkfs: whether it goes to /bin or to /home, under which name, and
      what is in it. */
  datatype Source = Source(bin: bool, name: seq<byte>, content: seq<byte>)

  /** main's inner loop: a block's worth read and appended at a time. */
  function ChunkOps(ops: seq<Op>, inum: nat, content: seq<byte>): seq<Op>
    decreases |content|
  {
    if content == [] then ops
    else
      var k := if |content| < BSIZE then |content| else BSIZE;
      ChunkOps(ops + [Iappend(inum, content[..k])], inum, content[k..])
  }

  function FolderOf(f: Source): nat {
    if f.bin then 3 else 4
  }

  function FileOps(ops: seq<Op>, f: Source): seq<Op> {
    var inum := NextInode(ops);
    ChunkOps(ops + [Ialloc(T_FILE)] + [Iappend(FolderOf(f), Dirent(inum, f.name))], inum, f.content)
  }

  /** All that main does before balloc. */
  function MainOps(files: seq<Source>): seq<Op> {
    if files == [] then Makedirs() else FileOps(MainOps(files[..|files| - 1]), files[|files| - 1])
  }

  /** The entries that /bin or /home gets. */
  function Entries(files: seq<Source>, bin: bool): seq<byte> {
    if files == [] then []
    else
      var f, n := files[|files| - 1], |files| - 1;
      Entries(files[..n], bin) + if f.bin == bin then Dirent(5 + n, f.name) else []
  }

  lemma {:induction false} Chunked(sb: Super, ops: seq<Op>, inum: nat, content: seq<byte>, i: nat)
    requires Sensible(sb, ops) && 1 <= inum < NextInode(ops) <= sb.ninodes
    ensures var more := ChunkOps(ops, inum, content);
            && Sensible(sb, more) && NextInode(more) == NextInode(ops) && TypeOf(more, i) == TypeOf(ops, i)
            && Concat(more, i) == Concat(ops, i) + if i == inum then content else []
    decreases |content|
  {
    hide Sensible, NextInode, TypeOf, Concat;
    if content != [] {
      var k := if |content| < BSIZE then |content| else BSIZE;
      var op := Iappend(inum, content[..k]);
      MoreInodes(ops, op);
      MoreSensible(sb, ops, op);
      MoreBytes(ops, op, i);
      TypeKept(ops, op, i);
      Chunked(sb, ops + [op], inum, content[k..], i);
      assert content[..k] + content[k..] == content;
    }
  }

  /** One file more: its entry and its contents, and nothing else. */
  lemma FileAdded(sb: Super, ops: seq<Op>, f: Source, i: nat)
    requires Sensible(sb, ops) && 5 <= NextInode(ops) < sb.ninodes
    ensures var more, inum := FileOps(ops, f), NextInode(ops);
            && Sensible(sb, more) && NextInode(more) == inum + 1
            && (i == inum ==> Concat(more, i) == f.content && TypeOf(more, i) == T_FILE)
            && (i == FolderOf(f) ==> Concat(more, i) == Concat(ops, i) + Dirent(inum, f.name))
            && (i != inum && i != FolderOf(f) ==> Concat(more, i) == Concat(ops, i))
            && (i != inum ==> TypeOf(more, i) == TypeOf(ops, i))
  {
    hide Sensible, NextInode, TypeOf, Concat, ChunkOps, Dirent;
    var inum, a := NextInode(ops), ops + [Ialloc(T_FILE)];
    var op := Iappend(FolderOf(f), Dirent(inum, f.name));
    NotHandedOut(sb, ops, inum);
    MoreInodes(ops, Ialloc(T_FILE));
    MoreSensible(sb, ops, Ialloc(T_FILE));
    MoreBytes(ops, Ialloc(T_FILE), i);
    MoreTypes(ops, Ialloc(T_FILE), i);
    MoreInodes(a, op);
    MoreSensible(sb, a, op);
    MoreBytes(a, op, i);
    TypeKept(a, op, i);
    Chunked(sb, a + [op], inum, f.content, i);
  }

  lemma {:induction false} DirectoriesMade(sb: Super, files: seq<Source>)
    requires sb.Valid() && 5 + |files| <= sb.ninodes && sb.DataStart() + 4 <= sb.size
    ensures var ops := MainOps(files);
            && Sensible(sb, ops) && NextInode(ops) == 5 + |files|
            && Concat(ops, ROOTINO) == RootEntries() && Concat(ops, 2) == Dots(2)
            && Concat(ops, 3) == Dots(3) + Entries(files, true) && Concat(ops, 4) == Dots(4) + Entries(files, false)
            && (forall d :: 1 <= d <= 4 ==> TypeOf(ops, d) == T_DIR)
  {
    hide Sensible, NextInode, TypeOf, Concat, FileOps, Dirent, Dots, RootEntries, Makedirs, Doable;
    if files == [] {
      MakedirsImage(sb, 0);
      DoableSensible(sb, Makedirs(), 0);
    } else {
      var rest, f := files[..|files| - 1], files[|files| - 1];
      DirectoriesMade(sb, rest);
      FileAdded(sb, MainOps(rest), f, 1);
      FileAdded(sb, MainOps(rest), f, 2);
      FileAdded(sb, MainOps(rest), f, 3);
      FileAdded(sb, MainOps(rest), f, 4);
    }
  }

  /** Every file mkfs was given is there under its inode number. */
  lemma {:induction false} FilesMade(sb: Super, files: seq<Source>, k: nat)
    requires sb.Valid() && 5 + |files| <= sb.ninodes && sb.DataStart() + 4 <= sb.size && k < |files|
    ensures Concat(MainOps(files), 5 + k) == files[k].content && TypeOf(MainOps(files), 5 + k) == T_FILE
    decreases |files|
  {
    hide Sensible, NextInode, TypeOf, Concat, FileOps;
    var rest, f := files[..|files| - 1], files[|files| - 1];
    DirectoriesMade(sb, rest);
    FileAdded(sb, MainOps(rest), f, 5 + k);
    if k < |files| - 1 { FilesMade(sb, rest, k); }
  }

  const FSSIZE := 1000
  const NINODES := 200

  /** The super block mkfs computes: boot block, super block, log, inodes, bitmap, data. */
  function MakeSuper(size: nat, ninodes: nat, nlog: nat): Super {
    var ninodeblocks, nbitmap := ninodes / IPB + 1, size / BPB + 1;
    var nmeta := 2 + nlog + ninodeblocks + nbitmap;
    Super(size, if nmeta <= size then size - nmeta else 0, ninodes, 2 + nlog, 2 + nlog + ninodeblocks)
  }

  /** Its regions follow one another without overlap: the log behind the super block, the
      block of every inode, the bitmap block of every block, then the data, with at most
      one block of inodes and one of bitmap to spare. */
  lemma Regions(size: nat, ninodes: nat, nlog: nat, i: nat, b: nat)
    requires var sb := MakeSuper(size, ninodes, nlog); sb.nblocks > 0 && size < UINT_RANGE && i < ninodes && b < size
    ensures var sb := MakeSuper(size, ninodes, nlog);
            && sb.Valid() && sb.size == size && sb.ninodes == ninodes
            && 2 + nlog == sb.inodestart <= sb.Iblock(i) < sb.bmapstart <= sb.Bblock(b) < sb.DataStart() < size
            && sb.bmapstart <= sb.Iblock(ninodes) + 1 && sb.DataStart() <= sb.Bblock(size) + 1
  {
    assert i / IPB <= ninodes / IPB && b / BPB <= size / BPB;
  }

  function ShippedSuper(): Super {
    MakeSuper(FSSIZE, NINODES, LOGSIZE)
  }

  /** The numbers of the shipped image. */
  lemma ShippedNumbers()
    ensures ShippedSuper() == Super(1000, 941, 200, 32, 58) && ShippedSuper().DataStart() == 59
  {
  }

  /** So the image of main: the directories with their entries and every file with its
      contents, in a file system whose free map, pointers and inodes are right. */
  lemma MainImage(disk: seq<Block>, owner: seq<Owner>, files: seq<Source>, k: nat)
    requires 5 + |files| <= 200 && IsImage(ShippedSuper(), disk, owner, MainOps(files))
    ensures var v := View(disk, DiskInodes(ShippedSuper(), disk), owner);
            && ValidView(ShippedSuper(), v)
            && FileOf(ShippedSuper(), v, ROOTINO) == RootEntries() && FileOf(ShippedSuper(), v, 2) == Dots(2)
            && FileOf(ShippedSuper(), v, 3) == Dots(3) + Entries(files, true)
            && FileOf(ShippedSuper(), v, 4) == Dots(4) + Entries(files, false)
            && (k < |files| ==> FileOf(ShippedSuper(), v, 5 + k) == files[k].content && v.ino[5 + k].typ == T_FILE)
  {
    hide ValidView, FileOf, Concat, TypeOf, MainOps, RootEntries, Dots, Entries;
    DirectoriesMade(ShippedSuper(), files);
    if k < |files| { FilesMade(ShippedSuper(), files, k); }
    var v := View(disk, DiskInodes(ShippedSuper(), disk), owner);
    forall i | 0 <= i < 200 ensures FileOf(ShippedSuper(), v, i) == Concat(MainOps(files), i) {
      assert v.ino[i].typ == TypeOf(MainOps(files), i);
    }
  }
}
