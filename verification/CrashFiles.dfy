/** Files across crashes: transactions of the file system committed through the log,
    and the file system found on the disk after any crash. */
module CrashFiles {
  import opened Blocks
  import opened CrashLog
  import opened FileLayout
  import opened FileSystem
  import LogAdmission
  import MakeFs
  import opened Machine

  /** The log lies between the super block and the inodes, as mkfs lays it out. */
  predicate LogBelow(sb: Super, l: Layout) {
    l.start + l.size <= sb.inodestart
  }

  lemma PointersBeyondLog(sb: Super, v: View, e: seq<Block>)
    requires Owning(sb, v) && |e| == |v.blk| && forall b :: sb.inodestart <= b < |e| ==> e[b] == v.blk[b]
    ensures PtrsMatch(e, v.ino, v.owner)
    ensures forall j, t {:trigger PtrOf(e, v.ino[j], t)} :: 0 <= j < |v.ino| && 0 <= t <= INDIRECT ==>
              PtrOf(e, v.ino[j], t) == PtrOf(v.blk, v.ino[j], t)
  {
    hide Word, Used;
    forall j, t | 0 <= j < |v.ino| && 0 <= t <= INDIRECT
      ensures PtrOf(e, v.ino[j], t) == PtrOf(v.blk, v.ino[j], t)
    {
      AddrOwned(v.blk, v.ino, v.owner, j, NDIRECT);
    }
  }

  lemma BitsBeyondLog(sb: Super, v: View, e: seq<Block>)
    requires Owning(sb, v) && |e| == |v.blk| && forall b :: sb.inodestart <= b < |e| ==> e[b] == v.blk[b]
    ensures BitsMatch(sb, e, v.owner)
  {
    hide Bit, PtrsMatch;
    forall b | 0 <= b < sb.size ensures Used(sb, e, b) == Used(sb, v.blk, b) {
    }
  }

  /** What is before the inodes says nothing about files. */
  lemma FilesBeyondLog(sb: Super, v: View, e: seq<Block>)
    requires ValidView(sb, v) && |e| == |v.blk| && forall b :: sb.inodestart <= b < |e| ==> e[b] == v.blk[b]
    ensures sb.Valid() && |e| == sb.size && DiskInodes(sb, e) == v.ino
    ensures var w := v.(blk := e);
            ValidView(sb, w) && forall i :: 0 <= i < |v.ino| ==> FileOf(sb, w, i) == FileOf(sb, v, i)
  {
    hide PtrOf, InodeAt, BitsMatch, PtrsMatch, Filled, Bytes;
    var w := v.(blk := e);
    PointersBeyondLog(sb, v, e);
    BitsBeyondLog(sb, v, e);
    forall i | 0 <= i < |v.ino|
      ensures sb.Iblock(i) < |e| && Synced(sb, w, i) && DiskInodes(sb, e)[i] == v.ino[i]
      ensures Filled(e, v.ino[i], v.ino[i].size)
    {
      assert Synced(sb, v, i);
      FilledByPtrs(v.blk, v.ino[i], e, v.ino[i], v.ino[i].size);
    }
    forall i | 0 <= i < |v.ino| ensures FileOf(sb, w, i) == FileOf(sb, v, i) {
      forall b | 0 <= b < |v.blk| && v.owner[b] != Meta ensures e[b] == v.blk[b] {
        OwnedData(sb, v.blk, v.owner, b);
      }
      BytesByPtrs(sb, v, w, i, v.ino[i].size);
    }
  }

  /** The disk, with nothing to install, holds the file system of v. */
  ghost predicate OnDisk(sb: Super, l: Layout, d: Disk, v: View) {
    ValidView(sb, v) && LogBelow(sb, l) && Settled(d, l, v.blk)
  }

  /** And that is what is found there. */
  lemma FoundOnDisk(sb: Super, l: Layout, d: Disk, v: View)
    requires OnDisk(sb, l, d, v)
    ensures sb.Valid() && |d| == sb.size && DiskInodes(sb, d) == v.ino
    ensures var w := View(d, DiskInodes(sb, d), v.owner);
            ValidView(sb, w) && forall i :: 0 <= i < |v.ino| ==> FileOf(sb, w, i) == FileOf(sb, v, i)
  {
    hide ValidView, FileOf, Word;
    FilesBeyondLog(sb, v, d);
  }

  /** An operation that took the file system to after, its logged blocks in the order
      of the header, and how its commit went: through, or a crash after k writes and
      recoveries that crash after ks. */
  datatype Operation = Operation(after: View, lh: seq<nat>, crash: bool, k: nat, ks: seq<nat>)

  /** From v, the operation changed only what it logged, and that fits the log. */
  ghost predicate Logged(sb: Super, l: Layout, v: View, op: Operation) {
    && ValidView(sb, op.after) && |op.lh| <= LOGSIZE && |op.lh| < l.size
    && Transaction(sb, v.blk, op.after.blk, LogAdmission.Elems(op.lh))
  }

  ghost function EventOf(op: Operation): Event
    requires forall i :: 0 <= i < |op.lh| ==> op.lh[i] < |op.after.blk|
  {
    var tx := Contents(op.lh, op.after.blk);
    if op.crash then Crashes(tx, op.k, op.ks) else Commits(tx)
  }

  /** The file system that survives: the operation's if its header was written. */
  function Survivor(v: View, op: Operation): View {
    if op.crash && op.k <= |op.lh| then v else op.after
  }

  lemma LoggedFits(sb: Super, l: Layout, d: Disk, v: View, op: Operation)
    requires OnDisk(sb, l, d, v) && Logged(sb, l, v, op)
    ensures forall i :: 0 <= i < |op.lh| ==> op.lh[i] < |op.after.blk|
    ensures Loggable(|d|, l, EventOf(op).tx)
    ensures Installed(v.blk, EventOf(op).tx) == op.after.blk
  {
    hide Word, FileOf, After, Owns, Filled, Synced;
    forall i | 0 <= i < |op.lh| ensures sb.inodestart <= op.lh[i] < |op.after.blk| {
      assert op.lh[i] in LogAdmission.Elems(op.lh);
    }
    ViewSize(sb, v);
    forall b | 0 <= b < |v.blk| && !LoggedFrom(op.lh, 0, b) ensures op.after.blk[b] == v.blk[b] {
      assert b !in op.lh;
    }
    InstalledIsLatest(v.blk, op.lh, op.after.blk);
  }

  lemma ViewSize(sb: Super, v: View)
    requires ValidView(sb, v)
    ensures |v.blk| == sb.size < UINT_RANGE
  {
  }

  /** Crash safety of files: whatever happens during the commit and the recoveries, the
      disk then holds the file system before the operation or the one after it, whole. */
  lemma FilesSurvive(sb: Super, l: Layout, d: Disk, v: View, op: Operation)
    requires OnDisk(sb, l, d, v) && Logged(sb, l, v, op)
    ensures forall i :: 0 <= i < |op.lh| ==> op.lh[i] < |op.after.blk|
    ensures Loggable(|d|, l, EventOf(op).tx)
    ensures OnDisk(sb, l, Step(d, l, EventOf(op)), Survivor(v, op))
  {
    hide ValidView, Loggable, Settled, Step, Contents, Transaction;
    LoggedFits(sb, l, d, v, op);
    StepEffect(d, l, v.blk, EventOf(op));
  }

  /** Operations one after the other, each starting from what survived the last. */
  ghost predicate Chain(sb: Super, l: Layout, v: View, ops: seq<Operation>)
    decreases |ops|
  {
    ops == [] || (Logged(sb, l, v, ops[0]) && Chain(sb, l, Survivor(v, ops[0]), ops[1..]))
  }

  function Survivors(v: View, ops: seq<Operation>): View
    decreases |ops|
  {
    if ops == [] then v else Survivors(Survivor(v, ops[0]), ops[1..])
  }

  /** The disk after them. */
  ghost function DiskAfter(sb: Super, l: Layout, d: Disk, v: View, ops: seq<Operation>): (e: Disk)
    requires OnDisk(sb, l, d, v) && Chain(sb, l, v, ops)
    ensures OnDisk(sb, l, e, Survivors(v, ops))
    decreases |ops|
  {
    if ops == [] then d
    else
      FilesSurvive(sb, l, d, v, ops[0]);
      DiskAfter(sb, l, Step(d, l, EventOf(ops[0])), Survivor(v, ops[0]), ops[1..])
  }

  /** Over any run of operations with crashes at any points: the inodes read from the
      disk make a valid file system, with the files of the last operation whose commit
      reached its header write. */
  lemma FilesSurviveRuns(sb: Super, l: Layout, d: Disk, v: View, ops: seq<Operation>)
    requires OnDisk(sb, l, d, v) && Chain(sb, l, v, ops)
    ensures var e, last := DiskAfter(sb, l, d, v, ops), Survivors(v, ops);
            && sb.Valid() && |e| == sb.size
            && (var w := View(e, DiskInodes(sb, e), last.owner);
                && ValidView(sb, w) && w.ino == last.ino && ValidView(sb, last)
                && forall i :: 0 <= i < |w.ino| ==> FileOf(sb, w, i) == FileOf(sb, last, i))
  {
    hide ValidView, FileOf, Word, DiskAfter, Survivors, Chain;
    FoundOnDisk(sb, l, DiskAfter(sb, l, d, v, ops), Survivors(v, ops));
  }

  /** The image mkfs makes is where such runs begin. */
  lemma ImageOnDisk(sb: Super, l: Layout, disk: Disk, owner: seq<Owner>, ops: seq<MakeFs.Op>)
    requires MakeFs.IsImage(sb, disk, owner, ops) && LogBelow(sb, l) && 2 <= l.start && 0 < l.size
    ensures OnDisk(sb, l, disk, View(disk, DiskInodes(sb, disk), owner))
  {
    hide ValidView, FileOf, Word;
    ZeroWords(0);
  }

  // ---- Writei and itrunc as transactions ----

  /** The disk after the operation's commit, or crash and recovery, holds the file
      system before it or the one after it. */
  ghost predicate Survives(sb: Super, l: Layout, d: Disk, v: View, op: Operation) {
    && (forall i :: 0 <= i < |op.lh| ==> op.lh[i] < |op.after.blk|)
    && Loggable(|d|, l, EventOf(op).tx)
    && OnDisk(sb, l, Step(d, l, EventOf(op)), Survivor(v, op))
  }

  /** op commits what was logged on the way to w, and it fits. */
  ghost predicate CommitsAll(l: Layout, w: View, logged: set<nat>, op: Operation) {
    op.after == w && LogAdmission.Elems(op.lh) == logged && |op.lh| <= LOGSIZE && |op.lh| < l.size
  }

  lemma TransactionSurvives(sb: Super, l: Layout, d: Disk, v: View, w: View, logged: set<nat>, op: Operation)
    requires OnDisk(sb, l, d, v) && ValidView(sb, w) && Transaction(sb, v.blk, w.blk, logged)
    requires CommitsAll(l, w, logged, op)
    ensures Survives(sb, l, d, v, op)
  {
    hide ValidView, Transaction, Settled, Step, Contents, Loggable;
    FilesSurvive(sb, l, d, v, op);
  }

  /** writei in a transaction of its own: whenever its commit is cut short, the disk
      holds all files as before the write or all as after it. */
  method WriteAtomically(fs: Fs, l: Layout, ghost d: Disk, i: nat, src: seq<byte>, off: uint32)
    returns (ok: bool, r: int)
    requires fs.Valid() && i < |fs.ino| && fs.ino[i].typ != T_DEV && |src| < UINT_RANGE
    requires OnDisk(fs.sb, l, d, fs.Now())
    modifies fs
    ensures !ok ==> fs.Full()
    ensures ok ==> fs.Valid() && |fs.ino| == |old(fs.ino)|
    ensures ok && r != -1 ==> r == |src| && off <= |old(fs.File(i))| && fs.File(i) == Splice(old(fs.File(i)), off, src)
    ensures ok && r != -1 ==> OtherFilesSame(fs.sb, old(fs.Now()), fs.Now(), i)
    ensures ok ==> forall op :: CommitsAll(l, fs.Now(), fs.logged, op) ==> Survives(fs.sb, l, d, old(fs.Now()), op)
  {
    hide ValidView, FileOf, OnDisk, OtherFilesSame, Transaction, Survives, CommitsAll, Splice;
    ghost var v, tx := fs.Now(), {};
    fs.BeginOp();
    ok, r, tx := fs.Writei(i, src, off);
    if ok {
      forall op | CommitsAll(l, fs.Now(), fs.logged, op) ensures Survives(fs.sb, l, d, v, op) {
        TransactionSurvives(fs.sb, l, d, v, fs.Now(), fs.logged, op);
      }
    }
  }

  /** And itrunc. */
  method TruncateAtomically(fs: Fs, l: Layout, ghost d: Disk, i: nat)
    requires fs.Valid() && i < |fs.ino| && OnDisk(fs.sb, l, d, fs.Now())
    modifies fs
    ensures fs.Valid() && |fs.ino| == |old(fs.ino)| && fs.File(i) == []
    ensures OtherFilesSame(fs.sb, old(fs.Now()), fs.Now(), i)
    ensures forall op :: CommitsAll(l, fs.Now(), fs.logged, op) ==> Survives(fs.sb, l, d, old(fs.Now()), op)
  {
    hide ValidView, FileOf, OnDisk, OtherFilesSame, Transaction, Survives, CommitsAll;
    ghost var v := fs.Now();
    fs.BeginOp();
    fs.Itrunc(i);
    forall op | CommitsAll(l, fs.Now(), fs.logged, op) ensures Survives(fs.sb, l, d, v, op) {
      TransactionSurvives(fs.sb, l, d, v, fs.Now(), fs.logged, op);
    }
  }
}
