/** The write-ahead log of log.c: commit and recovery as sequences of atomic
    block writes, with a crash allowed between any two of them. */
module CrashLog {
  import opened Blocks
  import opened Machine

  /** Block b of the disk is d[b]. */
  type Disk = seq<Block>

  /** One block write, and a transaction as the home writes it stands for. */
  datatype Write = Write(bno: nat, data: Block)
  type Tx = seq<Write>

  /** iderw of a dirty buffer; it never touches a block off the disk. */
  function Put(d: Disk, w: Write): (e: Disk)
    ensures |e| == |d|
  {
    if w.bno < |d| then d[w.bno := w.data] else d
  }

  /** The disk after the first k of the writes ws: what a crash then leaves. */
  function After(d: Disk, ws: seq<Write>, k: nat): (e: Disk)
    requires k <= |ws|
    ensures |e| == |d|
  {
    if k == 0 then d else Put(After(d, ws, k - 1), ws[k - 1])
  }

  // ---- Layout and header ----

  /** Where the log lives: a header block at start, then size - 1 log blocks. */
  datatype Layout = Layout(start: nat, size: nat) {
    predicate Contains(b: nat) {
      start <= b < start + size
    }

    /** The block number of log block i. */
    function Slot(i: nat): nat {
      start + 1 + i
    }

    /** The log area lies on a disk of n blocks. */
    predicate Within(n: nat) {
      0 < size && start + size <= n
    }
  }

  /** Words 1, 2, ... of b overwritten with the block numbers of tx; word 0 and
      the words after them kept. */
  function PutEntries(b: Block, tx: Tx, n: nat): (r: Block)
    requires n <= |tx| < NWORDS && forall i :: 0 <= i < |tx| ==> tx[i].bno < UINT_RANGE
    ensures Word(r, 0) == Word(b, 0)
    ensures forall i {:trigger tx[i]} :: 0 <= i < n ==> Word(r, i + 1) == tx[i].bno
  {
    if n == 0 then b
    else SetWord(PutEntries(b, tx, n - 1), n, tx[n - 1].bno)
  }

  lemma EntriesNone(b: Block, tx: Tx)
    requires |tx| < NWORDS && forall i :: 0 <= i < |tx| ==> tx[i].bno < UINT_RANGE
    ensures PutEntries(b, tx, 0) == b
  {
  }

  lemma EntriesNext(b: Block, tx: Tx, n: nat)
    requires n < |tx| < NWORDS && forall i :: 0 <= i < |tx| ==> tx[i].bno < UINT_RANGE
    ensures PutEntries(b, tx, n + 1) == SetWord(PutEntries(b, tx, n), n + 1, tx[n].bno)
  {
  }

  /** The header block that write_head builds over the old one. */
  function EncodeHead(b: Block, tx: Tx): (r: Block)
    requires |tx| < NWORDS && forall i :: 0 <= i < |tx| ==> tx[i].bno < UINT_RANGE
    ensures Word(r, 0) == |tx|
    ensures forall i {:trigger tx[i]} :: 0 <= i < |tx| ==> Word(r, i + 1) == tx[i].bno
  {
    PutEntries(SetWord(b, 0, |tx|), tx, |tx|)
  }

  /** The header's count is within what block and log area can hold. */
  predicate GoodCount(d: Disk, l: Layout)
  {
    l.Within(|d|) && Word(d[l.start], 0) <= LOGSIZE && Word(d[l.start], 0) < l.size
  }

  /** The transaction recorded in the log: what install_trans copies home. */
  function Recorded(d: Disk, l: Layout): (tx: Tx)
    requires GoodCount(d, l)
    ensures |tx| == Word(d[l.start], 0)
    ensures forall i {:trigger tx[i]} :: 0 <= i < |tx| ==> tx[i] == Write(Word(d[l.start], i + 1), d[l.Slot(i)])
  {
    seq(Word(d[l.start], 0),
        i requires 0 <= i < Word(d[l.start], 0) => Write(Word(d[l.start], i + 1), d[l.Slot(i)]))
  }

  // ---- The writes of commit and of recovery ----

  /** tx writes home blocks of an n-block disk and fits both header and log area. */
  ghost predicate Loggable(n: nat, l: Layout, tx: Tx)
  {
    && l.Within(n)
    && |tx| <= LOGSIZE && |tx| < l.size
    && (forall i :: 0 <= i < |tx| ==>
          tx[i].bno < n && tx[i].bno < UINT_RANGE && !l.Contains(tx[i].bno))
  }

  /** write_log: log block i receives the cached copy of the i-th logged block. */
  function LogCopies(l: Layout, tx: Tx): (ws: seq<Write>)
    ensures |ws| == |tx|
    ensures forall i {:trigger ws[i]} :: 0 <= i < |ws| ==> ws[i] == Write(l.Slot(i), tx[i].data)
  {
    seq(|tx|, i requires 0 <= i < |tx| => Write(l.Slot(i), tx[i].data))
  }

  /** Commit up to its commit point: the log blocks, then the header. */
  ghost function Publish(d: Disk, l: Layout, tx: Tx): (ws: seq<Write>)
    requires Loggable(|d|, l, tx)
    ensures |ws| == |tx| + 1
  {
    LogCopies(l, tx) + [Write(l.start, EncodeHead(d[l.start], tx))]
  }

  /** install_trans, then write_head with an empty header. */
  function Finish(d: Disk, l: Layout, tx: Tx): (ws: seq<Write>)
    requires l.Within(|d|)
    ensures |ws| == |tx| + 1
  {
    tx + [Write(l.start, EncodeHead(d[l.start], []))]
  }

  /** The writes of commit, in order; none for an empty transaction. */
  ghost function CommitWrites(d: Disk, l: Layout, tx: Tx): (ws: seq<Write>)
    requires Loggable(|d|, l, tx)
  {
    if tx == [] then []
    else Publish(d, l, tx) + Finish(After(d, Publish(d, l, tx), |tx| + 1), l, tx)
  }

  /** The writes of recover_from_log, in order. */
  function RecoverWrites(d: Disk, l: Layout): (ws: seq<Write>)
    requires GoodCount(d, l)
  {
    Finish(d, l, Recorded(d, l))
  }

  // ---- Phases ----

  /** e and d agree on the blocks outside the log area. */
  ghost predicate SameHome(e: Disk, d: Disk, l: Layout)
  {
    |e| == |d| && forall b :: 0 <= b < |d| && !l.Contains(b) ==> e[b] == d[b]
  }

  /** One of the first k writes of tx goes to block b. */
  predicate Touches(tx: Tx, k: nat, b: nat)
    requires k <= |tx|
  {
    exists i :: 0 <= i < k && tx[i].bno == b
  }

  /** Commit point passed: the log holds tx, and outside the log and the blocks
      tx writes, nothing differs from d. */
  ghost predicate Committed(e: Disk, l: Layout, d: Disk, tx: Tx)
  {
    && |e| == |d|
    && GoodCount(e, l) && Recorded(e, l) == tx
    && forall b :: 0 <= b < |d| && !l.Contains(b) && !Touches(tx, |tx|, b) ==> e[b] == d[b]
  }

  /** No transaction in the log, and the home blocks are those of d. */
  ghost predicate Settled(e: Disk, l: Layout, d: Disk)
  {
    GoodCount(e, l) && Word(e[l.start], 0) == 0 && SameHome(e, d, l)
  }

  /** The disk with every write of tx done in place: the state after tx. */
  function Installed(d: Disk, tx: Tx): (e: Disk)
  {
    After(d, tx, |tx|)
  }

  // ---- Writes one at a time ----

  lemma {:induction false} AfterFirst(d: Disk, xs: seq<Write>, ys: seq<Write>, k: nat)
    requires k <= |xs|
    ensures After(d, xs + ys, k) == After(d, xs, k)
  {
    if k > 0 { AfterFirst(d, xs, ys, k - 1); }
  }

  lemma {:induction false} AfterSecond(d: Disk, xs: seq<Write>, ys: seq<Write>, k: nat)
    requires k <= |ys|
    ensures After(d, xs + ys, |xs| + k) == After(After(d, xs, |xs|), ys, k)
  {
    if k == 0 {
      AfterFirst(d, xs, ys, |xs|);
    } else {
      AfterSecond(d, xs, ys, k - 1);
    }
  }

  /** Until the header is written, the disk still is a clean disk with the old
      home blocks; only log blocks have changed. */
  lemma {:induction false} BeforeCommitPoint(d: Disk, l: Layout, tx: Tx, k: nat)
    requires Settled(d, l, d) && Loggable(|d|, l, tx) && k <= |tx|
    ensures var e := After(d, LogCopies(l, tx), k);
            && e[l.start] == d[l.start] && Settled(e, l, d)
            && (forall i {:trigger l.Slot(i)} :: 0 <= i < k ==> e[l.Slot(i)] == tx[i].data)
  {
    hide LittleEndian;
    if k > 0 {
      BeforeCommitPoint(d, l, tx, k - 1);
      assert l.Contains(l.Slot(k - 1));
    }
  }

  /** Writing the header over a clean disk whose log blocks hold tx commits tx. */
  lemma HeaderCommits(p: Disk, l: Layout, d: Disk, tx: Tx)
    requires Loggable(|d|, l, tx) && SameHome(p, d, l)
    requires forall i {:trigger l.Slot(i)} :: 0 <= i < |tx| ==> p[l.Slot(i)] == tx[i].data
    ensures Committed(Put(p, Write(l.start, EncodeHead(p[l.start], tx))), l, d, tx)
  {
    hide LittleEndian;
  }

  /** Installing a block of a committed transaction leaves the log as it is. */
  lemma InstallKeepsLog(e: Disk, l: Layout, w: Write)
    requires GoodCount(e, l) && !l.Contains(w.bno)
    ensures GoodCount(Put(e, w), l) && Recorded(Put(e, w), l) == Recorded(e, l)
    ensures Put(e, w)[l.start] == e[l.start]
  {
    hide LittleEndian;
  }

  /** Installing any prefix of the transaction keeps it committed. */
  lemma {:induction false} InstallPrefix(e: Disk, l: Layout, d: Disk, tx: Tx, k: nat)
    requires Loggable(|d|, l, tx) && Committed(e, l, d, tx) && k <= |tx|
    ensures Committed(After(e, tx, k), l, d, tx) && After(e, tx, k)[l.start] == e[l.start]
  {
    hide Word;
    if k > 0 {
      InstallPrefix(e, l, d, tx, k - 1);
      InstallKeepsLog(After(e, tx, k - 1), l, tx[k - 1]);
    }
  }

  /** Two disks that agree off tx agree everywhere once tx is installed on both. */
  lemma {:induction false} InstallAgrees(e: Disk, d: Disk, tx: Tx, k: nat, b: nat)
    requires |e| == |d| && k <= |tx| && b < |d|
    requires !Touches(tx, |tx|, b) ==> e[b] == d[b]
    ensures Touches(tx, k, b) || e[b] == d[b] ==> After(e, tx, k)[b] == After(d, tx, k)[b]
  {
    if k > 0 {
      InstallAgrees(e, d, tx, k - 1, b);
    }
  }

  lemma InstalledAgrees(e: Disk, l: Layout, d: Disk, tx: Tx)
    requires Committed(e, l, d, tx)
    ensures SameHome(Installed(e, tx), Installed(d, tx), l)
  {
    hide Word;
    forall b | 0 <= b < |d| && !l.Contains(b)
      ensures Installed(e, tx)[b] == Installed(d, tx)[b]
    {
      InstallAgrees(e, d, tx, |tx|, b);
    }
  }

  /** Emptying the header settles the home blocks as they are. */
  lemma EraseSettles(e: Disk, l: Layout, ref: Disk, b: Block)
    requires l.Within(|e|) && SameHome(e, ref, l)
    ensures Settled(Put(e, Write(l.start, EncodeHead(b, []))), l, ref)
  {
    hide LittleEndian;
  }

  // ---- Recovery ----

  /** Any prefix of the recovery of a committed transaction leaves it committed;
      the whole recovery leaves it installed and the log empty. */
  lemma RecoverCommitted(e: Disk, l: Layout, d: Disk, tx: Tx, k: nat)
    requires Loggable(|d|, l, tx) && Committed(e, l, d, tx) && k <= |tx| + 1
    ensures RecoverWrites(e, l) == Finish(e, l, tx)
    ensures var f := After(e, Finish(e, l, tx), k);
            if k <= |tx| then Committed(f, l, d, tx) else Settled(f, l, Installed(d, tx))
  {
    hide Word;
    var n := if k <= |tx| then k else |tx|;
    AfterFirst(e, tx, [Write(l.start, EncodeHead(e[l.start], []))], n);
    InstallPrefix(e, l, d, tx, n);
    if k > |tx| {
      InstalledAgrees(e, l, d, tx);
      EraseSettles(Installed(e, tx), l, Installed(d, tx), e[l.start]);
    }
  }

  /** Recovering a settled disk, completely or not, changes no home block. */
  lemma RecoverSettled(e: Disk, l: Layout, d: Disk, k: nat)
    requires Settled(e, l, d) && k <= 1
    ensures |RecoverWrites(e, l)| == 1 && Settled(After(e, RecoverWrites(e, l), k), l, d)
  {
    hide LittleEndian;
    if k == 1 {
      EraseSettles(e, l, d, e[l.start]);
    }
  }

  function Min(a: nat, b: nat): nat {
    if a <= b then a else b
  }

  /** The disk after recoveries that crash after ks[0], ks[1], ... writes. */
  function CrashedRecoveries(d: Disk, l: Layout, ks: seq<nat>): (e: Disk)
    ensures |e| == |d|
    decreases |ks|
  {
    if ks == [] || !GoodCount(d, l) then d
    else
      var ws := RecoverWrites(d, l);
      CrashedRecoveries(After(d, ws, Min(ks[0], |ws|)), l, ks[1..])
  }

  /** The disk after a recovery that runs to its end. */
  function Recovered(d: Disk, l: Layout): Disk
    requires GoodCount(d, l)
  {
    After(d, RecoverWrites(d, l), |RecoverWrites(d, l)|)
  }

  lemma {:induction false} CrashesKeepCommitted(e: Disk, l: Layout, d: Disk, tx: Tx, ks: seq<nat>)
    requires Loggable(|d|, l, tx)
    requires Committed(e, l, d, tx) || Settled(e, l, Installed(d, tx))
    ensures var f := CrashedRecoveries(e, l, ks);
            Committed(f, l, d, tx) || Settled(f, l, Installed(d, tx))
    decreases |ks|
  {
    hide Word;
    if ks != [] {
      var n := |RecoverWrites(e, l)|;
      if Committed(e, l, d, tx) {
        RecoverCommitted(e, l, d, tx, Min(ks[0], n));
      } else {
        RecoverSettled(e, l, Installed(d, tx), Min(ks[0], 1));
      }
      CrashesKeepCommitted(After(e, RecoverWrites(e, l), Min(ks[0], n)), l, d, tx, ks[1..]);
    }
  }

  lemma {:induction false} CrashesKeepSettled(e: Disk, l: Layout, d: Disk, ks: seq<nat>)
    requires Settled(e, l, d)
    ensures Settled(CrashedRecoveries(e, l, ks), l, d)
    decreases |ks|
  {
    hide Word;
    if ks != [] {
      RecoverSettled(e, l, d, Min(ks[0], 1));
      CrashesKeepSettled(After(e, RecoverWrites(e, l), Min(ks[0], 1)), l, d, ks[1..]);
    }
  }

  // ---- Commit ----

  lemma AtCommitPoint(d: Disk, l: Layout, tx: Tx)
    requires Settled(d, l, d) && Loggable(|d|, l, tx)
    ensures Committed(After(d, Publish(d, l, tx), |tx| + 1), l, d, tx)
  {
    hide Word;
    var n, last := |tx|, [Write(l.start, EncodeHead(d[l.start], tx))];
    BeforeCommitPoint(d, l, tx, n);
    AfterFirst(d, LogCopies(l, tx), last, n);
    HeaderCommits(After(d, LogCopies(l, tx), n), l, d, tx);
  }

  lemma CommitBeforeHeader(d: Disk, l: Layout, tx: Tx, k: nat)
    requires Settled(d, l, d) && Loggable(|d|, l, tx) && tx != [] && k <= |tx|
    ensures Settled(After(d, CommitWrites(d, l, tx), k), l, d)
  {
    hide Word, Settled;
    var first := Publish(d, l, tx);
    BeforeCommitPoint(d, l, tx, k);
    AfterFirst(d, first, Finish(After(d, first, |tx| + 1), l, tx), k);
    AfterFirst(d, LogCopies(l, tx), [Write(l.start, EncodeHead(d[l.start], tx))], k);
  }

  lemma CommitAfterHeader(d: Disk, l: Layout, tx: Tx, k: nat)
    requires Settled(d, l, d) && Loggable(|d|, l, tx) && tx != []
    requires |tx| < k <= |CommitWrites(d, l, tx)|
    ensures var e := After(d, CommitWrites(d, l, tx), k);
            if k <= 2 * |tx| + 1 then Committed(e, l, d, tx) else Settled(e, l, Installed(d, tx))
  {
    hide Word, Committed, Settled, Publish, Finish;
    var n, first := |tx|, Publish(d, l, tx);
    var c := After(d, first, n + 1);
    AtCommitPoint(d, l, tx);
    AfterSecond(d, first, Finish(c, l, tx), k - (n + 1));
    RecoverCommitted(c, l, d, tx, k - (n + 1));
  }

  /** Commit interrupted after k writes: the old home blocks and an empty log
      up to the header write, tx recorded in the log from there on, and the
      new home blocks with an empty log after the last write. */
  lemma CommitPrefix(d: Disk, l: Layout, tx: Tx, k: nat)
    requires Settled(d, l, d) && Loggable(|d|, l, tx) && k <= |CommitWrites(d, l, tx)|
    ensures var e := After(d, CommitWrites(d, l, tx), k);
            if k <= |tx| then Settled(e, l, d)
            else if k < |CommitWrites(d, l, tx)| then Committed(e, l, d, tx)
            else Settled(e, l, Installed(d, tx))
  {
    hide Word, Settled, Committed;
    if tx != [] && k <= |tx| {
      CommitBeforeHeader(d, l, tx, k);
    } else if tx != [] {
      CommitAfterHeader(d, l, tx, k);
    }
  }

  lemma CommitKeepsHome(d: Disk, l: Layout, tx: Tx)
    requires Settled(d, l, d) && Loggable(|d|, l, tx)
    ensures var ws := CommitWrites(d, l, tx);
            && SameHome(After(d, ws, |ws|), Installed(d, tx), l)
            && Settled(After(d, ws, |ws|), l, After(d, ws, |ws|))
  {
    CommitPrefix(d, l, tx, |CommitWrites(d, l, tx)|);
  }

  /** Crash atomicity: crash after any prefix of commit's writes, let any number
      of recoveries crash at any point, then recover.  The log is empty and the
      home blocks are all old if the header had not been written, all new if it
      had. */
  lemma CrashAtomicity(d: Disk, l: Layout, tx: Tx, k: nat, ks: seq<nat>)
    requires Settled(d, l, d) && Loggable(|d|, l, tx) && k <= |CommitWrites(d, l, tx)|
    ensures var e := CrashedRecoveries(After(d, CommitWrites(d, l, tx), k), l, ks);
            && GoodCount(e, l)
            && Settled(Recovered(e, l), l, if k <= |tx| then d else Installed(d, tx))
  {
    hide Word;
    CommitPrefix(d, l, tx, k);
    var c := After(d, CommitWrites(d, l, tx), k);
    var e := CrashedRecoveries(c, l, ks);
    if k <= |tx| {
      CrashesKeepSettled(c, l, d, ks);
      RecoverSettled(e, l, d, 1);
    } else {
      CrashesKeepCommitted(c, l, d, tx, ks);
      if Committed(e, l, d, tx) {
        RecoverCommitted(e, l, d, tx, |tx| + 1);
      } else {
        RecoverSettled(e, l, Installed(d, tx), 1);
      }
    }
  }

  // ---- Whole runs: commits, crashes, recoveries, more commits, ... ----

  /** Commit runs to its end; or it crashes after k writes, followed by crashed
      recoveries ks and one that completes. */
  datatype Event = Commits(tx: Tx) | Crashes(tx: Tx, k: nat, ks: seq<nat>)

  ghost function Step(d: Disk, l: Layout, ev: Event): (e: Disk)
    requires Loggable(|d|, l, ev.tx)
    ensures |e| == |d|
  {
    var ws := CommitWrites(d, l, ev.tx);
    match ev
    case Commits(_) => After(d, ws, |ws|)
    case Crashes(_, k, ks) =>
      var e := CrashedRecoveries(After(d, ws, Min(k, |ws|)), l, ks);
      if GoodCount(e, l) then Recovered(e, l) else e
  }

  /** What the event does to a disk with no log: all of its transaction or
      nothing. */
  function Effect(ref: Disk, ev: Event): Disk
  {
    if ev.Crashes? && ev.k <= |ev.tx| then ref else Installed(ref, ev.tx)
  }

  lemma {:induction false} SameHomeAfter(e: Disk, d: Disk, l: Layout, tx: Tx, k: nat)
    requires SameHome(e, d, l) && k <= |tx|
    ensures SameHome(After(e, tx, k), After(d, tx, k), l)
  {
    if k > 0 { SameHomeAfter(e, d, l, tx, k - 1); }
  }

  lemma StepEffect(d: Disk, l: Layout, ref: Disk, ev: Event)
    requires Settled(d, l, ref) && Loggable(|d|, l, ev.tx)
    ensures Settled(Step(d, l, ev), l, Effect(ref, ev))
  {
    hide Word;
    var n := |CommitWrites(d, l, ev.tx)|;
    SameHomeAfter(d, ref, l, ev.tx, |ev.tx|);
    match ev
    case Commits(_) =>
      CommitPrefix(d, l, ev.tx, n);
    case Crashes(_, k, ks) =>
      CrashAtomicity(d, l, ev.tx, Min(k, n), ks);
  }

  ghost function Run(d: Disk, l: Layout, evs: seq<Event>): Disk
    requires forall i :: 0 <= i < |evs| ==> Loggable(|d|, l, evs[i].tx)
    decreases |evs|
  {
    if evs == [] then d else Run(Step(d, l, evs[0]), l, evs[1..])
  }

  function Effects(ref: Disk, evs: seq<Event>): Disk
    decreases |evs|
  {
    if evs == [] then ref else Effects(Effect(ref, evs[0]), evs[1..])
  }

  /** Over every run of commits and crashes, the log ends up empty and the home
      blocks are what the whole transactions leave when applied in order to a
      disk without a log, each one exactly when its commit point was passed. */
  lemma {:induction false} RunIsAtomic(d: Disk, l: Layout, ref: Disk, evs: seq<Event>)
    requires Settled(d, l, ref) && forall i :: 0 <= i < |evs| ==> Loggable(|d|, l, evs[i].tx)
    ensures Settled(Run(d, l, evs), l, Effects(ref, evs))
    decreases |evs|
  {
    hide Word;
    if evs != [] {
      StepEffect(d, l, ref, evs[0]);
      RunIsAtomic(Step(d, l, evs[0]), l, Effect(ref, evs[0]), evs[1..]);
    }
  }

  // ---- The code of log.c, over a disk and the latest block contents ----

  /** Each logged block number with its contents. */
  function Contents(lh: seq<nat>, latest: seq<Block>): (tx: Tx)
    requires forall i :: 0 <= i < |lh| ==> lh[i] < |latest|
    ensures |tx| == |lh|
    ensures forall i {:trigger tx[i]} :: 0 <= i < |lh| ==> tx[i] == Write(lh[i], latest[lh[i]])
  {
    seq(|lh|, i requires 0 <= i < |lh| => Write(lh[i], latest[lh[i]]))
  }

  /** lh lists home blocks and fits header and log area. */
  ghost predicate LoggedOk(lh: seq<nat>, n: nat, l: Layout)
  {
    && l.Within(n) && |lh| <= LOGSIZE && |lh| < l.size
    && (forall i :: 0 <= i < |lh| ==> lh[i] < n && lh[i] < UINT_RANGE && !l.Contains(lh[i]))
  }

  /** Each logged block number with the log block that belongs to it. */
  function LogBlocks(lh: seq<nat>, disk: Disk, l: Layout): (tx: Tx)
    requires l.Within(|disk|) && |lh| < l.size
    ensures |tx| == |lh|
    ensures forall i {:trigger tx[i]} :: 0 <= i < |lh| ==> tx[i] == Write(lh[i], disk[l.Slot(i)])
  {
    seq(|lh|, i requires 0 <= i < |lh| => Write(lh[i], disk[l.Slot(i)]))
  }

  ghost predicate LoggedFrom(lh: seq<nat>, k: nat, b: nat)
  {
    exists j :: k <= j < |lh| && lh[j] == b
  }

  lemma AppendOne(t: seq<Write>, ws: seq<Write>, k: nat)
    requires k < |ws|
    ensures t + ws[..k] + [ws[k]] == t + ws[..k + 1]
  {
  }

  /** Installing writes home blocks only. */
  lemma {:induction false} LogBlocksKept(lh: seq<nat>, d: Disk, l: Layout, k: nat, b: nat)
    requires LoggedOk(lh, |d|, l) && k <= |lh| && b < |d| && l.Contains(b)
    ensures After(d, LogBlocks(lh, d, l), k)[b] == d[b]
  {
    if k > 0 { LogBlocksKept(lh, d, l, k - 1, b); }
  }

  // ---- Recovery from any header ----

  /** The count of a header, as the int that the code reads. */
  function SignedCount(head: Block): (n: int)
    ensures -0x8000_0000 <= n < 0x8000_0000 && (n - Word(head, 0)) % UINT_RANGE == 0
  {
    if Word(head, 0) < 0x8000_0000 then Word(head, 0) else Word(head, 0) - UINT_RANGE
  }

  /** The block numbers it lists; none if the count is negative. */
  function HeaderList(head: Block): (lh: seq<nat>)
    requires SignedCount(head) <= LOGSIZE
    ensures |lh| == if SignedCount(head) < 0 then 0 else SignedCount(head)
    ensures forall i :: 0 <= i < |lh| ==> lh[i] == Word(head, i + 1)
  {
    seq(if SignedCount(head) < 0 then 0 else SignedCount(head), i requires 0 <= i < LOGSIZE => Word(head, i + 1))
  }

  /** Every listed block and its log block are on a disk of n blocks. */
  predicate AllOnDisk(lh: seq<nat>, n: nat, l: Layout) {
    forall i :: 0 <= i < |lh| ==> lh[i] < n && l.Slot(i) < n
  }

  /** The first k log blocks copied to the listed blocks, one after the other. */
  function CopiedHome(d: Disk, l: Layout, lh: seq<nat>, k: nat): (e: Disk)
    requires k <= |lh| && forall i :: 0 <= i < k ==> lh[i] < |d| && l.Slot(i) < |d|
    ensures |e| == |d|
  {
    if k == 0 then d
    else
      var e := CopiedHome(d, l, lh, k - 1);
      e[lh[k - 1] := e[l.Slot(k - 1)]]
  }

  lemma CopiedNone(d: Disk, l: Layout, lh: seq<nat>)
    ensures CopiedHome(d, l, lh, 0) == d
  {
  }

  lemma CopiedNext(d: Disk, l: Layout, lh: seq<nat>, k: nat)
    requires k < |lh| && forall i :: 0 <= i <= k ==> lh[i] < |d| && l.Slot(i) < |d|
    ensures var e := CopiedHome(d, l, lh, k); CopiedHome(d, l, lh, k + 1) == e[lh[k] := e[l.Slot(k)]]
  {
  }

  lemma AfterNext(d: Disk, ws: seq<Write>, k: nat)
    requires k < |ws|
    ensures After(d, ws, k + 1) == Put(After(d, ws, k), ws[k])
  {
  }

  /** With no listed block in the log itself, those are the home writes. */
  lemma {:induction false} CopiedIsInstalled(d: Disk, l: Layout, lh: seq<nat>, k: nat)
    requires LoggedOk(lh, |d|, l) && k <= |lh|
    ensures CopiedHome(d, l, lh, k) == After(d, LogBlocks(lh, d, l), k)
  {
    if k > 0 {
      CopiedIsInstalled(d, l, lh, k - 1);
      LogBlocksKept(lh, d, l, k - 1, l.Slot(k - 1));
    }
  }

  /** A header that a commit leaves. */
  lemma HeaderRecorded(d: Disk, l: Layout)
    requires l.Within(|d|)
    ensures GoodCount(d, l) && Loggable(|d|, l, Recorded(d, l)) ==>
              && SignedCount(d[l.start]) <= LOGSIZE
              && (var lh := HeaderList(d[l.start]);
                  LoggedOk(lh, |d|, l) && LogBlocks(lh, d, l) == Recorded(d, l) && AllOnDisk(lh, |d|, l))
    ensures GoodCount(d, l) && Loggable(|d|, l, Recorded(d, l)) ==>
              && After(d, LogBlocks(HeaderList(d[l.start]), d, l), |HeaderList(d[l.start])|)[l.start] == d[l.start]
              && Recovered(d, l) == Installed(d, Recorded(d, l))[l.start := EncodeHead(d[l.start], [])]
  {
    hide Word, After;
    if GoodCount(d, l) && Loggable(|d|, l, Recorded(d, l)) {
      var lh, tx := HeaderList(d[l.start]), Recorded(d, l);
      forall i | 0 <= i < |lh| ensures lh[i] == tx[i].bno && LogBlocks(lh, d, l)[i] == tx[i] {
      }
      LogBlocksKept(lh, d, l, |lh|, l.start);
      FinishSteps(d, l, tx);
    }
  }

  lemma ErasedHead(b: Block)
    ensures Word(EncodeHead(b, []), 0) == 0
  {
  }

  lemma ContentsSame(lh: seq<nat>, a: seq<Block>, b: seq<Block>, l: Layout)
    requires LoggedOk(lh, |a|, l) && SameHome(a, b, l)
    ensures Contents(lh, a) == Contents(lh, b)
  {
  }

  /** The disk after write_log, and after write_head on top of it. */
  lemma PublishSteps(d: Disk, l: Layout, tx: Tx)
    requires Settled(d, l, d) && Loggable(|d|, l, tx)
    ensures var p := After(d, LogCopies(l, tx), |tx|);
            && p[l.start] == d[l.start] && SameHome(p, d, l)
            && After(d, Publish(d, l, tx), |tx| + 1) == p[l.start := EncodeHead(d[l.start], tx)]
            && (forall i {:trigger l.Slot(i)} :: 0 <= i < |tx| ==> p[l.Slot(i)] == tx[i].data)
  {
    hide Word;
    BeforeCommitPoint(d, l, tx, |tx|);
    AfterFirst(d, LogCopies(l, tx), [Write(l.start, EncodeHead(d[l.start], tx))], |tx|);
  }

  /** The disk after install_trans and the second write_head. */
  lemma FinishSteps(c: Disk, l: Layout, tx: Tx)
    requires l.Within(|c|)
    ensures After(c, Finish(c, l, tx), |tx| + 1) == Installed(c, tx)[l.start := EncodeHead(c[l.start], [])]
  {
    hide Word;
    AfterFirst(c, tx, [Write(l.start, EncodeHead(c[l.start], []))], |tx|);
  }

  /** Commit is its two halves, one after the other. */
  lemma CommitSteps(d: Disk, l: Layout, tx: Tx)
    requires Loggable(|d|, l, tx) && tx != []
    ensures var c := After(d, Publish(d, l, tx), |tx| + 1);
            && |CommitWrites(d, l, tx)| == 2 * |tx| + 2
            && After(d, CommitWrites(d, l, tx), 2 * |tx| + 2) == After(c, Finish(c, l, tx), |tx| + 1)
  {
    hide Word, After, Publish, Finish, EncodeHead;
    var c := After(d, Publish(d, l, tx), |tx| + 1);
    AfterSecond(d, Publish(d, l, tx), Finish(c, l, tx), |tx| + 1);
  }

  /** A block equals its latest contents once every write of it up to there is
      installed, if it did before or is among them. */
  lemma {:induction false} InstalledAt(d: Disk, lh: seq<nat>, latest: seq<Block>, k: nat, b: nat)
    requires (forall i :: 0 <= i < |lh| ==> lh[i] < |latest|) && |d| == |latest| && b < |d| && k <= |lh|
    ensures d[b] == latest[b] || (exists j :: 0 <= j < k && lh[j] == b)
            ==> After(d, Contents(lh, latest), k)[b] == latest[b]
  {
    if k > 0 { InstalledAt(d, lh, latest, k - 1, b); }
  }

  /** Committing writes home exactly what the cache already showed. */
  lemma InstalledIsLatest(d: Disk, lh: seq<nat>, latest: seq<Block>)
    requires (forall i :: 0 <= i < |lh| ==> lh[i] < |latest|) && |d| == |latest|
    requires forall b :: 0 <= b < |d| && !LoggedFrom(lh, 0, b) ==> latest[b] == d[b]
    ensures Installed(d, Contents(lh, latest)) == latest
  {
    forall b | 0 <= b < |d| ensures Installed(d, Contents(lh, latest))[b] == latest[b] {
      InstalledAt(d, lh, latest, |lh|, b);
    }
  }

  lemma AfterNone(d: Disk, ws: seq<Write>)
    ensures After(d, ws, 0) == d
  {
  }

  class Log {
    const l: Layout
    var disk: Disk               // what a crash leaves
    var latest: seq<Block>       // what bread returns: the disk plus pinned dirty buffers
    var lh: seq<nat>             // log.lh: the logged block numbers
    ghost var trace: seq<Write>  // every block write so far

    ghost predicate Sized()
      reads this
    {
      |latest| == |disk| && LoggedOk(lh, |disk|, l)
    }

    /** Log blocks are never dirty: bwrite writes them through. */
    ghost predicate LogCached()
      reads this
    {
      |latest| == |disk| && forall b :: 0 <= b < |disk| && l.Contains(b) ==> latest[b] == disk[b]
    }

    /** Only the logged blocks from the k-th on may differ between cache and disk. */
    ghost predicate CachedBut(k: nat)
      reads this
    {
      && |latest| == |disk|
      && forall b :: 0 <= b < |disk| && !LoggedFrom(lh, k, b) ==> latest[b] == disk[b]
    }

    lemma AllCached()
      requires CachedBut(|lh|)
      ensures latest == disk
    {
    }

    lemma LoggedAt(i: nat)
      requires Sized() && i < |lh|
      ensures lh[i] < |disk| && !l.Contains(lh[i]) && l.Slot(i) < |disk| && l.Contains(l.Slot(i))
    {
    }

    /** Between transactions: only logged blocks differ between cache and disk,
        and nothing is in the on-disk log. */
    ghost predicate Valid()
      reads this
    {
      && Sized()
      && (forall i, j :: 0 <= i < j < |lh| ==> lh[i] != lh[j])
      && CachedBut(0)
      && Settled(disk, l, disk)
    }

    method Bwrite(b: nat, data: Block)
      requires b < |disk| == |latest|
      modifies this
      ensures disk == old(disk)[b := data] && latest == old(latest)[b := data]
      ensures lh == old(lh) && trace == old(trace) + [Write(b, data)]
    {
      disk := disk[b := data];
      latest := latest[b := data];
      trace := trace + [Write(b, data)];
    }

    /** Modify a block and log_write it: absorbed if already logged, else
        appended; refused (a panic) when header or log area is full, or when no
        operation is outstanding. */
    method LogWrite(b: nat, data: Block, outstanding: nat) returns (ok: bool)
      requires Valid() && b < |disk| && b < UINT_RANGE && !l.Contains(b)
      modifies this
      ensures ok == (|old(lh)| < LOGSIZE && |old(lh)| < l.size - 1 && outstanding >= 1)
      ensures disk == old(disk) && trace == old(trace)
      ensures !ok ==> lh == old(lh) && latest == old(latest)
      ensures ok ==> Valid() && latest == old(latest)[b := data]
      ensures ok ==> lh == if b in old(lh) then old(lh) else old(lh) + [b]
    {
      hide Word;
      if |lh| >= LOGSIZE || |lh| >= l.size - 1 { return false; }
      if outstanding < 1 { return false; }
      ok := true;
      latest := latest[b := data];
      var i := 0;
      while i < |lh| && lh[i] != b
        invariant 0 <= i <= |lh| && b !in lh[..i]
      {
        i := i + 1;
      }
      if i == |lh| { lh := lh + [b]; }
      assert lh[i] == b;
      assert forall c :: LoggedFrom(old(lh), 0, c) ==> LoggedFrom(lh, 0, c) by {
        assert forall j :: 0 <= j < |old(lh)| ==> old(lh)[j] == lh[j];
      }
    }

    /** write_log: copy each logged block from the cache to its log block. */
    method WriteLog()
      requires Sized() && LogCached()
      modifies this
      ensures Sized() && LogCached() && lh == old(lh) && |disk| == |old(disk)|
      ensures SameHome(latest, old(latest), l)
      ensures disk == After(old(disk), LogCopies(l, Contents(lh, old(latest))), |lh|)
      ensures trace == old(trace) + LogCopies(l, Contents(lh, old(latest)))
    {
      ghost var ws := LogCopies(l, Contents(lh, latest));
      hide LoggedOk, Contents;
      var tail := 0;
      while tail < |lh|
        invariant 0 <= tail <= |lh| && lh == old(lh) && |disk| == |old(disk)|
        invariant Sized() && LogCached() && SameHome(latest, old(latest), l)
        invariant disk == After(old(disk), ws, tail)
        invariant trace == old(trace) + ws[..tail]
      {
        LoggedAt(tail);
        Bwrite(l.Slot(tail), latest[lh[tail]]);
        AppendOne(old(trace), ws, tail);
        tail := tail + 1;
      }
      assert ws[..|lh|] == ws;
    }

    lemma HeadRoom()
      requires Sized()
      ensures l.start < |disk| && l.Contains(l.start) && |lh| < NWORDS
      ensures forall i :: 0 <= i < |lh| ==> lh[i] < |disk| && lh[i] < UINT_RANGE && lh[i] != l.start
    {
    }

    /** write_head: the header on disk lists lh; its other words stay. */
    method WriteHead()
      requires Sized() && LogCached()
      modifies this
      ensures Sized() && LogCached() && lh == old(lh)
      ensures var hb := EncodeHead(old(disk)[l.start], Contents(lh, old(latest)));
              && disk == old(disk)[l.start := hb] && latest == old(latest)[l.start := hb]
              && trace == old(trace) + [Write(l.start, hb)]
    {
      ghost var tx := Contents(lh, latest);
      hide Word, SetWord, PutEntries, LoggedOk;
      HeadRoom();
      var head := SetWord(latest[l.start], 0, |lh|);
      EntriesNone(head, tx);
      var hb := head;
      var i := 0;
      while i < |lh|
        invariant 0 <= i <= |lh| && lh == old(lh) && latest == old(latest) && disk == old(disk) && trace == old(trace)
        invariant hb == PutEntries(head, tx, i)
      {
        EntriesNext(head, tx, i);
        hb := SetWord(hb, i + 1, lh[i]);
        i := i + 1;
      }
      Bwrite(l.start, hb);
    }

    /** Cache and disk as they are when a transaction is published. */
    ghost predicate Published()
      reads this
    {
      Sized() && LogCached() && CachedBut(0)
    }

    method InstallAt(i: nat)
      requires i < |lh| && l.Slot(i) < |disk| == |latest| && lh[i] < |disk|
      modifies this
      ensures lh == old(lh) && trace == old(trace) + [Write(lh[i], old(latest)[l.Slot(i)])]
      ensures disk == old(disk)[lh[i] := old(latest)[l.Slot(i)]]
      ensures latest == old(latest)[lh[i] := old(latest)[l.Slot(i)]]
      ensures old(Sized() && LogCached() && CachedBut(i)) ==>
                Sized() && LogCached() && CachedBut(i + 1) && old(latest)[l.Slot(i)] == old(disk)[l.Slot(i)]
    {
      ghost var good := Sized() && LogCached() && CachedBut(i);
      if good { LoggedAt(i); }
      hide LoggedOk;
      assert forall b :: LoggedFrom(lh, i, b) ==> LoggedFrom(lh, i + 1, b) || b == lh[i];
      Bwrite(lh[i], latest[l.Slot(i)]);
    }

    ghost function HomeWrites(): Tx
      reads this
    {
      if Published() then LogBlocks(lh, disk, l) else []
    }

    lemma HomeWritesAre()
      requires Published()
      ensures l.Within(|disk|) && |lh| < l.size && HomeWrites() == LogBlocks(lh, disk, l) && LoggedOk(lh, |disk|, l)
    {
    }

    /** install_trans: copy each log block to the block the header lists; a panic if one
        of the two is not on the disk.  With a published transaction that does exactly
        its home writes; at boot, with cache and disk equal, it copies in turn
        whatever the header says. */
    method InstallTrans() returns (ok: bool)
      requires |latest| == |disk| && (Published() || latest == disk)
      modifies this
      ensures lh == old(lh) && |disk| == |old(disk)|
      ensures ok <==> AllOnDisk(lh, |disk|, l)
      ensures ok && old(latest == disk) ==> latest == disk == CopiedHome(old(disk), l, lh, |lh|)
      ensures old(Published()) ==>
                && ok && Sized() && LogCached() && latest == disk
                && disk == Installed(old(disk), LogBlocks(lh, old(disk), l))
                && trace == old(trace) + LogBlocks(lh, old(disk), l)
    {
      hide LoggedOk, CachedBut, LogCached, After, LogBlocks, CopiedHome, LoggedFrom, Word, Contents, HomeWrites;
      ghost var published, d, t, tx := Published(), disk, trace, HomeWrites();
      if published { HomeWritesAre(); }
      CopiedNone(d, l, lh);
      AfterNone(d, tx);
      var tail := 0;
      while tail < |lh|
        invariant 0 <= tail <= |lh| && lh == old(lh) && |latest| == |disk| == |d|
        invariant forall i :: 0 <= i < tail ==> lh[i] < |disk| && l.Slot(i) < |disk|
        invariant old(latest == disk) ==> latest == disk == CopiedHome(d, l, lh, tail)
        invariant published ==> Sized() && LogCached() && CachedBut(tail)
        invariant published ==> |tx| == |lh| && disk == After(d, tx, tail) && trace == t + tx[..tail]
      {
        if published {
          LoggedAt(tail);
          LogBlocksKept(lh, d, l, tail, l.Slot(tail));
          AppendOne(t, tx, tail);
        }
        if l.Slot(tail) >= |disk| || lh[tail] >= |disk| { return false; }
        if published { AfterNext(d, tx, tail); }
        CopiedNext(d, l, lh, tail);
        InstallAt(tail);
        tail := tail + 1;
      }
      if published {
        assert tx[..|lh|] == tx;
        AllCached();
      }
      ok := true;
    }

    /** install_trans, log.lh.n = 0, write_head: the tail of commit. */
    method InstallAndErase()
      requires Published()
      modifies this
      ensures lh == [] && latest == disk && |disk| == |old(disk)|
      ensures var tx := LogBlocks(old(lh), old(disk), l);
              && trace == old(trace) + Finish(old(disk), l, tx)
              && disk == After(old(disk), Finish(old(disk), l, tx), |tx| + 1)
    {
      hide Word, After, CachedBut, EncodeHead, LogBlocks, CopiedHome;
      ghost var d, tx := disk, LogBlocks(lh, disk, l);
      LogBlocksKept(lh, d, l, |lh|, l.start);
      FinishSteps(d, l, tx);
      var ok := InstallTrans();
      lh := [];
      assert Contents(lh, latest) == [];
      WriteHead();
    }

    /** read_head: the in-memory header becomes the on-disk one.  The count is a signed
        int; where it is more than LOGSIZE the loop leaves the array, and nothing more
        is said. */
    method ReadHead() returns (inside: bool)
      requires |latest| == |disk| && l.start < |disk| && latest[l.start] == disk[l.start]
      modifies this`lh
      ensures inside <==> SignedCount(disk[l.start]) <= LOGSIZE
      ensures inside ==> lh == HeaderList(disk[l.start])
    {
      var head := latest[l.start];
      lh := [];
      hide Word;
      while |lh| < SignedCount(head)
        invariant 0 <= |lh| <= LOGSIZE && (|lh| <= SignedCount(head) || lh == [])
        invariant forall i :: 0 <= i < |lh| ==> lh[i] == Word(head, i + 1)
      {
        if |lh| >= LOGSIZE { return false; }
        lh := lh + [Word(head, |lh| + 1)];
      }
      inside := true;
    }

    /** recover_from_log, at boot, whatever the header holds: the log blocks copied in
        turn and the count erased, or a panic.  On a disk that a commit left it does
        exactly RecoverWrites. */
    method RecoverFromLog() returns (ok: bool)
      requires latest == disk && l.Within(|disk|)
      modifies this
      ensures ok <==> SignedCount(old(disk)[l.start]) <= LOGSIZE
                      && AllOnDisk(HeaderList(old(disk)[l.start]), |old(disk)|, l)
      ensures ok ==> Valid() && lh == [] && latest == disk
      ensures ok ==> var list := HeaderList(old(disk)[l.start]);
                     var e := CopiedHome(old(disk), l, list, |list|);
                     disk == e[l.start := EncodeHead(e[l.start], [])]
      ensures GoodCount(old(disk), l) && Loggable(|old(disk)|, l, Recorded(old(disk), l)) ==>
                ok && disk == Recovered(old(disk), l) && trace == old(trace) + RecoverWrites(old(disk), l)
    {
      hide Word, After, CopiedHome, HeaderList;
      ghost var d := disk;
      var inside := ReadHead();
      HeaderRecorded(d, l);
      if !inside { return false; }
      ok := InstallTrans();
      if !ok { return; }
      lh := [];
      assert Contents(lh, latest) == [];
      WriteHead();
      ErasedHead(disk[l.start]);
    }

    /** write_log then write_head: the transaction is on disk. */
    method PublishTx()
      requires Valid()
      modifies this
      ensures Sized() && LogCached() && CachedBut(0) && lh == old(lh) && |disk| == |old(disk)|
      ensures var tx := Contents(lh, old(latest));
              && LogBlocks(lh, disk, l) == tx
              && disk == After(old(disk), Publish(old(disk), l, tx), |tx| + 1)
              && trace == old(trace) + Publish(old(disk), l, tx)
    {
      hide Word, After, EncodeHead, Settled, LogCopies;
      PublishSteps(disk, l, Contents(lh, latest));
      WriteLog();
      ContentsSame(lh, latest, old(latest), l);
      WriteHead();
    }

    /** commit: does exactly CommitWrites, empties the transaction, and leaves
        what bread returns for home blocks unchanged. */
    method Commit()
      requires Valid()
      modifies this
      ensures Valid() && lh == [] && latest == disk
      ensures SameHome(latest, old(latest), l)
      ensures var ws := CommitWrites(old(disk), l, Contents(old(lh), old(latest)));
              disk == After(old(disk), ws, |ws|) && trace == old(trace) + ws
    {
      hide Word, After, Settled, Publish, Finish, Contents, LogBlocks, SameHome;
      ghost var d, tx := disk, Contents(lh, latest);
      InstalledIsLatest(d, lh, latest);
      CommitKeepsHome(d, l, tx);
      if |lh| == 0 {
        AfterNone(d, []);
        AllCached();
      } else {
        CommitSteps(d, l, tx);
        PublishTx();
        InstallAndErase();
      }
    }
  }
}
