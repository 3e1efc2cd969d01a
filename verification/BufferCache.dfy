/** The buffer cache of bio.c: its list of buffers in order of use, and bget, bread,
    bwrite, log_write and brelse by any number of processes, against a plain map of
    the latest contents of each block. */
module BufferCache {
  import opened Blocks
  import LogAdmission
  import opened Machine

  // ---- The list ----

  /** The buffer at position k of the list; the head before the first and after the
      last. */
  function At(order: seq<nat>, k: int, head: nat): nat {
    if 0 <= k < |order| then order[k] else head
  }

  /** Every buffer is in the list once: order and pos are inverse. */
  ghost predicate Permutation(order: seq<nat>, pos: seq<nat>) {
    && |pos| == |order|
    && (forall k {:trigger order[k]} :: 0 <= k < |order| ==> order[k] < |order| && pos[order[k]] == k)
    && (forall b {:trigger pos[b]} :: 0 <= b < |order| ==> pos[b] < |order| && order[pos[b]] == b)
  }

  /** Where to look after b, and before b; the head is before and after all. */
  ghost function Ahead(pos: seq<nat>, b: nat): int {
    if b < |pos| then pos[b] + 1 else 0
  }

  ghost function Behind(pos: seq<nat>, b: nat): int {
    if b < |pos| then pos[b] - 1 else |pos| - 1
  }

  /** next and prev are one circle through the listed buffers and the head, forwards
      and backwards, in the given order. */
  ghost predicate Linked(next: seq<nat>, prev: seq<nat>, order: seq<nat>, pos: seq<nat>, head: nat) {
    && Permutation(order, pos) && |next| == |prev| == head + 1 && |order| <= head
    && (forall b {:trigger next[b]} :: 0 <= b < |order| || b == head ==> next[b] == At(order, Ahead(pos, b), head))
    && (forall b {:trigger prev[b]} :: 0 <= b < |order| || b == head ==> prev[b] == At(order, Behind(pos, b), head))
  }

  /** The list with the buffer at position k moved to the front. */
  ghost function Moved(order: seq<nat>, k: nat): (r: seq<nat>)
    requires k < |order|
    ensures |r| == |order|
    ensures forall j {:trigger r[j]} :: 0 <= j < |order| ==>
              r[j] == if j == 0 then order[k] else if j <= k then order[j - 1] else order[j]
  {
    [order[k]] + order[..k] + order[k + 1..]
  }

  ghost function MovedPos(pos: seq<nat>, k: nat): (r: seq<nat>)
    ensures |r| == |pos|
    ensures forall b {:trigger r[b]} :: 0 <= b < |pos| ==>
              r[b] == if pos[b] == k then 0 else if pos[b] < k then pos[b] + 1 else pos[b]
  {
    seq(|pos|, b requires 0 <= b < |pos| => if pos[b] == k then 0 else if pos[b] < k then pos[b] + 1 else pos[b])
  }

  lemma MovedPermutation(order: seq<nat>, pos: seq<nat>, k: nat)
    requires Permutation(order, pos) && k < |order|
    ensures Permutation(Moved(order, k), MovedPos(pos, k))
  {
    hide Moved, MovedPos;
  }

  lemma LinksInRange(next: seq<nat>, prev: seq<nat>, order: seq<nat>, pos: seq<nat>, head: nat, b: nat)
    requires Linked(next, prev, order, pos, head) && (b < |order| || b == head)
    ensures next[b] <= head && prev[b] <= head
  {
  }

  /** The six assignments of brelse: first the forward links. */
  lemma ToFrontNext(next: seq<nat>, prev: seq<nat>, order: seq<nat>, pos: seq<nat>, head: nat, b: nat)
    requires Linked(next, prev, order, pos, head) && b < |order|
    ensures next[b] <= head && prev[b] <= head
    ensures next[prev[b] := next[b]][head] == if pos[b] == 0 then next[b] else order[0]
    ensures var next1 := next[prev[b] := next[b]];
            var next' := next1[b := next1[head]][head := b];
            forall c {:trigger next'[c]} :: 0 <= c < |order| || c == head ==>
              next'[c] == At(Moved(order, pos[b]), Ahead(MovedPos(pos, pos[b]), c), head)
  {
    hide Moved, MovedPos;
    LinksInRange(next, prev, order, pos, head, b);
    LinksInRange(next, prev, order, pos, head, head);
  }

  /** Then the backward links. */
  lemma ToFrontPrev(next: seq<nat>, prev: seq<nat>, order: seq<nat>, pos: seq<nat>, head: nat, b: nat, first: nat)
    requires Linked(next, prev, order, pos, head) && b < |order|
    requires next[b] <= head && prev[b] <= head && first == if pos[b] == 0 then next[b] else order[0]
    ensures first <= head
    ensures var prev' := prev[next[b] := prev[b]][b := head][first := b];
            forall c {:trigger prev'[c]} :: 0 <= c < |order| || c == head ==>
              prev'[c] == At(Moved(order, pos[b]), Behind(MovedPos(pos, pos[b]), c), head)
  {
    hide Moved, MovedPos;
  }

  /** So b moves to the front. */
  lemma ToFront(next: seq<nat>, prev: seq<nat>, order: seq<nat>, pos: seq<nat>, head: nat, b: nat)
    requires Linked(next, prev, order, pos, head) && b < |order|
    ensures next[b] <= head && prev[b] <= head && next[prev[b] := next[b]][head] <= head
    ensures var next1 := next[prev[b] := next[b]];
            Linked(next1[b := next1[head]][head := b], prev[next[b] := prev[b]][b := head][next1[head] := b],
                   Moved(order, pos[b]), MovedPos(pos, pos[b]), head)
  {
    hide Moved, MovedPos, At;
    MovedPermutation(order, pos, pos[b]);
    ToFrontNext(next, prev, order, pos, head, b);
    ToFrontPrev(next, prev, order, pos, head, b, next[prev[b] := next[b]][head]);
  }

  /** Positions once a new buffer is in front. */
  ghost function Pushed(pos: seq<nat>): (r: seq<nat>)
    ensures |r| == |pos| + 1 && r[|pos|] == 0 && forall b {:trigger r[b]} :: 0 <= b < |pos| ==> r[b] == pos[b] + 1
  {
    seq(|pos|, b requires 0 <= b < |pos| => pos[b] + 1) + [0]
  }

  /** The four assignments of binit put the next buffer in front. */
  lemma Push(next: seq<nat>, prev: seq<nat>, order: seq<nat>, pos: seq<nat>, head: nat)
    requires Linked(next, prev, order, pos, head) && |order| < head
    ensures next[head] <= head
    ensures var b := |order|;
            Linked(next[b := next[head]][head := b], prev[b := head][next[head] := b], [b] + order, Pushed(pos), head)
  {
    hide Pushed;
    LinksInRange(next, prev, order, pos, head, head);
    var b, order', pos' := |order|, [|order|] + order, Pushed(pos);
    var next', prev' := next[b := next[head]][head := b], prev[b := head][next[head] := b];
    assert forall k {:trigger order'[k]} :: 0 < k < |order'| ==> order'[k] == order[k - 1];
    assert Permutation(order', pos');
    forall c | 0 <= c < |order'| || c == head ensures next'[c] == At(order', Ahead(pos', c), head) {
    }
    forall c | 0 <= c < |order'| || c == head ensures prev'[c] == At(order', Behind(pos', c), head) {
    }
  }

  // ---- Buffers and processes ----

  datatype Buf = Buf(valid: bool, dirty: bool, dev: nat, blockno: nat, refcnt: nat, data: Block)

  /** A process that has asked for a block is waiting for the buffer's sleep lock,
      holds it, or has released it and not yet dropped its reference.  touched says
      that it has changed the data since it last called log_write or bwrite. */
  datatype Proc =
    | Away
    | Waiting(b: nat, dev: nat, blockno: nat)
    | Holding(b: nat, dev: nat, blockno: nat, touched: bool)
    | Leaving(b: nat)

  datatype State = State(
    bufs: seq<Buf>,
    owner: seq<int>,         // who holds each buffer's sleep lock, or -1
    ps: seq<Proc>,
    disk: seq<Block>,
    latest: seq<Block>)      // each block as last modified, wherever that is

  predicate Labelled(b: Buf, dev: nat, blockno: nat) {
    b.dev == dev && b.blockno == blockno
  }

  predicate Uses(p: Proc, b: nat) {
    !p.Away? && p.b == b
  }

  /** References to b. */
  function Count(ps: seq<Proc>, b: nat): nat {
    if ps == [] then 0 else Count(ps[..|ps| - 1], b) + if Uses(ps[|ps| - 1], b) then 1 else 0
  }

  lemma {:induction false} CountUpdate(ps: seq<Proc>, p: nat, x: Proc, b: nat)
    requires p < |ps|
    ensures Count(ps[p := x], b) == Count(ps, b) + (if Uses(x, b) then 1 else 0) - (if Uses(ps[p], b) then 1 else 0)
  {
    hide Uses;
    var n := |ps| - 1;
    if p == n {
      assert ps[p := x][..n] == ps[..n];
    } else {
      CountUpdate(ps[..n], p, x, b);
      assert ps[p := x][..n] == ps[..n][p := x];
    }
  }

  lemma {:induction false} CountPositive(ps: seq<Proc>, p: nat, b: nat)
    requires p < |ps| && Uses(ps[p], b)
    ensures Count(ps, b) > 0
  {
    if p < |ps| - 1 { CountPositive(ps[..|ps| - 1], p, b); }
  }

  datatype Step =
    | Hit(p: nat, dev: nat, blockno: nat, b: nat)       // bget finds the block
    | Recycle(p: nat, dev: nat, blockno: nat, b: nat)   // bget gives it a buffer
    | Lock(p: nat)                                      // acquiresleep returns
    | Read(p: nat)                                      // bread's iderw
    | Modify(p: nat, data: Block)
    | LogWrite(p: nat)
    | Write(p: nat)                                     // bwrite
    | Unlock(p: nat)                                    // brelse: releasesleep
    | Drop(p: nat)                                      // brelse: refcnt--

  predicate Uncached(bufs: seq<Buf>, dev: nat, blockno: nat) {
    forall b :: 0 <= b < |bufs| ==> !Labelled(bufs[b], dev, blockno)
  }

  predicate Recyclable(b: Buf) {
    b.refcnt == 0 && !b.dirty
  }

  predicate HasLock(s: State, p: nat) {
    p < |s.ps| && s.ps[p].Holding? && s.ps[p].b < |s.bufs|
  }

  /** Callers ask for blocks of the disk, and follow bread, modify, log_write or
      bwrite, brelse. */
  predicate Enabled(s: State, a: Step) {
    match a
    case Hit(p, dev, n, b) =>
      p < |s.ps| && s.ps[p].Away? && dev == ROOTDEV && n < |s.disk| && b < |s.bufs| && Labelled(s.bufs[b], dev, n)
    case Recycle(p, dev, n, b) =>
      p < |s.ps| && s.ps[p].Away? && dev == ROOTDEV && n < |s.disk| && b < |s.bufs|
      && Uncached(s.bufs, dev, n) && Recyclable(s.bufs[b])
    case Lock(p) =>
      p < |s.ps| && s.ps[p].Waiting? && s.ps[p].b < |s.bufs| && s.ps[p].b < |s.owner| && s.owner[s.ps[p].b] == -1
    case Read(p) => HasLock(s, p) && !s.bufs[s.ps[p].b].valid && s.bufs[s.ps[p].b].blockno < |s.disk|
    case Modify(p, _) => HasLock(s, p) && s.bufs[s.ps[p].b].valid && s.bufs[s.ps[p].b].blockno < |s.latest|
    case LogWrite(p) => HasLock(s, p) && s.bufs[s.ps[p].b].valid
    case Write(p) => HasLock(s, p) && s.bufs[s.ps[p].b].valid && s.bufs[s.ps[p].b].blockno < |s.disk|
    case Unlock(p) => HasLock(s, p) && s.bufs[s.ps[p].b].valid && !s.ps[p].touched && s.ps[p].b < |s.owner|
    case Drop(p) => p < |s.ps| && s.ps[p].Leaving? && s.ps[p].b < |s.bufs| && s.bufs[s.ps[p].b].refcnt > 0
  }

  function Apply(s: State, a: Step): State
    requires Enabled(s, a)
  {
    match a
    case Hit(p, dev, n, b) =>
      s.(bufs := s.bufs[b := s.bufs[b].(refcnt := s.bufs[b].refcnt + 1)], ps := s.ps[p := Waiting(b, dev, n)])
    case Recycle(p, dev, n, b) =>
      s.(bufs := s.bufs[b := Buf(false, false, dev, n, 1, s.bufs[b].data)], ps := s.ps[p := Waiting(b, dev, n)])
    case Lock(p) =>
      var q := s.ps[p];
      s.(owner := s.owner[q.b := p], ps := s.ps[p := Holding(q.b, q.dev, q.blockno, false)])
    case Read(p) =>
      var b := s.ps[p].b;
      s.(bufs := s.bufs[b := s.bufs[b].(data := s.disk[s.bufs[b].blockno], valid := true)])
    case Modify(p, data) =>
      var b := s.ps[p].b;
      s.(bufs := s.bufs[b := s.bufs[b].(data := data)], latest := s.latest[s.bufs[b].blockno := data],
         ps := s.ps[p := s.ps[p].(touched := true)])
    case LogWrite(p) =>
      var b := s.ps[p].b;
      s.(bufs := s.bufs[b := s.bufs[b].(dirty := true)], ps := s.ps[p := s.ps[p].(touched := false)])
    case Write(p) =>
      var b := s.ps[p].b;
      s.(bufs := s.bufs[b := s.bufs[b].(dirty := false)], disk := s.disk[s.bufs[b].blockno := s.bufs[b].data],
         ps := s.ps[p := s.ps[p].(touched := false)])
    case Unlock(p) => s.(owner := s.owner[s.ps[p].b := -1], ps := s.ps[p := Leaving(s.ps[p].b)])
    case Drop(p) =>
      var b := s.ps[p].b;
      s.(bufs := s.bufs[b := s.bufs[b].(refcnt := s.bufs[b].refcnt - 1)], ps := s.ps[p := Away])
  }

  // ---- Invariant ----

  /** No two buffers carry the same block. */
  ghost predicate Unique(bufs: seq<Buf>) {
    forall b, c {:trigger bufs[b], bufs[c]} :: 0 <= b < |bufs| && 0 <= c < |bufs| && b != c ==>
      bufs[b].dev != 0 ==> !Labelled(bufs[c], bufs[b].dev, bufs[b].blockno)
  }

  /** Reference counts are right, and what is referred to keeps its label. */
  ghost predicate Counted(bufs: seq<Buf>, ps: seq<Proc>) {
    && (forall b {:trigger bufs[b]} :: 0 <= b < |bufs| ==> bufs[b].refcnt == Count(ps, b))
    && (forall p {:trigger ps[p]} :: 0 <= p < |ps| && !ps[p].Away? ==> ps[p].b < |bufs|)
    && (forall p {:trigger ps[p]} :: 0 <= p < |ps| && (ps[p].Waiting? || ps[p].Holding?) ==>
          Labelled(bufs[ps[p].b], ps[p].dev, ps[p].blockno) && ps[p].dev == ROOTDEV)
  }

  /** One holder per buffer. */
  ghost predicate Owned(s: State) {
    && |s.owner| == |s.bufs|
    && (forall p {:trigger s.ps[p]} :: 0 <= p < |s.ps| && s.ps[p].Holding? ==>
         s.ps[p].b < |s.owner| && s.owner[s.ps[p].b] == p)
    && (forall b {:trigger s.owner[b]} :: 0 <= b < |s.owner| && s.owner[b] != -1 ==>
          0 <= s.owner[b] < |s.ps| && s.ps[s.owner[b]].Holding? && s.ps[s.owner[b]].b == b)
  }

  /** The disk may lack what is in buffer b: log_write has pinned it, or its holder
      is changing it. */
  predicate Pinned(s: State, b: int)
    requires 0 <= b < |s.bufs| == |s.owner|
  {
    s.bufs[b].dirty
    || (0 <= s.owner[b] < |s.ps| && s.ps[s.owner[b]].Holding? && s.ps[s.owner[b]].touched)
  }

  /** Valid buffers hold the latest contents, and the disk does for every block that
      is not in a pinned buffer. */
  ghost predicate Current(s: State) {
    && |s.latest| == |s.disk| && |s.owner| == |s.bufs|
    && (forall b {:trigger s.bufs[b]} :: 0 <= b < |s.bufs| && s.bufs[b].valid ==>
          s.bufs[b].dev == ROOTDEV && s.bufs[b].blockno < |s.disk| && s.bufs[b].data == s.latest[s.bufs[b].blockno])
    && (forall b {:trigger s.bufs[b]} :: 0 <= b < |s.bufs| && Pinned(s, b) ==> s.bufs[b].valid)
    && (forall b {:trigger s.bufs[b]} :: 0 <= b < |s.bufs| && s.bufs[b].dev == ROOTDEV && !Pinned(s, b) ==>
          s.bufs[b].blockno < |s.disk| ==> s.disk[s.bufs[b].blockno] == s.latest[s.bufs[b].blockno])
    && (forall n {:trigger s.disk[n]} :: 0 <= n < |s.disk| && Uncached(s.bufs, ROOTDEV, n) ==> s.disk[n] == s.latest[n])
  }

  ghost predicate Inv(s: State) {
    Unique(s.bufs) && Counted(s.bufs, s.ps) && Owned(s) && Current(s)
  }

  // ---- Steps ----

  /** One process moved on, and the count of at most one buffer with it. */
  lemma CountedStep(bufs: seq<Buf>, bufs': seq<Buf>, ps: seq<Proc>, p: nat, x: Proc)
    requires Counted(bufs, ps) && p < |ps| && |bufs'| == |bufs|
    requires forall b {:trigger bufs'[b]} :: 0 <= b < |bufs| ==>
               bufs'[b].refcnt == bufs[b].refcnt + (if Uses(x, b) then 1 else 0) - (if Uses(ps[p], b) then 1 else 0)
    requires forall b {:trigger bufs'[b]} :: 0 <= b < |bufs| ==>
               bufs[b].refcnt == 0 || (bufs'[b].dev == bufs[b].dev && bufs'[b].blockno == bufs[b].blockno)
    requires !x.Away? ==> x.b < |bufs|
    requires x.Waiting? || x.Holding? ==> Labelled(bufs'[x.b], x.dev, x.blockno) && x.dev == ROOTDEV
    ensures Counted(bufs', ps[p := x])
  {
    hide Count;
    forall b | 0 <= b < |bufs'| ensures bufs'[b].refcnt == Count(ps[p := x], b) {
      CountUpdate(ps, p, x, b);
      assert bufs[b].refcnt == Count(ps, b);
    }
    forall q | 0 <= q < |ps| && q != p && (ps[q].Waiting? || ps[q].Holding?)
      ensures Labelled(bufs'[ps[q].b], ps[q].dev, ps[q].blockno)
    {
      CountPositive(ps, q, ps[q].b);
      assert bufs[ps[q].b].refcnt > 0;
    }
  }

  lemma SameLabels(bufs: seq<Buf>, bufs': seq<Buf>)
    requires Unique(bufs) && |bufs'| == |bufs|
    requires forall b {:trigger bufs'[b]} :: 0 <= b < |bufs| ==>
               bufs'[b].dev == bufs[b].dev && bufs'[b].blockno == bufs[b].blockno
    ensures Unique(bufs') && forall dev, n :: Uncached(bufs', dev, n) == Uncached(bufs, dev, n)
  {
    forall dev: nat, n: nat ensures Uncached(bufs', dev, n) == Uncached(bufs, dev, n) {
      if Uncached(bufs, dev, n) {
        forall b | 0 <= b < |bufs'| ensures !Labelled(bufs'[b], dev, n) {
          assert !Labelled(bufs[b], dev, n);
        }
      } else {
        var b :| 0 <= b < |bufs| && Labelled(bufs[b], dev, n);
        assert Labelled(bufs'[b], dev, n);
      }
    }
  }

  lemma HitInv(s: State, p: nat, n: nat, b: nat)
    requires Inv(s) && Enabled(s, Hit(p, ROOTDEV, n, b))
    ensures Inv(Apply(s, Hit(p, ROOTDEV, n, b)))
  {
    hide Count, Uncached;
    var t := Apply(s, Hit(p, ROOTDEV, n, b));
    CountedStep(s.bufs, t.bufs, s.ps, p, t.ps[p]);
    SameLabels(s.bufs, t.bufs);
  }

  /** A buffer without references has no holder. */
  lemma Unowned(s: State, b: nat)
    requires Counted(s.bufs, s.ps) && Owned(s) && b < |s.bufs| && s.bufs[b].refcnt == 0
    ensures s.owner[b] == -1 && forall p {:trigger s.ps[p]} :: 0 <= p < |s.ps| ==> !Uses(s.ps[p], b)
  {
    hide Count;
    forall p | 0 <= p < |s.ps| ensures !Uses(s.ps[p], b) {
      if Uses(s.ps[p], b) { CountPositive(s.ps, p, b); }
    }
  }

  lemma RecycleUnique(bufs: seq<Buf>, b: nat, x: Buf)
    requires Unique(bufs) && b < |bufs| && Uncached(bufs, x.dev, x.blockno)
    ensures Unique(bufs[b := x])
  {
  }

  /** Blocks without a buffer afterwards had none before, or were in b. */
  lemma RecycleUncached(bufs: seq<Buf>, b: nat, x: Buf, dev: nat, n: nat)
    requires b < |bufs| && Uncached(bufs[b := x], dev, n)
    ensures Uncached(bufs, dev, n) || Labelled(bufs[b], dev, n)
  {
    forall c | 0 <= c < |bufs| && c != b ensures !Labelled(bufs[c], dev, n) {
      assert bufs[b := x][c] == bufs[c];
    }
  }

  lemma RecycleCurrent(s: State, p: nat, n: nat, b: nat)
    requires Inv(s) && Enabled(s, Recycle(p, ROOTDEV, n, b))
    ensures Current(Apply(s, Recycle(p, ROOTDEV, n, b)))
  {
    hide Count, Uncached;
    var t := Apply(s, Recycle(p, ROOTDEV, n, b));
    Unowned(s, b);
    forall m | 0 <= m < |t.disk| && Uncached(t.bufs, ROOTDEV, m) ensures t.disk[m] == t.latest[m] {
      RecycleUncached(s.bufs, b, t.bufs[b], ROOTDEV, m);
    }
    assert s.disk[n] == s.latest[n];
  }

  lemma RecycleInv(s: State, p: nat, n: nat, b: nat)
    requires Inv(s) && Enabled(s, Recycle(p, ROOTDEV, n, b))
    ensures Inv(Apply(s, Recycle(p, ROOTDEV, n, b)))
  {
    hide Count, Uncached, Current;
    var t := Apply(s, Recycle(p, ROOTDEV, n, b));
    CountedStep(s.bufs, t.bufs, s.ps, p, t.ps[p]);
    RecycleUnique(s.bufs, b, t.bufs[b]);
    RecycleCurrent(s, p, n, b);
  }

  /** Taking and giving up the lock: no buffer changes. */
  lemma LockInv(s: State, a: Step)
    requires Inv(s) && Enabled(s, a) && (a.Lock? || a.Unlock?)
    ensures Inv(Apply(s, a))
  {
    hide Count, Uncached, Unique;
    var t := Apply(s, a);
    CountedStep(s.bufs, t.bufs, s.ps, a.p, t.ps[a.p]);
  }

  lemma DropInv(s: State, p: nat)
    requires Inv(s) && Enabled(s, Drop(p))
    ensures Inv(Apply(s, Drop(p)))
  {
    hide Count, Uncached;
    var t := Apply(s, Drop(p));
    CountedStep(s.bufs, t.bufs, s.ps, p, t.ps[p]);
    SameLabels(s.bufs, t.bufs);
  }

  /** What the holder of a buffer does to it changes no label, count or lock. */
  lemma HolderShape(s: State, a: Step)
    requires Inv(s) && Enabled(s, a) && (a.Read? || a.Modify? || a.LogWrite? || a.Write?)
    ensures var t := Apply(s, a); Unique(t.bufs) && Counted(t.bufs, t.ps) && Owned(t)
    ensures forall dev, n :: Uncached(Apply(s, a).bufs, dev, n) == Uncached(s.bufs, dev, n)
  {
    hide Count, Uncached, Current;
    var t := Apply(s, a);
    SameLabels(s.bufs, t.bufs);
    CountedStep(s.bufs, t.bufs, s.ps, a.p, t.ps[a.p]);
    assert s.ps[a.p := t.ps[a.p]] == t.ps;
  }

  lemma ReadInv(s: State, a: Step)
    requires Inv(s) && Enabled(s, a) && (a.Read? || a.LogWrite?)
    ensures Inv(Apply(s, a))
  {
    hide Count, Uncached, Unique;
    HolderShape(s, a);
  }

  lemma OtherBlocks(bufs: seq<Buf>, b: nat)
    requires Unique(bufs) && b < |bufs| && bufs[b].dev == ROOTDEV
    ensures forall c {:trigger bufs[c]} :: 0 <= c < |bufs| && c != b && bufs[c].dev == ROOTDEV ==>
              bufs[c].blockno != bufs[b].blockno
    ensures !Uncached(bufs, ROOTDEV, bufs[b].blockno)
  {
    NotUncached(bufs, b);
  }

  /** Only the block in the buffer changes, in the map or on the disk. */
  lemma ModifyInv(s: State, a: Step)
    requires Inv(s) && Enabled(s, a) && a.Modify?
    ensures Inv(Apply(s, a))
  {
    hide Uncached, Unique, Counted;
    HolderShape(s, a);
    OtherBlocks(s.bufs, s.ps[a.p].b);
  }

  lemma WriteInv(s: State, a: Step)
    requires Inv(s) && Enabled(s, a) && a.Write?
    ensures Inv(Apply(s, a))
  {
    hide Uncached, Unique, Counted;
    HolderShape(s, a);
    OtherBlocks(s.bufs, s.ps[a.p].b);
  }

  lemma NotUncached(bufs: seq<Buf>, b: nat)
    requires b < |bufs|
    ensures !Uncached(bufs, bufs[b].dev, bufs[b].blockno)
  {
    assert Labelled(bufs[b], bufs[b].dev, bufs[b].blockno);
  }

  lemma StepInv(s: State, a: Step)
    requires Inv(s) && Enabled(s, a)
    ensures Inv(Apply(s, a))
  {
    hide Inv, Apply;
    match a
    case Hit(p, _, n, b) => HitInv(s, p, n, b);
    case Recycle(p, _, n, b) => RecycleInv(s, p, n, b);
    case Lock(_) => LockInv(s, a);
    case Unlock(_) => LockInv(s, a);
    case Read(_) => ReadInv(s, a);
    case LogWrite(_) => ReadInv(s, a);
    case Modify(_, _) => ModifyInv(s, a);
    case Write(_) => WriteInv(s, a);
    case Drop(p) => DropInv(s, p);
  }

  // ---- Runs ----

  /** The cache as binit leaves it, every buffer labelled (0, 0), over any disk. */
  ghost predicate Initial(s: State) {
    && (forall b :: 0 <= b < |s.bufs| ==>
          !s.bufs[b].valid && !s.bufs[b].dirty && s.bufs[b].dev == 0 && s.bufs[b].blockno == 0 && s.bufs[b].refcnt == 0)
    && |s.owner| == |s.bufs| && (forall b :: 0 <= b < |s.owner| ==> s.owner[b] == -1)
    && (forall p :: 0 <= p < |s.ps| ==> s.ps[p] == Away)
    && s.latest == s.disk
  }

  predicate Runs(s: State, steps: seq<Step>)
    decreases |steps|
  {
    steps == [] || (Enabled(s, steps[0]) && Runs(Apply(s, steps[0]), steps[1..]))
  }

  function Outcome(s: State, steps: seq<Step>): State
    requires Runs(s, steps)
    decreases |steps|
  {
    if steps == [] then s else Outcome(Apply(s, steps[0]), steps[1..])
  }

  lemma {:induction false} NobodyCounts(ps: seq<Proc>, b: nat)
    requires forall p :: 0 <= p < |ps| ==> ps[p] == Away
    ensures Count(ps, b) == 0
  {
    if ps != [] { NobodyCounts(ps[..|ps| - 1], b); }
  }

  lemma InitialInv(s: State)
    requires Initial(s)
    ensures Inv(s)
  {
    hide Count, Uncached;
    forall b: nat ensures Count(s.ps, b) == 0 { NobodyCounts(s.ps, b); }
  }

  lemma {:induction false} RunInv(s: State, steps: seq<Step>)
    requires Inv(s) && Runs(s, steps)
    ensures Inv(Outcome(s, steps))
    decreases |steps|
  {
    hide Inv, Apply, Enabled;
    if steps != [] {
      StepInv(s, steps[0]);
      RunInv(Apply(s, steps[0]), steps[1..]);
    }
  }

  /** Whoever holds a buffer that bread has filled holds the only buffer of the block
      it asked for, with the block's latest contents. */
  lemma BreadIsLatest(s: State, steps: seq<Step>, p: nat)
    requires Initial(s) && Runs(s, steps)
    requires var t := Outcome(s, steps); p < |t.ps| && t.ps[p].Holding?
    ensures var t := Outcome(s, steps);
            var q := t.ps[p];
            && q.b < |t.bufs| && Labelled(t.bufs[q.b], q.dev, q.blockno)
            && (forall c :: 0 <= c < |t.bufs| && c != q.b ==> !Labelled(t.bufs[c], q.dev, q.blockno))
            && (forall r :: 0 <= r < |t.ps| && r != p ==> !(t.ps[r].Holding? && t.ps[r].b == q.b))
            && (t.bufs[q.b].valid ==> q.blockno < |t.latest| && t.bufs[q.b].data == t.latest[q.blockno])
  {
    hide Apply, Enabled, Count, Uncached;
    InitialInv(s);
    RunInv(s, steps);
  }

  /** A buffer changes its block only when nobody refers to it, it is not pinned, and
      the disk already has the latest contents of the block it gives up. */
  lemma OnlyIdleRecycled(s: State, steps: seq<Step>, a: Step, b: nat)
    requires Initial(s) && Runs(s, steps) && Enabled(Outcome(s, steps), a)
    requires var t := Outcome(s, steps); b < |t.bufs| == |Apply(t, a).bufs|
    ensures var t := Outcome(s, steps);
            var o, o' := t.bufs[b], Apply(t, a).bufs[b];
            o'.dev != o.dev || o'.blockno != o.blockno ==>
              && !o.dirty && (forall p :: 0 <= p < |t.ps| ==> !Uses(t.ps[p], b))
              && (o.dev == ROOTDEV && o.blockno < |t.disk| && o.blockno < |t.latest| ==>
                    t.disk[o.blockno] == t.latest[o.blockno])
  {
    hide Count, Uncached;
    InitialInv(s);
    RunInv(s, steps);
    var t := Outcome(s, steps);
    if a.Recycle? && a.b == b { Unowned(t, b); }
  }

  // ---- What is pinned ----

  ghost predicate PinnedBlock(s: State, n: nat) {
    exists b :: 0 <= b < |s.bufs| && Labelled(s.bufs[b], ROOTDEV, n) && s.bufs[b].dirty
  }

  predicate OnBlock(s: State, p: nat, n: nat) {
    p < |s.ps| && s.ps[p].Holding? && s.ps[p].blockno == n
  }

  /** Is block n pinned after step a, if it was so before or not: log_write of the
      block pins it, bwrite of the block lets it go. */
  predicate PinAfter(s: State, a: Step, n: nat, before: bool) {
    if (a.LogWrite? || a.Write?) && OnBlock(s, a.p, n) then a.LogWrite? else before
  }

  predicate PinsAfter(s: State, steps: seq<Step>, n: nat, before: bool)
    requires Runs(s, steps)
    decreases |steps|
  {
    if steps == [] then before else PinsAfter(Apply(s, steps[0]), steps[1..], n, PinAfter(s, steps[0], n, before))
  }

  /** The buffers of two states pin the same blocks. */
  lemma SamePins(s: State, t: State, n: nat)
    requires |t.bufs| == |s.bufs|
    requires forall b {:trigger t.bufs[b]} :: 0 <= b < |s.bufs| ==>
               (Labelled(t.bufs[b], ROOTDEV, n) && t.bufs[b].dirty
                <==> Labelled(s.bufs[b], ROOTDEV, n) && s.bufs[b].dirty)
    ensures PinnedBlock(t, n) == PinnedBlock(s, n)
  {
    if b :| 0 <= b < |s.bufs| && Labelled(s.bufs[b], ROOTDEV, n) && s.bufs[b].dirty { assert t.bufs[b].dirty; }
    if b :| 0 <= b < |t.bufs| && Labelled(t.bufs[b], ROOTDEV, n) && t.bufs[b].dirty { assert s.bufs[b].dirty; }
  }

  lemma WritePins(s: State, a: Step, n: nat)
    requires Inv(s) && Enabled(s, a) && (a.LogWrite? || a.Write?) && OnBlock(s, a.p, n)
    ensures PinnedBlock(Apply(s, a), n) == a.LogWrite?
  {
    hide Count, Uncached, Current, Owned;
    var b, t := s.ps[a.p].b, Apply(s, a);
    assert Labelled(s.bufs[b], ROOTDEV, n);
    assert Labelled(t.bufs[b], ROOTDEV, n);
    assert forall c :: 0 <= c < |s.bufs| && c != b ==> !Labelled(s.bufs[c], ROOTDEV, n);
  }

  lemma StepPins(s: State, a: Step, n: nat)
    requires Inv(s) && Enabled(s, a)
    ensures PinnedBlock(Apply(s, a), n) == PinAfter(s, a, n, PinnedBlock(s, n))
  {
    hide Count, Uncached, Current, Owned, PinnedBlock;
    if (a.LogWrite? || a.Write?) && OnBlock(s, a.p, n) {
      WritePins(s, a, n);
    } else {
      SamePins(s, Apply(s, a), n);
    }
  }

  lemma {:induction false} RunPins(s: State, steps: seq<Step>, n: nat)
    requires Inv(s) && Runs(s, steps)
    ensures PinnedBlock(Outcome(s, steps), n) == PinsAfter(s, steps, n, PinnedBlock(s, n))
    decreases |steps|
  {
    hide Inv, Apply, Enabled, PinnedBlock, PinAfter;
    if steps != [] {
      StepPins(s, steps[0], n);
      StepInv(s, steps[0]);
      RunPins(Apply(s, steps[0]), steps[1..], n);
    }
  }

  /** In every run a block is pinned exactly from a log_write of it to the next bwrite of
      it; and while it is neither pinned nor being changed, the disk has its latest
      contents. */
  lemma PinnedSince(s: State, steps: seq<Step>, n: nat)
    requires Initial(s) && Runs(s, steps)
    ensures PinnedBlock(Outcome(s, steps), n) <==> PinsAfter(s, steps, n, false)
    ensures var t := Outcome(s, steps);
            && |t.latest| == |t.disk|
            && (n < |t.disk| && !PinnedBlock(t, n)
                && (forall p: nat {:trigger t.ps[p]} :: p < |t.ps| && OnBlock(t, p, n) ==> !t.ps[p].touched) ==>
                  t.disk[n] == t.latest[n])
  {
    hide Apply, Enabled, Count, PinsAfter;
    InitialInv(s);
    RunPins(s, steps, n);
    RunInv(s, steps);
    var t := Outcome(s, steps);
    if n < |t.disk| && !Uncached(t.bufs, ROOTDEV, n) {
      var b :| 0 <= b < |t.bufs| && Labelled(t.bufs[b], ROOTDEV, n);
      assert t.bufs[b].dirty ==> PinnedBlock(t, n);
      if 0 <= t.owner[b] < |t.ps| { assert t.ps[t.owner[b]] == t.ps[t.owner[b]]; }
    }
  }

  // ---- bread and brelse that nobody interferes with ----

  lemma OneMore(s: State, a: Step, rest: seq<Step>)
    requires Enabled(s, a) && Runs(Apply(s, a), rest)
    ensures Runs(s, [a] + rest) && Outcome(s, [a] + rest) == Outcome(Apply(s, a), rest)
  {
    hide Enabled, Apply;
    assert ([a] + rest)[1..] == rest;
  }

  /** bread of a block that is not cached: a buffer nobody uses is given its label and
      the disk's contents, and the caller holds it alone. */
  lemma BreadFills(s: State, p: nat, n: nat, b: nat)
    requires Inv(s) && Enabled(s, Recycle(p, ROOTDEV, n, b))
    ensures var steps := [Recycle(p, ROOTDEV, n, b)] + ([Lock(p)] + ([Read(p)] + []));
            && Runs(s, steps) && b < |s.owner|
            && Outcome(s, steps) == s.(bufs := s.bufs[b := Buf(true, false, ROOTDEV, n, 1, s.disk[n])],
                                       owner := s.owner[b := p], ps := s.ps[p := Holding(b, ROOTDEV, n, false)])
  {
    hide Count, Uncached, Current;
    Unowned(s, b);
    var s1 := s.(bufs := s.bufs[b := Buf(false, false, ROOTDEV, n, 1, s.bufs[b].data)],
                 ps := s.ps[p := Waiting(b, ROOTDEV, n)]);
    var s2 := s1.(owner := s.owner[b := p], ps := s.ps[p := Holding(b, ROOTDEV, n, false)]);
    var s3 := s2.(bufs := s.bufs[b := Buf(true, false, ROOTDEV, n, 1, s.disk[n])]);
    assert Apply(s2, Read(p)) == s3;
    OneMore(s2, Read(p), []);
    assert Apply(s1, Lock(p)) == s2;
    OneMore(s1, Lock(p), [Read(p)] + []);
    OneMore(s, Recycle(p, ROOTDEV, n, b), [Lock(p)] + ([Read(p)] + []));
  }

  /** bread of a cached block that nobody holds: one more reference, and the lock. */
  lemma BreadFinds(s: State, p: nat, n: nat, b: nat)
    requires Inv(s) && Enabled(s, Hit(p, ROOTDEV, n, b)) && s.owner[b] == -1
    ensures var steps := [Hit(p, ROOTDEV, n, b)] + ([Lock(p)] + []);
            && Runs(s, steps) && b < |s.owner|
            && Outcome(s, steps) == s.(bufs := s.bufs[b := s.bufs[b].(refcnt := s.bufs[b].refcnt + 1)],
                                       owner := s.owner[b := p], ps := s.ps[p := Holding(b, ROOTDEV, n, false)])
  {
    hide Count, Uncached, Current;
    var s1 := Apply(s, Hit(p, ROOTDEV, n, b));
    var s2 := s1.(owner := s.owner[b := p], ps := s.ps[p := Holding(b, ROOTDEV, n, false)]);
    assert Apply(s1, Lock(p)) == s2;
    OneMore(s1, Lock(p), []);
    OneMore(s, Hit(p, ROOTDEV, n, b), [Lock(p)] + []);
  }

  /** brelse gives back the lock and the reference. */
  lemma BrelseDrops(s: State, p: nat)
    requires Inv(s) && Enabled(s, Unlock(p))
    ensures var steps, b := [Unlock(p)] + ([Drop(p)] + []), s.ps[p].b;
            && Runs(s, steps) && s.bufs[b].refcnt > 0
            && Outcome(s, steps) == s.(bufs := s.bufs[b := s.bufs[b].(refcnt := s.bufs[b].refcnt - 1)],
                                       owner := s.owner[b := -1], ps := s.ps[p := Away])
  {
    hide Count, Uncached, Current;
    var b := s.ps[p].b;
    CountPositive(s.ps, p, b);
    assert s.bufs[b].refcnt == Count(s.ps, b);
    var s1 := Apply(s, Unlock(p));
    OneMore(s1, Drop(p), []);
    OneMore(s, Unlock(p), [Drop(p)] + []);
  }

  /** Changing the block one holds and logging it: pinned, with the new contents the
      latest and the disk as it was. */
  lemma UpdateLogged(s: State, p: nat, data: Block)
    requires Inv(s) && Enabled(s, Modify(p, data)) && Enabled(s, Unlock(p))
    ensures var steps := [Modify(p, data)] + ([LogWrite(p)] + ([Unlock(p)] + ([Drop(p)] + [])));
            var b := s.ps[p].b;
            var o := s.bufs[b];
            && Runs(s, steps) && o.refcnt > 0
            && Outcome(s, steps) == s.(bufs := s.bufs[b := o.(data := data, dirty := true, refcnt := o.refcnt - 1)],
                                       latest := s.latest[o.blockno := data], owner := s.owner[b := -1],
                                       ps := s.ps[p := Away])
  {
    hide Inv;
    var b := s.ps[p].b;
    var s1, s2 := Apply(s, Modify(p, data)), Apply(Apply(s, Modify(p, data)), LogWrite(p));
    StepInv(s, Modify(p, data));
    StepInv(s1, LogWrite(p));
    assert s2.ps == s.ps[p := s.ps[p].(touched := false)];
    BrelseDrops(s2, p);
    OneMore(s1, LogWrite(p), [Unlock(p)] + ([Drop(p)] + []));
    OneMore(s, Modify(p, data), [LogWrite(p)] + ([Unlock(p)] + ([Drop(p)] + [])));
  }

  /** Changing it and writing it: on the disk, and not pinned. */
  lemma UpdateWritten(s: State, p: nat, data: Block)
    requires Inv(s) && Enabled(s, Modify(p, data)) && Enabled(s, Unlock(p)) && Enabled(s, Write(p))
    ensures var steps := [Modify(p, data)] + ([Write(p)] + ([Unlock(p)] + ([Drop(p)] + [])));
            var b := s.ps[p].b;
            var o := s.bufs[b];
            && Runs(s, steps) && o.refcnt > 0
            && Outcome(s, steps) == s.(bufs := s.bufs[b := o.(data := data, dirty := false, refcnt := o.refcnt - 1)],
                                       latest := s.latest[o.blockno := data], disk := s.disk[o.blockno := data],
                                       owner := s.owner[b := -1], ps := s.ps[p := Away])
  {
    hide Inv;
    var b := s.ps[p].b;
    var s1, s2 := Apply(s, Modify(p, data)), Apply(Apply(s, Modify(p, data)), Write(p));
    StepInv(s, Modify(p, data));
    StepInv(s1, Write(p));
    assert s2.ps == s.ps[p := s.ps[p].(touched := false)];
    BrelseDrops(s2, p);
    OneMore(s1, Write(p), [Unlock(p)] + ([Drop(p)] + []));
    OneMore(s, Modify(p, data), [Write(p)] + ([Unlock(p)] + ([Drop(p)] + [])));
  }

  // ---- bget: no buffers ----

  /** Pinned by log_write. */
  function Dirties(bufs: seq<Buf>): nat {
    if bufs == [] then 0 else Dirties(bufs[..|bufs| - 1]) + if bufs[|bufs| - 1].dirty then 1 else 0
  }

  /** Processes with a buffer. */
  function Busy(ps: seq<Proc>): nat {
    if ps == [] then 0 else Busy(ps[..|ps| - 1]) + if ps[|ps| - 1].Away? then 0 else 1
  }

  /** References to the first n buffers. */
  function References(ps: seq<Proc>, n: nat): nat {
    if n == 0 then 0 else References(ps, n - 1) + Count(ps, n - 1)
  }

  lemma {:induction false} NoReferences(n: nat)
    ensures References([], n) == 0
  {
    if n > 0 { NoReferences(n - 1); }
  }

  lemma {:induction false} LastReference(ps: seq<Proc>, n: nat)
    requires ps != []
    ensures var rest, last := ps[..|ps| - 1], ps[|ps| - 1];
            References(ps, n) == References(rest, n) + if !last.Away? && last.b < n then 1 else 0
  {
    if n > 0 { LastReference(ps, n - 1); }
  }

  /** A process refers to one buffer at most. */
  lemma {:induction false} OneReferenceEach(ps: seq<Proc>, n: nat)
    ensures References(ps, n) <= Busy(ps)
  {
    if ps == [] {
      NoReferences(n);
    } else {
      LastReference(ps, n);
      OneReferenceEach(ps[..|ps| - 1], n);
    }
  }

  /** No buffer can be recycled: a bget that misses panics. */
  predicate Stuck(bufs: seq<Buf>) {
    forall b :: 0 <= b < |bufs| ==> !Recyclable(bufs[b])
  }

  lemma {:induction false} StuckCounts(bufs: seq<Buf>, ps: seq<Proc>)
    requires Stuck(bufs) && forall b :: 0 <= b < |bufs| ==> bufs[b].refcnt == Count(ps, b)
    ensures |bufs| <= Dirties(bufs) + References(ps, |bufs|)
  {
    hide Count;
    if bufs != [] {
      var n := |bufs| - 1;
      StuckCounts(bufs[..n], ps);
      assert !Recyclable(bufs[n]);
    }
  }

  /** The panic: a process asks for a block that is not cached, and no buffer can be
      recycled. */
  ghost predicate NoBuffers(s: State) {
    && Stuck(s.bufs) && (exists n :: 0 <= n < |s.disk| && Uncached(s.bufs, ROOTDEV, n))
    && exists p :: 0 <= p < |s.ps| && s.ps[p].Away?
  }

  /** Some run from boot ends in s. */
  ghost predicate Reachable(s: State) {
    exists s0, steps :: Initial(s0) && Runs(s0, steps) && Outcome(s0, steps) == s
  }

  lemma {:induction false} OneMoreStep(s0: State, steps: seq<Step>, a: Step)
    requires Runs(s0, steps) && Enabled(Outcome(s0, steps), a)
    ensures Runs(s0, steps + [a]) && Outcome(s0, steps + [a]) == Apply(Outcome(s0, steps), a)
    decreases |steps|
  {
    hide Enabled, Apply;
    if steps == [] {
      assert [a][1..] == [];
    } else {
      OneMoreStep(Apply(s0, steps[0]), steps[1..], a);
      assert (steps + [a])[1..] == steps[1..] + [a];
    }
  }

  lemma Extend(s: State, a: Step)
    requires Reachable(s) && Enabled(s, a)
    ensures Reachable(Apply(s, a))
  {
    hide Enabled, Apply, Initial;
    var s0, steps :| Initial(s0) && Runs(s0, steps) && Outcome(s0, steps) == s;
    OneMoreStep(s0, steps, a);
  }

  /** Buffers 0 .. x - 1 are pinned, x .. x + y - 1 asked for by processes 1 .. y, and
      the rest as at boot. */
  function Filled(n: nat, x: nat, y: nat): (bufs: seq<Buf>)
    ensures |bufs| == n
    ensures forall b :: 0 <= b < n ==>
              bufs[b] == if b < x then Buf(true, true, ROOTDEV, b, 0, ZeroBlock())
                         else if b < x + y then Buf(false, false, ROOTDEV, b, 1, ZeroBlock())
                         else Buf(false, false, 0, 0, 0, ZeroBlock())
  {
    seq(n, b requires 0 <= b < n =>
      if b < x then Buf(true, true, ROOTDEV, b, 0, ZeroBlock())
      else if b < x + y then Buf(false, false, ROOTDEV, b, 1, ZeroBlock())
      else Buf(false, false, 0, 0, 0, ZeroBlock()))
  }

  function Askers(m: nat, x: nat, y: nat): (ps: seq<Proc>)
    ensures |ps| == m
    ensures forall p :: 0 <= p < m ==>
              ps[p] == if 1 <= p <= y then Waiting(x + p - 1, ROOTDEV, x + p - 1) else Away
  {
    seq(m, p requires 0 <= p < m => if 1 <= p <= y then Waiting(x + p - 1, ROOTDEV, x + p - 1) else Away)
  }

  /** n buffers and m processes on a blank disk of n + 1 blocks. */
  function Crowd(n: nat, m: nat, x: nat, y: nat): State {
    var disk := seq(n + 1, _ => ZeroBlock());
    State(Filled(n, x, y), seq(n, _ => -1), Askers(m, x, y), disk, disk)
  }

  lemma FirstCrowd(n: nat, m: nat)
    ensures Reachable(Crowd(n, m, 0, 0))
  {
    var s := Crowd(n, m, 0, 0);
    assert Initial(s) && Runs(s, []) && Outcome(s, []) == s;
  }

  /** Process 0 reads a block, logs it and lets it go. */
  lemma PinOne(n: nat, m: nat, x: nat)
    requires Reachable(Crowd(n, m, x, 0)) && x < n && 0 < m
    ensures Reachable(Crowd(n, m, x + 1, 0))
  {
    hide Reachable;
    var s0 := Crowd(n, m, x, 0);
    var s1 := Taken(s0, 0, x);
    var buf := Buf(true, true, ROOTDEV, x, 1, ZeroBlock());
    var s2 := s1.(owner := s1.owner[x := 0], ps := s1.ps[0 := Holding(x, ROOTDEV, x, false)]);
    Extend(s1, Lock(0));
    var s3 := s2.(bufs := s2.bufs[x := buf.(dirty := false)]);
    Extend(s2, Read(0));
    var s4 := s3.(bufs := s3.bufs[x := buf]);
    Extend(s3, LogWrite(0));
    assert Apply(s3, LogWrite(0)).ps == s4.ps;
    var s5 := s4.(owner := s4.owner[x := -1], ps := s4.ps[0 := Leaving(x)]);
    Extend(s4, Unlock(0));
    Extend(s5, Drop(0));
    assert Apply(s5, Drop(0)) == Crowd(n, m, x + 1, 0);
  }

  /** A free buffer given to an idle process for a block nobody has. */
  lemma Taken(s: State, p: nat, b: nat) returns (t: State)
    requires Reachable(s) && p < |s.ps| && s.ps[p].Away? && b < |s.bufs| && b < |s.disk|
    requires Uncached(s.bufs, ROOTDEV, b) && Recyclable(s.bufs[b])
    ensures Reachable(t)
    ensures t == s.(bufs := s.bufs[b := Buf(false, false, ROOTDEV, b, 1, s.bufs[b].data)],
                    ps := s.ps[p := Waiting(b, ROOTDEV, b)])
  {
    hide Reachable;
    t := Apply(s, Recycle(p, ROOTDEV, b, b));
    Extend(s, Recycle(p, ROOTDEV, b, b));
  }

  lemma AskOne(n: nat, m: nat, x: nat, y: nat)
    requires Reachable(Crowd(n, m, x, y)) && x + y < n && y + 1 < m
    ensures Reachable(Crowd(n, m, x, y + 1))
  {
    hide Reachable;
    var t := Taken(Crowd(n, m, x, y), y + 1, x + y);
    assert t.bufs == Filled(n, x, y + 1) && t.ps == Askers(m, x, y + 1);
  }

  lemma {:induction false} CrowdReachable(n: nat, m: nat, x: nat, y: nat)
    requires x + y <= n && y < m
    ensures Reachable(Crowd(n, m, x, y))
    decreases x + y
  {
    hide Reachable, Crowd;
    if y > 0 {
      CrowdReachable(n, m, x, y - 1);
      AskOne(n, m, x, y - 1);
    } else if x > 0 {
      CrowdReachable(n, m, x - 1, 0);
      PinOne(n, m, x - 1);
    } else {
      FirstCrowd(n, m);
    }
  }

  lemma {:induction false} FilledDirties(bufs: seq<Buf>, x: nat)
    requires forall b :: 0 <= b < |bufs| ==> (bufs[b].dirty <==> b < x)
    ensures Dirties(bufs) == if |bufs| < x then |bufs| else x
  {
    if bufs != [] { FilledDirties(bufs[..|bufs| - 1], x); }
  }

  lemma {:induction false} AskersBusy(ps: seq<Proc>, y: nat)
    requires forall p :: 0 <= p < |ps| ==> (ps[p].Away? <==> !(1 <= p <= y))
    ensures Busy(ps) == if |ps| == 0 then 0 else if |ps| - 1 < y then |ps| - 1 else y
  {
    if ps != [] { AskersBusy(ps[..|ps| - 1], y); }
  }

  /** Within those limits: at most pinned buffers dirty, and at most held processes with
      a buffer. */
  predicate Limited(s: State, n: nat, pinned: nat, held: nat) {
    |s.bufs| == n && Dirties(s.bufs) <= pinned && Busy(s.ps) <= held
  }

  /** "bget: no buffers" cannot happen if and only if pinned and held buffers together
      are fewer than all. */
  lemma NoBuffersIff(n: nat, pinned: nat, held: nat)
    ensures (forall s :: Reachable(s) && Limited(s, n, pinned, held) ==> !NoBuffers(s)) <==> pinned + held < n
  {
    if pinned + held < n {
      forall s | Reachable(s) && Limited(s, n, pinned, held) ensures !NoBuffers(s) {
        NeverStuck(s);
      }
    } else {
      var x := if pinned < n then pinned else n;
      var s := Crowd(n, n - x + 1, x, n - x);
      CrowdReachable(n, n - x + 1, x, n - x);
      FilledDirties(s.bufs, x);
      AskersBusy(s.ps, n - x);
      assert Uncached(s.bufs, ROOTDEV, n) && s.ps[0].Away?;
      assert Reachable(s) && Limited(s, n, pinned, held) && NoBuffers(s);
    }
  }

  lemma NeverStuck(s: State)
    requires Reachable(s) && Dirties(s.bufs) + Busy(s.ps) < |s.bufs|
    ensures !Stuck(s.bufs)
  {
    hide Initial, Runs, Outcome, Unique, Owned, Current, Stuck, Count;
    var s0, steps :| Initial(s0) && Runs(s0, steps) && Outcome(s0, steps) == s;
    InitialInv(s0);
    RunInv(s0, steps);
    if Stuck(s.bufs) {
      StuckCounts(s.bufs, s.ps);
      OneReferenceEach(s.ps, |s.bufs|);
    }
  }

  /** With NBUF buffers and operations of at most budget blocks, whose logged blocks
      stay pinned until their commit: there is a buffer for every request exactly if
      fewer than 20 - 2 * budget others are in use. */
  lemma BuffersForBudget(budget: nat, held: nat)
    ensures (forall s :: Reachable(s) && Limited(s, NBUF, LogAdmission.Cap(budget), held) ==> !NoBuffers(s))
            <==> 2 * budget + held < 20
  {
    hide Reachable, Limited, NoBuffers;
    NoBuffersIff(NBUF, LogAdmission.Cap(budget), held);
  }


  // ---- The loops of bio.c ----

  lemma EmptyList(next: seq<nat>, prev: seq<nat>, head: nat)
    requires |next| == |prev| == head + 1 && next[head] == prev[head] == head
    ensures Linked(next, prev, [], [], head)
  {
  }

  lemma PosInRange(order: seq<nat>, pos: seq<nat>, b: nat)
    requires Permutation(order, pos) && b < |order|
    ensures |pos| == |order| && pos[b] < |order|
  {
  }

  lemma NoneListed(bufs: seq<Buf>, order: seq<nat>, pos: seq<nat>, dev: nat, blockno: nat)
    requires Permutation(order, pos) && |bufs| == |order|
    requires forall j {:trigger order[j]} :: 0 <= j < |order| ==> !Labelled(bufs[order[j]], dev, blockno)
    ensures Uncached(bufs, dev, blockno)
  {
    forall b | 0 <= b < |bufs| ensures !Labelled(bufs[b], dev, blockno) {
      assert order[pos[b]] == b;
    }
  }

  class Bcache {
    const head: nat            // the number of buffers; also the index of the list head
    var bufs: seq<Buf>
    var next: seq<nat>
    var prev: seq<nat>
    ghost var order: seq<nat>
    ghost var pos: seq<nat>

    ghost predicate Valid()
      reads this
    {
      Linked(next, prev, order, pos, head) && |bufs| == |order| == head
    }

    /** binit: each buffer in turn put in front. */
    constructor Binit(n: nat)
      ensures Valid() && head == n
      ensures forall b :: 0 <= b < n ==> bufs[b] == Buf(false, false, 0, 0, 0, ZeroBlock())
    {
      head := n;
      bufs := seq(n, _ => Buf(false, false, 0, 0, 0, ZeroBlock()));
      next := seq(n + 1, _ => n);
      prev := seq(n + 1, _ => n);
      order, pos := [], [];
      new;
      hide At, Pushed;
      var b := 0;
      EmptyList(next, prev, n);
      while b < n
        invariant 0 <= b <= n == head && |order| == b && Linked(next, prev, order, pos, head)
        invariant bufs == seq(n, _ => Buf(false, false, 0, 0, 0, ZeroBlock()))
      {
        Push(next, prev, order, pos, head);
        var first := next[head];
        next := next[b := first];
        prev := prev[b := head];
        prev := prev[first := b];
        next := next[head := b];
        order, pos := [b] + order, Pushed(pos);
        b := b + 1;
      }
    }

    /** bget, up to the sleep lock: the buffer of the block if there is one, otherwise
        the least recently used buffer that is neither referenced nor dirty, given
        over to the block; a panic if there is none. */
    method Bget(dev: nat, blockno: nat) returns (b: int)
      requires Valid()
      modifies this`bufs
      ensures Valid()
      ensures b == -1 ==> bufs == old(bufs) && Uncached(bufs, dev, blockno)
      ensures b == -1 ==> forall c :: 0 <= c < |bufs| ==> !Recyclable(bufs[c])
      ensures b != -1 ==> 0 <= b < |old(bufs)|
      ensures b != -1 && Labelled(old(bufs)[b], dev, blockno) ==>
                bufs == old(bufs)[b := old(bufs)[b].(refcnt := old(bufs)[b].refcnt + 1)]
      ensures b != -1 && !Labelled(old(bufs)[b], dev, blockno) ==>
                && Uncached(old(bufs), dev, blockno) && Recyclable(old(bufs)[b])
                && (forall j :: pos[b] < j < |order| ==> !Recyclable(old(bufs)[order[j]]))
                && bufs == old(bufs)[b := Buf(false, false, dev, blockno, 1, old(bufs)[b].data)]
    {
      b := next[head];
      ghost var k := 0;
      while b != head
        invariant 0 <= k <= |order| && b == At(order, k, head) && bufs == old(bufs)
        invariant forall j {:trigger order[j]} :: 0 <= j < k ==> !Labelled(bufs[order[j]], dev, blockno)
        decreases |order| - k
      {
        if Labelled(bufs[b], dev, blockno) {
          bufs := bufs[b := bufs[b].(refcnt := bufs[b].refcnt + 1)];
          return;
        }
        b, k := next[b], k + 1;
      }
      NoneListed(bufs, order, pos, dev, blockno);
      b := prev[head];
      k := |order|;
      while b != head
        invariant 0 <= k <= |order| && b == At(order, k - 1, head) && bufs == old(bufs)
        invariant forall j {:trigger order[j]} :: k <= j < |order| ==> !Recyclable(bufs[order[j]])
        decreases k
      {
        if Recyclable(bufs[b]) {
          assert pos[b] == k - 1;
          bufs := bufs[b := Buf(false, false, dev, blockno, 1, bufs[b].data)];
          return;
        }
        b, k := prev[b], k - 1;
      }
      forall c | 0 <= c < |bufs| ensures !Recyclable(bufs[c]) {
        assert order[pos[c]] == c;
      }
      b := -1;
    }

    /** brelse, under the cache's lock: the last reference moves the buffer to the
        front of the list. */
    method Drop(b: nat)
      requires Valid() && b < |bufs| && bufs[b].refcnt > 0
      modifies this
      ensures Valid() && bufs == old(bufs)[b := old(bufs)[b].(refcnt := old(bufs)[b].refcnt - 1)]
      ensures order == if old(bufs)[b].refcnt == 1 then Moved(old(order), old(pos)[b]) else old(order)
    {
      hide Moved, MovedPos, Permutation, At;
      bufs := bufs[b := bufs[b].(refcnt := bufs[b].refcnt - 1)];
      if bufs[b].refcnt == 0 {
        PosInRange(order, pos, b);
        ToFront(next, prev, order, pos, head, b);
        order, pos := Moved(order, pos[b]), MovedPos(pos, pos[b]);
        var after, before := next[b], prev[b];
        prev := prev[after := before];
        next := next[before := after];
        next := next[b := next[head]];
        prev := prev[b := head];
        prev := prev[next[head] := b];
        next := next[head := b];
      }
    }
  }
}
