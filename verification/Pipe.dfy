/** Pipes: the ring buffer of pipe.c with its wrapping counters, and pipewrite,
    piperead and pipeclose as critical sections of any number of processes. */
module Pipe {
  import opened Machine

  const PIPESIZE := 512

  // ---- The ring ----

  datatype Ring = Ring(data: seq<byte>, nread: nat, nwrite: nat)

  predicate Full(r: Ring) {
    r.nwrite == (r.nread + PIPESIZE) % UINT_RANGE
  }

  predicate Empty(r: Ring) {
    r.nread == r.nwrite
  }

  predicate Sized(r: Ring) {
    |r.data| == PIPESIZE && r.nread < UINT_RANGE && r.nwrite < UINT_RANGE
  }

  /** p->data[p->nwrite++ % PIPESIZE] = b. */
  function PutByte(r: Ring, b: byte): Ring
    requires Sized(r)
  {
    Ring(r.data[r.nwrite % PIPESIZE := b], r.nread, (r.nwrite + 1) % UINT_RANGE)
  }

  /** pipewrite's loop from buf[i] on, as far as it gets before the ring is full. */
  function Filled(r: Ring, buf: seq<byte>, i: nat): (r': Ring)
    requires Sized(r) && i <= |buf|
    ensures Sized(r')
    decreases |buf| - i
  {
    if i == |buf| || Full(r) then r else Filled(PutByte(r, buf[i]), buf, i + 1)
  }

  function FilledTo(r: Ring, buf: seq<byte>, i: nat): (j: nat)
    requires Sized(r) && i <= |buf|
    ensures i <= j <= |buf| && (j == |buf| || Full(Filled(r, buf, i)))
    decreases |buf| - i
  {
    if i == |buf| || Full(r) then i else FilledTo(PutByte(r, buf[i]), buf, i + 1)
  }

  /** What piperead's copy loop leaves, and what it copies, for at most n bytes. */
  function Drained(r: Ring, n: nat): (r': Ring)
    requires Sized(r)
    ensures Sized(r') && r'.data == r.data && r'.nwrite == r.nwrite
    decreases n
  {
    if n == 0 || Empty(r) then r else Drained(r.(nread := (r.nread + 1) % UINT_RANGE), n - 1)
  }

  function Taken(r: Ring, n: nat): seq<byte>
    requires Sized(r)
    decreases n
  {
    if n == 0 || Empty(r) then []
    else [r.data[r.nread % PIPESIZE]] + Taken(r.(nread := (r.nread + 1) % UINT_RANGE), n - 1)
  }

  /** The ring holds what was accepted and is not delivered yet; the counters are
      the two totals modulo 2^32. */
  ghost predicate Holds(r: Ring, accepted: seq<byte>, delivered: seq<byte>) {
    && |r.data| == PIPESIZE
    && delivered <= accepted && |accepted| - |delivered| <= PIPESIZE
    && r.nwrite == |accepted| % UINT_RANGE && r.nread == |delivered| % UINT_RANGE
    && forall k {:trigger accepted[k]} :: |delivered| <= k < |accepted| ==> r.data[k % PIPESIZE] == accepted[k]
  }

  /** A ring of 512 fits 2^32 a whole number of times. */
  lemma WrapsToSlot(a: nat)
    ensures a % UINT_RANGE % PIPESIZE == a % PIPESIZE
  {
    var q, x := a / UINT_RANGE, a % UINT_RANGE;
    assert a == (q * 0x80_0000) * PIPESIZE + x;
    SameSlot(q * 0x80_0000, x);
  }

  lemma SameSlot(q: nat, x: nat)
    ensures (q * PIPESIZE + x) % PIPESIZE == x % PIPESIZE
  {
  }

  lemma WrapsApart(a: nat, d: nat)
    requires d <= a <= d + PIPESIZE
    ensures a % UINT_RANGE == d % UINT_RANGE <==> a == d
  {
  }

  lemma WrapsFull(a: nat, d: nat)
    requires d <= a <= d + PIPESIZE
    ensures a % UINT_RANGE == (d % UINT_RANGE + PIPESIZE) % UINT_RANGE <==> a == d + PIPESIZE
  {
    assert (d % UINT_RANGE + PIPESIZE) % UINT_RANGE == (d + PIPESIZE) % UINT_RANGE;
  }

  lemma WrapsNext(a: nat)
    ensures (a % UINT_RANGE + 1) % UINT_RANGE == (a + 1) % UINT_RANGE
  {
  }

  /** 512 divides 2^32, so wrapping never moves a byte, and the tests for full and
      empty are right however often the counters have wrapped. */
  lemma Wrapping(a: nat, d: nat)
    requires d <= a <= d + PIPESIZE
    ensures a % UINT_RANGE % PIPESIZE == a % PIPESIZE
    ensures a % UINT_RANGE == d % UINT_RANGE <==> a == d
    ensures a % UINT_RANGE == (d % UINT_RANGE + PIPESIZE) % UINT_RANGE <==> a == d + PIPESIZE
    ensures (a % UINT_RANGE + 1) % UINT_RANGE == (a + 1) % UINT_RANGE
  {
    WrapsToSlot(a);
    WrapsApart(a, d);
    WrapsFull(a, d);
    WrapsNext(a);
  }

  lemma HoldsTests(r: Ring, a: seq<byte>, d: seq<byte>)
    requires Holds(r, a, d)
    ensures Sized(r) && (Full(r) <==> |a| == |d| + PIPESIZE) && (Empty(r) <==> a == d)
  {
    Wrapping(|a|, |d|);
    if |a| == |d| { assert a == d; }
  }

  lemma PutHolds(r: Ring, a: seq<byte>, d: seq<byte>, b: byte)
    requires Holds(r, a, d) && Sized(r) && !Full(r)
    ensures Holds(PutByte(r, b), a + [b], d)
  {
    HoldsTests(r, a, d);
    Wrapping(|a|, |d|);
    var r', a' := PutByte(r, b), a + [b];
    forall k | |d| <= k < |a'| ensures r'.data[k % PIPESIZE] == a'[k] {
      if k < |a| {
        assert a'[k] == a[k];
        SlotsDiffer(k, |a|);
      }
    }
  }

  lemma SlotsDiffer(k: nat, n: nat)
    requires k < n < k + PIPESIZE
    ensures k % PIPESIZE != n % PIPESIZE
  {
  }

  lemma {:induction false} FilledHolds(r: Ring, a: seq<byte>, d: seq<byte>, buf: seq<byte>, i: nat)
    requires Holds(r, a, d) && Sized(r) && i <= |buf|
    ensures var j := FilledTo(r, buf, i); Holds(Filled(r, buf, i), a + buf[i..j], d)
    decreases |buf| - i
  {
    hide Holds, PutByte, Full;
    if i == |buf| || Full(r) {
      assert a + buf[i..i] == a;
    } else {
      var j := FilledTo(r, buf, i);
      PutHolds(r, a, d, buf[i]);
      FilledHolds(PutByte(r, buf[i]), a + [buf[i]], d, buf, i + 1);
      assert a + [buf[i]] + buf[i + 1..j] == a + buf[i..j];
    }
  }

  lemma TakeHolds(r: Ring, a: seq<byte>, d: seq<byte>)
    requires Holds(r, a, d) && Sized(r) && !Empty(r)
    ensures |d| < |a| && r.data[r.nread % PIPESIZE] == a[|d|]
    ensures Holds(r.(nread := (r.nread + 1) % UINT_RANGE), a, d + [a[|d|]])
  {
    HoldsTests(r, a, d);
    Wrapping(|d|, |d|);
  }

  lemma DrainStep(r: Ring, n: nat)
    requires Sized(r)
    ensures n == 0 || Empty(r) ==> Drained(r, n) == r && Taken(r, n) == []
    ensures n > 0 && !Empty(r) ==>
              var r' := r.(nread := (r.nread + 1) % UINT_RANGE);
              && Drained(r, n) == Drained(r', n - 1)
              && Taken(r, n) == [r.data[r.nread % PIPESIZE]] + Taken(r', n - 1)
  {
  }

  lemma {:induction false} DrainedHolds(r: Ring, a: seq<byte>, d: seq<byte>, n: nat)
    requires Holds(r, a, d) && Sized(r)
    ensures Holds(Drained(r, n), a, d + Taken(r, n))
    ensures |Taken(r, n)| == n || Empty(Drained(r, n))
    decreases n
  {
    hide Holds, Empty, Taken, Drained;
    DrainStep(r, n);
    if n == 0 || Empty(r) {
      assert d + [] == d;
    } else {
      TakeHolds(r, a, d);
      var r', b := r.(nread := (r.nread + 1) % UINT_RANGE), a[|d|];
      DrainedHolds(r', a, d + [b], n - 1);
      assert d + [b] + Taken(r', n - 1) == d + ([b] + Taken(r', n - 1));
    }
  }

  // ---- Processes ----

  /** Away from the pipe, with what its last call returned; in piperead or pipewrite
      waiting for the lock; or asleep in one of them. */
  datatype Status =
    | Away(result: int)
    | Reading(n: nat)
    | ReadAsleep(n: nat)
    | Writing(buf: seq<byte>, i: nat)
    | WriteAsleep(buf: seq<byte>, i: nat)

  datatype State = State(
    ring: Ring,
    readopen: bool,
    writeopen: bool,
    ps: seq<Status>,
    killed: seq<bool>,
    accepted: seq<byte>,     // everything stored so far
    delivered: seq<byte>)    // everything handed to readers so far

  function WokenReader(p: Status): Status {
    if p.ReadAsleep? then Reading(p.n) else p
  }

  function WokenWriter(p: Status): Status {
    if p.WriteAsleep? then Writing(p.buf, p.i) else p
  }

  /** wakeup(&p->nread). */
  function WakeReaders(ps: seq<Status>): (r: seq<Status>)
    ensures |r| == |ps| && forall p :: 0 <= p < |ps| ==> r[p] == WokenReader(ps[p])
  {
    seq(|ps|, p requires 0 <= p < |ps| => WokenReader(ps[p]))
  }

  /** wakeup(&p->nwrite). */
  function WakeWriters(ps: seq<Status>): (r: seq<Status>)
    ensures |r| == |ps| && forall p :: 0 <= p < |ps| ==> r[p] == WokenWriter(ps[p])
  {
    seq(|ps|, p requires 0 <= p < |ps| => WokenWriter(ps[p]))
  }

  datatype Step =
    | CallRead(p: nat, n: nat)
    | CallWrite(p: nat, buf: seq<byte>)
    | ReadTurn(p: nat)        // with the lock, until it is released or slept on
    | WriteTurn(p: nat)
    | Kill(p: nat)
    | CloseRead
    | CloseWrite

  predicate ReaderInside(ps: seq<Status>) {
    exists p :: 0 <= p < |ps| && (ps[p].Reading? || ps[p].ReadAsleep?)
  }

  predicate WriterInside(ps: seq<Status>) {
    exists p :: 0 <= p < |ps| && (ps[p].Writing? || ps[p].WriteAsleep?)
  }

  /** An end is closed with its last reference, so not from under a call, and not
      called afterwards. */
  predicate Enabled(s: State, a: Step) {
    match a
    case CallRead(p, _) => p < |s.ps| && s.ps[p].Away? && s.readopen
    case CallWrite(p, _) => p < |s.ps| && s.ps[p].Away? && s.writeopen
    case ReadTurn(p) => p < |s.ps| && s.ps[p].Reading?
    case WriteTurn(p) => p < |s.ps| && s.ps[p].Writing?
    case Kill(p) => p < |s.ps| && p < |s.killed|
    case CloseRead => s.readopen && !ReaderInside(s.ps)
    case CloseWrite => s.writeopen && !WriterInside(s.ps)
  }

  function AfterRead(s: State, p: nat): State
    requires p < |s.ps| == |s.killed| && s.ps[p].Reading? && Sized(s.ring)
  {
    var n := s.ps[p].n;
    if Empty(s.ring) && s.writeopen then
      s.(ps := s.ps[p := if s.killed[p] then Away(-1) else ReadAsleep(n)])
    else
      s.(ring := Drained(s.ring, n), delivered := s.delivered + Taken(s.ring, n),
         ps := WakeWriters(s.ps[p := Away(|Taken(s.ring, n)|)]))
  }

  function AfterWrite(s: State, p: nat): State
    requires p < |s.ps| == |s.killed| && s.ps[p].Writing? && s.ps[p].i <= |s.ps[p].buf| && Sized(s.ring)
  {
    var buf, i := s.ps[p].buf, s.ps[p].i;
    var j := FilledTo(s.ring, buf, i);
    var s' := s.(ring := Filled(s.ring, buf, i), accepted := s.accepted + buf[i..j]);
    if j == |buf| then s'.(ps := WakeReaders(s.ps[p := Away(|buf|)]))
    else if !s.readopen || s.killed[p] then s'.(ps := s.ps[p := Away(-1)])
    else s'.(ps := WakeReaders(s.ps)[p := WriteAsleep(buf, j)])
  }

  ghost predicate Shaped(s: State) {
    && Sized(s.ring) && |s.killed| == |s.ps|
    && forall p {:trigger s.ps[p]} :: 0 <= p < |s.ps| && (s.ps[p].Writing? || s.ps[p].WriteAsleep?) ==>
         s.ps[p].i <= |s.ps[p].buf|
  }

  ghost function Apply(s: State, a: Step): State
    requires Shaped(s) && Enabled(s, a)
  {
    match a
    case CallRead(p, n) => s.(ps := s.ps[p := Reading(n)])
    case CallWrite(p, buf) => s.(ps := s.ps[p := Writing(buf, 0)])
    case ReadTurn(p) => AfterRead(s, p)
    case WriteTurn(p) => AfterWrite(s, p)
    case Kill(p) =>
      s.(killed := s.killed[p := true], ps := s.ps[p := WokenReader(WokenWriter(s.ps[p]))])
    case CloseRead => s.(readopen := false, ps := WakeWriters(s.ps))
    case CloseWrite => s.(writeopen := false, ps := WakeReaders(s.ps))
  }

  // ---- What every step keeps ----

  /** Sleeping writers found the ring full and a reader to wait for; sleeping
      readers found it empty; so the two kinds never meet. */
  ghost predicate Sleepers(s: State) {
    && (forall p {:trigger s.ps[p]} :: 0 <= p < |s.ps| && s.ps[p].WriteAsleep? ==>
          Full(s.ring) && !Empty(s.ring) && s.readopen)
    && (forall p {:trigger s.ps[p]} :: 0 <= p < |s.ps| && s.ps[p].ReadAsleep? ==> s.writeopen)
    && (forall p {:trigger s.ps[p]} :: 0 <= p < |s.ps| && (s.ps[p].ReadAsleep? || s.ps[p].Reading?) ==> s.readopen)
    && (forall p, q {:trigger s.ps[p], s.ps[q]} :: 0 <= p < |s.ps| && 0 <= q < |s.ps| ==>
          !(s.ps[p].ReadAsleep? && s.ps[q].WriteAsleep?))
  }

  ghost predicate Inv(s: State) {
    Shaped(s) && Holds(s.ring, s.accepted, s.delivered) && Sleepers(s)
  }

  lemma NotBoth(s: State)
    requires Holds(s.ring, s.accepted, s.delivered)
    ensures !(Full(s.ring) && Empty(s.ring))
  {
    HoldsTests(s.ring, s.accepted, s.delivered);
  }

  lemma ReadInv(s: State, p: nat)
    requires Inv(s) && Enabled(s, ReadTurn(p))
    ensures Inv(AfterRead(s, p))
  {
    hide Holds, Full, Empty, Drained, Taken;
    NotBoth(s);
    DrainedHolds(s.ring, s.accepted, s.delivered, s.ps[p].n);
  }

  lemma WriteInv(s: State, p: nat)
    requires Inv(s) && Enabled(s, WriteTurn(p))
    ensures Inv(AfterWrite(s, p))
  {
    hide Holds, Full, Empty, Filled, FilledTo;
    var buf, i := s.ps[p].buf, s.ps[p].i;
    FilledHolds(s.ring, s.accepted, s.delivered, buf, i);
    NotBoth(s);
    NotBoth(AfterWrite(s, p));
    if Full(s.ring) { FullStays(s.ring, buf, i); }
  }

  lemma FullStays(r: Ring, buf: seq<byte>, i: nat)
    requires Sized(r) && i <= |buf| && Full(r)
    ensures Filled(r, buf, i) == r && FilledTo(r, buf, i) == i
  {
  }

  lemma OtherInv(s: State, a: Step)
    requires Inv(s) && Enabled(s, a) && !a.ReadTurn? && !a.WriteTurn?
    ensures Inv(Apply(s, a))
  {
    hide Holds, Full, Empty;
  }

  // ---- Runs ----

  ghost predicate Initial(s: State) {
    && |s.ring.data| == PIPESIZE && s.ring.nread == 0 && s.ring.nwrite == 0 && s.readopen && s.writeopen
    && |s.killed| == |s.ps| && s.accepted == [] && s.delivered == []
    && forall p :: 0 <= p < |s.ps| ==> s.ps[p].Away? && !s.killed[p]
  }

  ghost predicate Runs(s: State, steps: seq<Step>)
    decreases |steps|
  {
    steps == [] || (Shaped(s) && Enabled(s, steps[0]) && Runs(Apply(s, steps[0]), steps[1..]))
  }

  ghost function Outcome(s: State, steps: seq<Step>): State
    requires Runs(s, steps)
    decreases |steps|
  {
    if steps == [] then s else Outcome(Apply(s, steps[0]), steps[1..])
  }

  lemma StepInv(s: State, a: Step)
    requires Inv(s) && Enabled(s, a)
    ensures Inv(Apply(s, a))
  {
    hide Inv, AfterRead, AfterWrite;
    if a.ReadTurn? {
      ReadInv(s, a.p);
    } else if a.WriteTurn? {
      WriteInv(s, a.p);
    } else {
      OtherInv(s, a);
    }
  }

  lemma {:induction false} RunInv(s: State, steps: seq<Step>)
    requires Inv(s) && Runs(s, steps)
    ensures Inv(Outcome(s, steps))
    decreases |steps|
  {
    hide Inv, Apply, Enabled;
    if steps != [] {
      StepInv(s, steps[0]);
      RunInv(Apply(s, steps[0]), steps[1..]);
    }
  }

  /** What is delivered is a prefix of what is accepted, the ring holds the rest,
      and the difference of the counters, modulo 2^32, is how much that is. */
  lemma Fifo(s: State, steps: seq<Step>)
    requires Initial(s) && Runs(s, steps)
    ensures var t := Outcome(s, steps);
            && Sized(t.ring) && t.delivered <= t.accepted
            && (t.ring.nwrite - t.ring.nread) % UINT_RANGE == |t.accepted| - |t.delivered| <= PIPESIZE
            && Taken(t.ring, PIPESIZE) == t.accepted[|t.delivered|..]
  {
    hide Apply, Enabled, Shaped, Sleepers, Taken, Drained;
    InitialInv(s);
    RunInv(s, steps);
    var t := Outcome(s, steps);
    Difference(|t.accepted|, |t.delivered|);
    DrainedHolds(t.ring, t.accepted, t.delivered, PIPESIZE);
    HoldsTests(Drained(t.ring, PIPESIZE), t.accepted, t.delivered + Taken(t.ring, PIPESIZE));
  }

  lemma Difference(a: nat, d: nat)
    requires d <= a <= d + PIPESIZE
    ensures (a % UINT_RANGE - d % UINT_RANGE) % UINT_RANGE == a - d
  {
    assert a % UINT_RANGE - d % UINT_RANGE == a - d - (a / UINT_RANGE - d / UINT_RANGE) * UINT_RANGE;
  }

  lemma InitialInv(s: State)
    requires Initial(s)
    ensures Inv(s)
  {
  }

  /** A reader asleep on nread and a writer asleep on nwrite never coexist; a
      sleeping writer faces a full ring and an open read end. */
  lemma NeverBothAsleep(s: State, steps: seq<Step>, p: nat, q: nat)
    requires Initial(s) && Runs(s, steps)
    requires var t := Outcome(s, steps); p < |t.ps| && q < |t.ps|
    ensures var t := Outcome(s, steps);
            && !(t.ps[p].ReadAsleep? && t.ps[q].WriteAsleep?)
            && (t.ps[p].WriteAsleep? ==> |t.accepted| == |t.delivered| + PIPESIZE && t.readopen)
            && (t.ps[p].ReadAsleep? ==> t.writeopen)
  {
    hide Apply, Enabled, Holds;
    InitialInv(s);
    RunInv(s, steps);
    HoldsTests(Outcome(s, steps).ring, Outcome(s, steps).accepted, Outcome(s, steps).delivered);
  }

  // ---- What a call gets done ----

  /** How far a write gets. */
  lemma FilledAmount(s: State, buf: seq<byte>, i: nat)
    requires Holds(s.ring, s.accepted, s.delivered) && Sized(s.ring) && i <= |buf|
    ensures var j, room := FilledTo(s.ring, buf, i), |s.delivered| + PIPESIZE - |s.accepted|;
            j == if |buf| - i <= room then |buf| else i + room
  {
    hide Full, Filled, FilledTo;
    var j := FilledTo(s.ring, buf, i);
    FilledHolds(s.ring, s.accepted, s.delivered, buf, i);
    HoldsTests(Filled(s.ring, buf, i), s.accepted + buf[i..j], s.delivered);
  }

  /** A turn of pipewrite stores what there is room for.  It returns the length with
      everything stored; otherwise the ring is full, and it gives up if nobody can
      read any more or it has been killed, and sleeps where it stopped if not.  Unless
      it gives up it wakes the readers. */
  lemma WriteTurnDoes(s: State, p: nat)
    requires Inv(s) && Enabled(s, WriteTurn(p))
    ensures var t, buf, i := Apply(s, WriteTurn(p)), s.ps[p].buf, s.ps[p].i;
            var room := PIPESIZE - (|s.accepted| - |s.delivered|);
            var j := if |buf| - i <= room then |buf| else i + room;
            var gone := j < |buf| && (!s.readopen || s.killed[p]);
            && |t.ps| == |s.ps| && i <= j && t.accepted == s.accepted + buf[i..j] && t.delivered == s.delivered
            && t.ps[p] == (if j == |buf| then Away(|buf|) else if gone then Away(-1) else WriteAsleep(buf, j))
            && forall q {:trigger t.ps[q]} :: 0 <= q < |s.ps| && q != p ==>
                 t.ps[q] == if s.ps[q].ReadAsleep? && !gone then Reading(s.ps[q].n) else s.ps[q]
  {
    hide Full, Filled, FilledTo, Holds, Sleepers;
    FilledAmount(s, s.ps[p].buf, s.ps[p].i);
  }

  /** A turn of piperead that finds data or no writer takes the oldest bytes, as many
      as it wants or there are, returns their number and wakes the writers; one that
      finds nothing yet sleeps, or gives up if it has been killed. */
  lemma ReadTurnDoes(s: State, p: nat)
    requires Inv(s) && Enabled(s, ReadTurn(p))
    ensures var t, n, d := Apply(s, ReadTurn(p)), s.ps[p].n, |s.delivered|;
            var available := |s.accepted| - d;
            var m := if n <= available then n else available;
            && |t.ps| == |s.ps| && t.accepted == s.accepted && s.delivered <= s.accepted
            && if available == 0 && s.writeopen then
                 t == s.(ps := s.ps[p := if s.killed[p] then Away(-1) else ReadAsleep(n)])
               else
                 && t.delivered == s.accepted[..d + m] && t.ps[p] == Away(m)
                 && forall q {:trigger t.ps[q]} :: 0 <= q < |s.ps| && q != p ==>
                      t.ps[q] == if s.ps[q].WriteAsleep? then Writing(s.ps[q].buf, s.ps[q].i) else s.ps[q]
  {
    hide Full, Empty, Drained, Taken, Holds, Sleepers;
    var r, a, d, n := s.ring, s.accepted, s.delivered, s.ps[p].n;
    HoldsTests(r, a, d);
    HoldsPrefix(r, a, d);
    DrainedHolds(r, a, d, n);
    HoldsPrefix(Drained(r, n), a, d + Taken(r, n));
    HoldsTests(Drained(r, n), a, d + Taken(r, n));
    TakenMost(r, n);
  }

  lemma HoldsPrefix(r: Ring, a: seq<byte>, d: seq<byte>)
    requires Holds(r, a, d)
    ensures d <= a
  {
  }

  lemma {:induction false} TakenMost(r: Ring, n: nat)
    requires Sized(r)
    ensures |Taken(r, n)| <= n
    decreases n
  {
    if n > 0 && !Empty(r) { TakenMost(r.(nread := (r.nread + 1) % UINT_RANGE), n - 1); }
  }

  /** What a process has had done since its last call: the bytes its own turns added
      to those accepted, or took from the pipe. */
  datatype Record =
    | Nothing
    | Wrote(buf: seq<byte>, sent: seq<byte>)
    | Got(n: nat, taken: seq<byte>)

  /** What b has beyond the length of a. */
  function Grown(a: seq<byte>, b: seq<byte>): seq<byte> {
    if |a| <= |b| then b[|a|..] else []
  }

  ghost function Noted(s: State, a: Step, p: nat, r: Record): Record
    requires Shaped(s) && Enabled(s, a)
  {
    if a.CallWrite? && a.p == p then Wrote(a.buf, [])
    else if a.CallRead? && a.p == p then Got(a.n, [])
    else if a.WriteTurn? && a.p == p && r.Wrote? then
      r.(sent := r.sent + Grown(s.accepted, Apply(s, a).accepted))
    else if a.ReadTurn? && a.p == p && r.Got? then
      r.(taken := r.taken + Grown(s.delivered, Apply(s, a).delivered))
    else r
  }

  ghost function Recorded(s: State, steps: seq<Step>, p: nat, r: Record): Record
    requires Runs(s, steps)
    decreases |steps|
  {
    if steps == [] then r else Recorded(Apply(s, steps[0]), steps[1..], p, Noted(s, steps[0], p, r))
  }

  /** A write under way at i has stored buf[..i], and one that has returned stored
      all or returned -1; a read returns how much it took. */
  predicate Agrees(st: Status, r: Record) {
    match st
    case Writing(buf, i) => i <= |buf| && r == Wrote(buf, buf[..i])
    case WriteAsleep(buf, i) => i <= |buf| && r == Wrote(buf, buf[..i])
    case Reading(n) => r == Got(n, [])
    case ReadAsleep(n) => r == Got(n, [])
    case Away(result) =>
      match r
      case Nothing => true
      case Wrote(buf, sent) => if result == -1 then sent < buf else result == |buf| && sent == buf
      case Got(n, taken) => if result == -1 then taken == [] else result == |taken| <= n
  }

  lemma WriteAgrees(s: State, p: nat, r: Record)
    requires Inv(s) && Enabled(s, WriteTurn(p)) && Agrees(s.ps[p], r)
    ensures Agrees(Apply(s, WriteTurn(p)).ps[p], Noted(s, WriteTurn(p), p, r))
  {
    hide Holds, Sleepers, Apply;
    WriteTurnDoes(s, p);
    var t, buf, i := Apply(s, WriteTurn(p)), s.ps[p].buf, s.ps[p].i;
    var j := i + |t.accepted| - |s.accepted|;
    assert Grown(s.accepted, t.accepted) == buf[i..j];
    assert buf[..i] + buf[i..j] == buf[..j];
  }

  lemma ReadAgrees(s: State, p: nat, r: Record)
    requires Inv(s) && Enabled(s, ReadTurn(p)) && Agrees(s.ps[p], r)
    ensures Agrees(Apply(s, ReadTurn(p)).ps[p], Noted(s, ReadTurn(p), p, r))
  {
    hide Holds, Sleepers, Apply;
    ReadTurnDoes(s, p);
    var t := Apply(s, ReadTurn(p));
    var g := Grown(s.delivered, t.delivered);
    assert [] + g == g;
  }

  /** Moving from asleep to awake in the same call changes nothing about it. */
  lemma WokenAgrees(st: Status, r: Record)
    ensures Agrees(WokenReader(st), r) == Agrees(st, r) && Agrees(WokenWriter(st), r) == Agrees(st, r)
  {
  }

  /** The turn of another process leaves p where it is, or wakes it. */
  lemma OtherTurnAgrees(s: State, a: Step, p: nat, r: Record)
    requires Inv(s) && Enabled(s, a) && p < |s.ps| && Agrees(s.ps[p], r)
    requires (a.WriteTurn? || a.ReadTurn?) && a.p != p
    ensures |Apply(s, a).ps| == |s.ps| && Agrees(Apply(s, a).ps[p], r)
  {
    hide Holds, Sleepers, Apply, Agrees;
    WokenAgrees(s.ps[p], r);
    if a.WriteTurn? { WriteTurnDoes(s, a.p); } else { ReadTurnDoes(s, a.p); }
    var t := Apply(s, a);
    assert t.ps[p] == s.ps[p] || t.ps[p] == WokenReader(s.ps[p]) || t.ps[p] == WokenWriter(s.ps[p]);
  }

  lemma CallAgrees(s: State, a: Step, p: nat, r: Record)
    requires Inv(s) && Enabled(s, a) && p < |s.ps| && Agrees(s.ps[p], r) && !a.WriteTurn? && !a.ReadTurn?
    ensures |Apply(s, a).ps| == |s.ps| && Agrees(Apply(s, a).ps[p], Noted(s, a, p, r))
  {
    hide Holds, Sleepers, ReaderInside, WriterInside;
    if a.Kill? || a.CloseRead? || a.CloseWrite? {
      hide Agrees;
      WokenAgrees(s.ps[p], r);
      WokenAgrees(WokenWriter(s.ps[p]), r);
    }
  }

  lemma StepAgrees(s: State, a: Step, p: nat, r: Record)
    requires Inv(s) && Enabled(s, a) && p < |s.ps| && Agrees(s.ps[p], r)
    ensures |Apply(s, a).ps| == |s.ps| && Agrees(Apply(s, a).ps[p], Noted(s, a, p, r))
  {
    hide Holds, Sleepers, Shaped, Apply, Agrees;
    if a == WriteTurn(p) {
      WriteAgrees(s, p, r);
      WriteTurnDoes(s, p);
    } else if a == ReadTurn(p) {
      ReadAgrees(s, p, r);
      ReadTurnDoes(s, p);
    } else if a.WriteTurn? || a.ReadTurn? {
      OtherTurnAgrees(s, a, p, r);
    } else {
      CallAgrees(s, a, p, r);
    }
  }

  lemma {:induction false} RunAgrees(s: State, steps: seq<Step>, p: nat, r: Record)
    requires Inv(s) && Runs(s, steps) && p < |s.ps| && Agrees(s.ps[p], r)
    ensures |Outcome(s, steps).ps| == |s.ps| && Agrees(Outcome(s, steps).ps[p], Recorded(s, steps, p, r))
    decreases |steps|
  {
    hide Inv, Apply, Enabled, Agrees, Noted;
    if steps != [] {
      StepAgrees(s, steps[0], p, r);
      StepInv(s, steps[0]);
      RunAgrees(Apply(s, steps[0]), steps[1..], p, Noted(s, steps[0], p, r));
    }
  }

  /** In every run the bytes a write has had accepted since it was called are the
      first i of its buffer, in order and once, and all of them when it returns its
      length; a read returns the number of bytes it took. */
  lemma CallsDeliver(s: State, steps: seq<Step>, p: nat)
    requires Initial(s) && Runs(s, steps) && p < |s.ps|
    ensures |Outcome(s, steps).ps| == |s.ps| && Agrees(Outcome(s, steps).ps[p], Recorded(s, steps, p, Nothing))
  {
    hide Inv, Apply, Enabled;
    InitialInv(s);
    RunAgrees(s, steps, p, Nothing);
  }

  /** Nobody who has been killed is asleep. */
  ghost predicate KilledAwake(s: State) {
    |s.killed| == |s.ps|
    && forall p {:trigger s.killed[p]} :: 0 <= p < |s.ps| && s.killed[p] ==>
         !s.ps[p].ReadAsleep? && !s.ps[p].WriteAsleep?
  }

  lemma StepMarks(s: State, a: Step)
    requires Inv(s) && Enabled(s, a) && KilledAwake(s)
    ensures var t := Apply(s, a);
            && KilledAwake(t) && |t.ps| == |s.ps|
            && (forall p: nat {:trigger t.killed[p]} :: p < |s.ps| ==> (t.killed[p] <==> s.killed[p] || a == Kill(p)))
            && (t.readopen <==> s.readopen && a != CloseRead)
            && (t.writeopen <==> s.writeopen && a != CloseWrite)
  {
    hide Holds, Full, Empty, Filled, FilledTo, Drained, Taken, Sleepers;
  }

  lemma {:induction false} RunMarks(s: State, steps: seq<Step>)
    requires Inv(s) && Runs(s, steps) && KilledAwake(s)
    ensures var t := Outcome(s, steps);
            && KilledAwake(t) && |t.ps| == |s.ps|
            && (forall p: nat {:trigger t.killed[p]} :: p < |s.ps| ==>
                  (t.killed[p] <==> s.killed[p] || Kill(p) in steps))
            && (t.readopen <==> s.readopen && CloseRead !in steps)
            && (t.writeopen <==> s.writeopen && CloseWrite !in steps)
    decreases |steps|
  {
    hide Inv, Apply, Enabled;
    if steps != [] {
      var a, rest := steps[0], steps[1..];
      assert steps == [a] + rest;
      StepMarks(s, a);
      StepInv(s, a);
      RunMarks(Apply(s, a), rest);
      var t, u := Apply(s, a), Outcome(s, steps);
      forall p: nat | p < |s.ps| ensures u.killed[p] <==> s.killed[p] || Kill(p) in steps {
        assert t.killed[p] <==> s.killed[p] || a == Kill(p);
      }
    }
  }

  /** In every run the killed are those killed and the ends closed are those closed,
      and nobody who has been killed is asleep: kill wakes a sleeper, and neither call
      puts a killed process to sleep. */
  lemma KillWakes(s: State, steps: seq<Step>)
    requires Initial(s) && Runs(s, steps)
    ensures var t := Outcome(s, steps);
            && |t.ps| == |t.killed| == |s.ps|
            && (forall p: nat :: p < |s.ps| ==>
                  && (t.killed[p] <==> Kill(p) in steps)
                  && (t.killed[p] ==> !t.ps[p].ReadAsleep? && !t.ps[p].WriteAsleep?))
            && (t.readopen <==> CloseRead !in steps)
            && (t.writeopen <==> CloseWrite !in steps)
  {
    hide Inv, Apply, Enabled;
    InitialInv(s);
    RunMarks(s, steps);
  }

  // ---- Calls that nobody interferes with ----

  lemma OneRun(s: State, a: Step, steps: seq<Step>)
    requires Shaped(s) && Enabled(s, a) && Runs(Apply(s, a), steps)
    ensures Runs(s, [a] + steps) && Outcome(s, [a] + steps) == Outcome(Apply(s, a), steps)
  {
    hide Apply, Enabled, Shaped;
    assert ([a] + steps)[1..] == steps;
  }

  /** What fits is written and read at once: both calls return their numbers, and the
      reader has the first bytes of the buffer. */
  lemma Carries(s: State, p: nat, q: nat, buf: seq<byte>, n: nat)
    requires Inv(s) && p < |s.ps| && q < |s.ps| && p != q && s.ps[p].Away? && s.ps[q].Away?
    requires s.readopen && s.writeopen && s.accepted == s.delivered && |buf| <= PIPESIZE
    ensures var steps := [CallWrite(p, buf)] + ([WriteTurn(p)] + ([CallRead(q, n)] + ([ReadTurn(q)] + [])));
            && Runs(s, steps)
            && var t := Outcome(s, steps);
               var m := if n <= |buf| then n else |buf|;
               && |t.ps| == |s.ps| && t.ps[p] == Away(|buf|) && t.accepted == s.accepted + buf
               && (buf != [] ==> t.ps[q] == Away(m) && t.delivered == s.delivered + buf[..m])
  {
    hide Runs, Outcome, Holds, Sleepers, Apply;
    var s1 := ApplyCall(s, CallWrite(p, buf));
    WriteTurnDoes(s1, p);
    assert buf[0..|buf|] == buf;
    StepInv(s1, WriteTurn(p));
    var s2 := Apply(s1, WriteTurn(p));
    OpenStays(s1, WriteTurn(p));
    var s3 := ApplyCall(s2, CallRead(q, n));
    ReadTurnDoes(s3, q);
    assert |buf| > 0 ==> s3.accepted[..|s.delivered| + if n <= |buf| then n else |buf|]
                         == s.delivered + buf[..if n <= |buf| then n else |buf|];
    NoSteps(Apply(s3, ReadTurn(q)));
    OneRun(s3, ReadTurn(q), []);
    OneRun(s2, CallRead(q, n), [ReadTurn(q)] + []);
    OneRun(s1, WriteTurn(p), [CallRead(q, n)] + ([ReadTurn(q)] + []));
    OneRun(s, CallWrite(p, buf), [WriteTurn(p)] + ([CallRead(q, n)] + ([ReadTurn(q)] + [])));
  }

  lemma NoSteps(s: State)
    ensures Runs(s, []) && Outcome(s, []) == s
  {
  }

  lemma ApplyCall(s: State, a: Step) returns (t: State)
    requires Inv(s) && Enabled(s, a) && (a.CallRead? || a.CallWrite?)
    ensures t == Apply(s, a) && Inv(t)
    ensures t == s.(ps := s.ps[a.p := if a.CallRead? then Reading(a.n) else Writing(a.buf, 0)])
  {
    StepInv(s, a);
    t := Apply(s, a);
  }

  lemma OpenStays(s: State, a: Step)
    requires Inv(s) && Enabled(s, a) && (a.WriteTurn? || a.ReadTurn?)
    ensures Apply(s, a).readopen == s.readopen && Apply(s, a).writeopen == s.writeopen
  {
    hide Holds, Full, Empty, Filled, FilledTo, Drained, Taken, Sleepers;
  }

  /** Once the write end is closed and everything is read, a read returns 0. */
  lemma EndOfFile(s: State, q: nat, n: nat)
    requires Inv(s) && q < |s.ps| && s.ps[q].Away? && s.readopen && s.writeopen && s.accepted == s.delivered
    requires !WriterInside(s.ps)
    ensures var steps := [CloseWrite] + ([CallRead(q, n)] + ([ReadTurn(q)] + []));
            Runs(s, steps) && |Outcome(s, steps).ps| == |s.ps| && Outcome(s, steps).ps[q] == Away(0)
  {
    hide Runs, Outcome, Holds, Sleepers, WriterInside;
    var s1 := Apply(s, CloseWrite);
    StepInv(s, CloseWrite);
    var s2 := ApplyCall(s1, CallRead(q, n));
    ReadTurnDoes(s2, q);
    NoSteps(Apply(s2, ReadTurn(q)));
    OneRun(s2, ReadTurn(q), []);
    OneRun(s1, CallRead(q, n), [ReadTurn(q)] + []);
    OneRun(s, CloseWrite, [CallRead(q, n)] + ([ReadTurn(q)] + []));
  }

  // ---- Readers asleep next to data ----

  /** No reader sleeps while there is something to read. */
  ghost predicate Quiet(s: State) {
    forall p {:trigger s.ps[p]} :: 0 <= p < |s.ps| && s.ps[p].ReadAsleep? ==> Empty(s.ring)
  }

  predicate ReaderAsleep(ps: seq<Status>) {
    exists p :: 0 <= p < |ps| && ps[p].ReadAsleep?
  }

  /** The one way to leave a reader asleep next to data: a writer that has been
      killed fills the ring from empty and gives up without waking anybody. */
  predicate Abandons(s: State, a: Step) {
    && a.WriteTurn? && a.p < |s.ps| && a.p < |s.killed| && s.ps[a.p].Writing?
    && s.killed[a.p] && |s.ps[a.p].buf| - s.ps[a.p].i > PIPESIZE && ReaderAsleep(s.ps)
  }

  lemma WriteQuiet(s: State, p: nat)
    requires Inv(s) && Quiet(s) && Enabled(s, WriteTurn(p))
    ensures Quiet(AfterWrite(s, p)) <==> !Abandons(s, WriteTurn(p))
  {
    hide Full, Empty, Filled, FilledTo, Holds;
    var buf, i := s.ps[p].buf, s.ps[p].i;
    var t := AfterWrite(s, p);
    FilledAmount(s, buf, i);
    HoldsTests(s.ring, s.accepted, s.delivered);
    WriteInv(s, p);
    HoldsTests(t.ring, t.accepted, t.delivered);
    if ReaderAsleep(s.ps) {
      var q :| 0 <= q < |s.ps| && s.ps[q].ReadAsleep?;
      assert q != p && s.accepted == s.delivered;
      if Abandons(s, WriteTurn(p)) { assert t.ps[q].ReadAsleep?; }
    }
    if !Abandons(s, WriteTurn(p)) {
      forall q | 0 <= q < |t.ps| ensures !t.ps[q].ReadAsleep? {
        assert s.ps[q].ReadAsleep? ==> ReaderAsleep(s.ps);
      }
    }
  }

  /** A step keeps readers from sleeping next to data if and only if it is not such
      a write. */
  lemma QuietIff(s: State, a: Step)
    requires Inv(s) && Quiet(s) && Enabled(s, a)
    ensures Quiet(Apply(s, a)) <==> !Abandons(s, a)
  {
    hide Full, Empty, Holds, Filled, FilledTo, AfterWrite;
    if a.WriteTurn? {
      WriteQuiet(s, a.p);
    } else if a.ReadTurn? && Empty(s.ring) {
      DrainedEmpty(s.ring, s.ps[a.p].n);
    }
  }

  lemma DrainedEmpty(r: Ring, n: nat)
    requires Sized(r) && Empty(r)
    ensures Drained(r, n) == r
  {
  }

  ghost predicate NobodyKilled(s: State) {
    forall p :: 0 <= p < |s.killed| ==> !s.killed[p]
  }

  /** While nobody is killed, a sleeping reader always faces an empty ring. */
  lemma {:induction false} QuietWithoutKill(s: State, steps: seq<Step>)
    requires Inv(s) && Quiet(s) && NobodyKilled(s) && Runs(s, steps)
    requires forall i :: 0 <= i < |steps| ==> !steps[i].Kill?
    ensures Quiet(Outcome(s, steps))
    decreases |steps|
  {
    hide Full, Empty, Holds, Filled, FilledTo, Drained, Taken, Sleepers;
    if steps != [] {
      QuietIff(s, steps[0]);
      StepInv(s, steps[0]);
      QuietWithoutKill(Apply(s, steps[0]), steps[1..]);
    }
  }

  /** With a kill it happens: a reader sleeps, a writer with more than 512 bytes is
      killed, fills the ring and leaves. */
  lemma StalledReader(s: State, buf: seq<byte>)
    requires Initial(s) && |s.ps| == 2 && |buf| > PIPESIZE
    ensures var steps := [CallRead(0, 1), ReadTurn(0), CallWrite(1, buf), Kill(1), WriteTurn(1)];
            Runs(s, steps) && !Quiet(Outcome(s, steps))
  {
    hide Drained, Taken, Filled, FilledTo, Holds, Sleepers;
    InitialInv(s);
    var s1 := Apply(s, CallRead(0, 1));
    StepInv(s, CallRead(0, 1));
    var s2 := Apply(s1, ReadTurn(0));
    StepInv(s1, ReadTurn(0));
    var s3 := Apply(s2, CallWrite(1, buf));
    StepInv(s2, CallWrite(1, buf));
    var s4 := Apply(s3, Kill(1));
    StepInv(s3, Kill(1));
    assert s4.ps[0] == ReadAsleep(1) && s4.killed[1] && s4.ps[1] == Writing(buf, 0);
    QuietIff(s4, WriteTurn(1));
    OneRun(s4, WriteTurn(1), []);
    OneRun(s3, Kill(1), [WriteTurn(1)]);
    OneRun(s2, CallWrite(1, buf), [Kill(1), WriteTurn(1)]);
    OneRun(s1, ReadTurn(0), [CallWrite(1, buf), Kill(1), WriteTurn(1)]);
    OneRun(s, CallRead(0, 1), [ReadTurn(0), CallWrite(1, buf), Kill(1), WriteTurn(1)]);
  }

  // ---- The loops of pipe.c ----

  lemma FullTest(r: Ring)
    ensures Full(r) <==> r.nwrite == (r.nread + PIPESIZE) % UINT_RANGE
  {
  }

  class PipeBuffer {
    const data: array<byte>
    var nread: nat
    var nwrite: nat

    function View(): Ring
      reads this, data
    {
      Ring(data[..], nread, nwrite)
    }

    constructor ()
      ensures fresh(data) && Holds(View(), [], [])
    {
      data := new byte[PIPESIZE];
      nread, nwrite := 0, 0;
    }

    /** pipewrite's for loop up to the point where it would have to sleep. */
    method Write(buf: seq<byte>, i: nat) returns (j: nat)
      requires Sized(View()) && i <= |buf|
      modifies this`nwrite, data
      ensures View() == Filled(old(View()), buf, i) && j == FilledTo(old(View()), buf, i)
    {
      hide Full;
      j := i;
      while j < |buf| && nwrite != (nread + PIPESIZE) % UINT_RANGE
        invariant i <= j <= |buf| && Sized(View()) && nread == old(nread)
        invariant Filled(View(), buf, j) == Filled(old(View()), buf, i)
        invariant FilledTo(View(), buf, j) == FilledTo(old(View()), buf, i)
      {
        FullTest(View());
        ghost var r := View();
        data[nwrite % PIPESIZE] := buf[j];
        nwrite := (nwrite + 1) % UINT_RANGE;
        assert View() == PutByte(r, buf[j]);
        j := j + 1;
      }
      FullTest(View());
    }

    /** piperead's copy loop. */
    method Read(n: nat) returns (addr: seq<byte>)
      requires Sized(View())
      modifies this`nread
      ensures View() == Drained(old(View()), n) && addr == Taken(old(View()), n)
    {
      hide Drained, Taken;
      addr := [];
      var i := 0;
      while i < n && nread != nwrite
        invariant i <= n && Sized(View())
        invariant Drained(View(), n - i) == Drained(old(View()), n)
        invariant addr + Taken(View(), n - i) == Taken(old(View()), n)
      {
        ghost var r := View();
        DrainStep(r, n - i);
        addr := addr + [data[nread % PIPESIZE]];
        nread := (nread + 1) % UINT_RANGE;
        assert View() == r.(nread := (r.nread + 1) % UINT_RANGE);
        i := i + 1;
      }
      DrainStep(View(), n - i);
    }
  }
}
