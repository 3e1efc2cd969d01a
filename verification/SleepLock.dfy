/** Sleep locks over sleep and wakeup, step by step, for any number of processes:
    acquiresleep, releasesleep and holdingsleep of sleeplock.c with the bodies of
    sleep, wakeup and kill of proc.c that they meet.  Every acquire and release of
    the two spin locks, every write and every turn of wakeup1's loop is a step. */
module SleepLock {

  /** Where a process stands.  The flag of Idle, Asking and Answering says whether
      the process holds the sleep lock. */
  datatype Pc =
    | Idle(owner: bool)
    | WantLk                  // acquiresleep: acquire(&lk->lk)
    | Testing                 // while (lk->locked)
    | WantPt                  // sleep: acquire(&ptable.lock)
    | DropLk                  // sleep: release(lk)
    | Committed               // sleep: about to set chan and state and call sched
    | Asleep
    | Runnable
    | Resumed                 // back from sched, about to release ptable.lock
    | Naming                  // lk->locked is set, lk->pid is next
    | Leaving                 // about to release(&lk->lk) and own the lock
    | WantRelease             // releasesleep: acquire(&lk->lk)
    | Unlocking               // lk->locked = 0
    | Clearing                // lk->pid = 0
    | WantWake                // wakeup: acquire(&ptable.lock)
    | Waking(i: nat)          // wakeup1's loop at slot i
    | Released                // about to release(&lk->lk)
    | Asking(owner: bool)     // holdingsleep: acquire(&lk->lk)
    | Answering(owner: bool)  // holdingsleep: computing r

  predicate HoldsLk(pc: Pc) {
    pc.Testing? || pc.WantPt? || pc.DropLk? || pc.Naming? || pc.Leaving? || pc.Unlocking? || pc.Clearing?
    || pc.WantWake? || pc.Waking? || pc.Released? || pc.Answering?
  }

  predicate HoldsPt(pc: Pc) {
    pc.DropLk? || pc.Committed? || pc.Resumed? || pc.Waking?
  }

  /** Between setting lk->locked and clearing it. */
  predicate Owns(pc: Pc) {
    (pc.Idle? && pc.owner) || pc.Naming? || pc.Leaving? || pc.WantRelease? || pc.Unlocking?
    || (pc.Asking? && pc.owner) || (pc.Answering? && pc.owner)
  }

  const FREE := -1        // nobody holds the spin lock
  const SCHEDULER := -2   // a scheduler holds ptable.lock

  datatype State = State(
    pcs: seq<Pc>,
    lk: int,              // holder of lk->lk
    pt: int,              // holder of ptable.lock
    locked: bool,
    pid: nat,
    holder: int)          // who set lk->locked, while it is set

  /** What process p may do next, and the scheduler and kill. */
  datatype Step =
    | Acquire(p: nat)     // an idle process calls acquiresleep
    | Release(p: nat)     // its owner calls releasesleep
    | Ask(p: nat)         // an idle process calls holdingsleep
    | Advance(p: nat)     // the next step of the call under way
    | Dispatch(p: nat)
    | TakePt              // a scheduler takes ptable.lock
    | DropPt
    | Kill(p: nat)

  predicate CanAdvance(s: State, p: nat)
    requires p < |s.pcs|
  {
    match s.pcs[p]
    case Idle(_) => false
    case WantLk => s.lk == FREE
    case WantRelease => s.lk == FREE
    case Asking(_) => s.lk == FREE
    case Runnable => false
    case Asleep => false
    case WantPt => s.pt == FREE
    case WantWake => s.pt == FREE
    case _ => true
  }

  predicate Enabled(s: State, a: Step) {
    match a
    case Acquire(p) => p < |s.pcs| && s.pcs[p] == Idle(false)
    case Release(p) => p < |s.pcs| && s.pcs[p] == Idle(true)
    case Ask(p) => p < |s.pcs| && s.pcs[p].Idle?
    case Advance(p) => p < |s.pcs| && CanAdvance(s, p)
    case Dispatch(p) => p < |s.pcs| && s.pcs[p] == Runnable && s.pt == SCHEDULER
    case TakePt => s.pt == FREE
    case DropPt => s.pt == SCHEDULER
    case Kill(p) => p < |s.pcs| && s.pt == FREE && s.pcs[p] == Asleep
  }

  function At(s: State, p: nat, pc: Pc): State
    requires p < |s.pcs|
  {
    s.(pcs := s.pcs[p := pc])
  }

  /** pids[p] is the pid of process p. */
  function Advanced(s: State, p: nat, pids: seq<nat>): (t: State)
    requires p < |s.pcs| == |pids| && CanAdvance(s, p)
    ensures |t.pcs| == |s.pcs|
  {
    match s.pcs[p]
    case WantLk => At(s, p, Testing).(lk := p)
    case Testing => if s.locked then At(s, p, WantPt) else At(s, p, Naming).(locked := true, holder := p)
    case WantPt => At(s, p, DropLk).(pt := p)
    case DropLk => At(s, p, Committed).(lk := FREE)
    case Committed => At(s, p, Asleep).(pt := SCHEDULER)
    case Resumed => At(s, p, WantLk).(pt := FREE)
    case Naming => At(s, p, Leaving).(pid := pids[p])
    case Leaving => At(s, p, Idle(true)).(lk := FREE)
    case WantRelease => At(s, p, Unlocking).(lk := p)
    case Unlocking => At(s, p, Clearing).(locked := false, holder := -1)
    case Clearing => At(s, p, WantWake).(pid := 0)
    case WantWake => At(s, p, Waking(0)).(pt := p)
    case Waking(i) =>
      if i == |s.pcs| then At(s, p, Released).(pt := FREE)
      else if i < |s.pcs| && s.pcs[i] == Asleep then At(At(s, i, Runnable), p, Waking(i + 1))
      else At(s, p, Waking(i + 1))
    case Released => At(s, p, Idle(false)).(lk := FREE)
    case Asking(o) => At(s, p, Answering(o)).(lk := p)
    case Answering(o) => At(s, p, Idle(o)).(lk := FREE)
    case _ => s
  }

  function Apply(s: State, a: Step, pids: seq<nat>): (t: State)
    requires Enabled(s, a) && |pids| == |s.pcs|
    ensures |t.pcs| == |s.pcs|
  {
    match a
    case Acquire(p) => At(s, p, WantLk)
    case Release(p) => At(s, p, WantRelease)
    case Ask(p) => At(s, p, Asking(s.pcs[p].owner))
    case Advance(p) => Advanced(s, p, pids)
    case Dispatch(p) => At(s, p, Resumed).(pt := p)
    case TakePt => s.(pt := SCHEDULER)
    case DropPt => s.(pt := FREE)
    case Kill(p) => At(s, p, Runnable)
  }

  // ---- Invariant ----

  /** Each spin lock is held exactly by the process whose code says so. */
  ghost predicate Locks(s: State) {
    && (s.lk == FREE || 0 <= s.lk < |s.pcs|)
    && (s.pt == FREE || s.pt == SCHEDULER || 0 <= s.pt < |s.pcs|)
    && (forall p {:trigger s.pcs[p]} :: 0 <= p < |s.pcs| ==> (HoldsLk(s.pcs[p]) <==> s.lk == p))
    && (forall p {:trigger s.pcs[p]} :: 0 <= p < |s.pcs| ==> (HoldsPt(s.pcs[p]) <==> s.pt == p))
  }

  ghost predicate Owner(s: State, pids: seq<nat>) {
    && |pids| == |s.pcs|
    && (s.holder == -1 || 0 <= s.holder < |s.pcs|)
    && (s.locked <==> s.holder != -1)
    && (forall p {:trigger s.pcs[p]} :: 0 <= p < |s.pcs| ==> (Owns(s.pcs[p]) <==> s.holder == p))
    && (s.holder != -1 && !s.pcs[s.holder].Naming? ==> s.pid == pids[s.holder])
    && (forall p {:trigger s.pcs[p]} :: 0 <= p < |s.pcs| && s.pcs[p].Clearing? ==> !s.locked)
  }

  /** The process holding lk->lk is on its way to waking p. */
  predicate WillWake(pc: Pc, p: int) {
    pc.Clearing? || pc.WantWake? || (pc.Waking? && pc.i <= p)
  }

  /** A process that is asleep, or cannot be stopped from sleeping, either sleeps
      on a held lock or is about to be woken. */
  predicate Remembered(s: State, p: int)
    requires 0 <= p < |s.pcs|
  {
    && (s.pcs[p].WantPt? || s.pcs[p].DropLk? ==> s.locked)
    && ((s.pcs[p].Committed? || s.pcs[p].Asleep?) && !s.locked ==> 0 <= s.lk < |s.pcs| && WillWake(s.pcs[s.lk], p))
    && (s.pcs[p].Waking? ==> s.pcs[p].i <= |s.pcs|)
  }

  ghost predicate NoneForgotten(s: State) {
    forall p {:trigger s.pcs[p]} :: 0 <= p < |s.pcs| ==> Remembered(s, p)
  }

  ghost predicate Inv(s: State, pids: seq<nat>) {
    Locks(s) && Owner(s, pids) && NoneForgotten(s)
  }

  /** A lock's holder before and after p moves from code that holds it, or not, to
      code that holds it, or not. */
  predicate Passes(before: bool, after: bool, h: int, h': int, p: nat) {
    if before == after then h' == h
    else if after then (h == FREE || h == SCHEDULER) && h' == p
    else h' == FREE || h' == SCHEDULER
  }

  /** t is s with p moved on; nobody else moved. */
  ghost predicate Moved(s: State, t: State, p: nat) {
    && |t.pcs| == |s.pcs| && p < |s.pcs|
    && (forall q {:trigger t.pcs[q]} :: 0 <= q < |s.pcs| && q != p ==> t.pcs[q] == s.pcs[q])
    && Passes(HoldsLk(s.pcs[p]), HoldsLk(t.pcs[p]), s.lk, t.lk, p)
    && Passes(HoldsPt(s.pcs[p]), HoldsPt(t.pcs[p]), s.pt, t.pt, p)
    && t.lk != SCHEDULER
  }

  lemma LocksKept(s: State, t: State, p: nat)
    requires Locks(s) && Moved(s, t, p)
    ensures Locks(t)
  {
  }

  /** p moved within the code that owns the sleep lock, or outside it, or it took
      the lock when it was free, or gave it up. */
  ghost predicate OwnerMoved(s: State, t: State, p: nat, pids: seq<nat>)
    requires p < |s.pcs| == |t.pcs| == |pids|
  {
    && t.locked == (t.holder != -1)
    && (if Owns(s.pcs[p]) == Owns(t.pcs[p]) then t.holder == s.holder
        else if Owns(t.pcs[p]) then !s.locked && t.holder == p && HoldsLk(s.pcs[p]) && t.pcs[p].Naming?
        else t.holder == -1)
    && (if Owns(t.pcs[p]) then t.pcs[p].Naming? || (t.pid == if s.pcs[p].Naming? then pids[p] else s.pid)
        else t.pid == s.pid || !t.locked)
    && (s.pcs[p].Naming? ==> Owns(t.pcs[p]))
    && (t.pcs[p].Clearing? ==> !t.locked)
  }

  lemma OwnerKept(s: State, t: State, p: nat, pids: seq<nat>)
    requires Locks(s) && Owner(s, pids) && Moved(s, t, p) && OwnerMoved(s, t, p, pids)
    ensures Owner(t, pids)
  {
  }

  /** Between testing lk->locked and sleeping a process goes through code that holds
      one of the two locks; whoever clears lk->locked needs both to finish. */
  lemma StillRemembered(s: State, p: nat, pids: seq<nat>, q: nat)
    requires Locks(s) && p < |s.pcs| == |pids| && q < |s.pcs| && CanAdvance(s, p)
    requires Remembered(s, p) && Remembered(s, q)
    ensures Remembered(Advanced(s, p, pids), q)
  {
    assert s.pcs[p] == s.pcs[p];
    assert s.pcs[q] == s.pcs[q];
  }

  lemma NoneForgottenKept(s: State, p: nat, pids: seq<nat>)
    requires Inv(s, pids) && p < |s.pcs| && CanAdvance(s, p)
    ensures NoneForgotten(Advanced(s, p, pids))
  {
    hide Owner, Locks, Advanced, CanAdvance, Remembered;
    OwnerPids(s, pids);
    forall q | 0 <= q < |s.pcs| ensures Remembered(Advanced(s, p, pids), q) {
      StillRemembered(s, p, pids, q);
    }
  }

  /** The next step of p wakes another process. */
  predicate WakesOne(s: State, p: nat)
    requires p < |s.pcs|
  {
    s.pcs[p].Waking? && s.pcs[p].i < |s.pcs| && s.pcs[s.pcs[p].i].Asleep?
  }

  lemma AdvanceMoves(s: State, p: nat, pids: seq<nat>)
    requires p < |s.pcs| == |pids| && CanAdvance(s, p) && s.lk != SCHEDULER
    ensures var u := if WakesOne(s, p) then At(s, s.pcs[p].i, Runnable) else s;
            Moved(u, Advanced(s, p, pids), p)
  {
  }

  lemma AdvanceOwner(s: State, p: nat, pids: seq<nat>)
    requires p < |s.pcs| && CanAdvance(s, p) && Owner(s, pids)
    ensures var u := if WakesOne(s, p) then At(s, s.pcs[p].i, Runnable) else s;
            OwnerMoved(u, Advanced(s, p, pids), p, pids)
  {
  }

  lemma WokenKept(s: State, i: nat, pids: seq<nat>)
    requires Locks(s) && Owner(s, pids) && i < |s.pcs| && s.pcs[i].Asleep?
    ensures Locks(At(s, i, Runnable)) && Owner(At(s, i, Runnable), pids)
  {
    LocksKept(s, At(s, i, Runnable), i);
    OwnerKept(s, At(s, i, Runnable), i, pids);
  }

  lemma AdvanceInv(s: State, p: nat, pids: seq<nat>)
    requires Inv(s, pids) && p < |s.pcs| && CanAdvance(s, p)
    ensures Inv(Advanced(s, p, pids), pids)
  {
    hide NoneForgotten, Owner, Advanced, Moved, OwnerMoved, CanAdvance;
    OwnerPids(s, pids);
    NoneForgottenKept(s, p, pids);
    AdvanceMoves(s, p, pids);
    AdvanceOwner(s, p, pids);
    if WakesOne(s, p) { WokenKept(s, s.pcs[p].i, pids); }
    var u := if WakesOne(s, p) then At(s, s.pcs[p].i, Runnable) else s;
    LocksKept(u, Advanced(s, p, pids), p);
    OwnerKept(u, Advanced(s, p, pids), p, pids);
  }

  lemma OwnerPids(s: State, pids: seq<nat>)
    requires Owner(s, pids)
    ensures |pids| == |s.pcs|
  {
  }

  /** Calls, dispatch and kill move one process without touching the lock's fields. */
  lemma OtherNoneForgotten(s: State, a: Step, pids: seq<nat>)
    requires Inv(s, pids) && Enabled(s, a) && !a.Advance?
    ensures NoneForgotten(Apply(s, a, pids))
  {
    hide Owner;
    OwnerPids(s, pids);
    var t := Apply(s, a, pids);
    forall q | 0 <= q < |t.pcs| ensures Remembered(t, q) {
      assert Remembered(s, q);
    }
  }

  lemma OtherMoves(s: State, a: Step, pids: seq<nat>)
    requires Enabled(s, a) && !a.Advance? && !a.TakePt? && !a.DropPt? && Owner(s, pids) && s.lk != SCHEDULER
    ensures Moved(s, Apply(s, a, pids), a.p) && OwnerMoved(s, Apply(s, a, pids), a.p, pids)
  {
  }

  lemma OtherInv(s: State, a: Step, pids: seq<nat>)
    requires Inv(s, pids) && Enabled(s, a) && !a.Advance?
    ensures Inv(Apply(s, a, pids), pids)
  {
    hide NoneForgotten, Moved, OwnerMoved;
    OtherNoneForgotten(s, a, pids);
    if !a.TakePt? && !a.DropPt? {
      hide Apply, Enabled;
      OtherMoves(s, a, pids);
      LocksKept(s, Apply(s, a, pids), a.p);
      OwnerKept(s, Apply(s, a, pids), a.p, pids);
    }
  }

  // ---- Runs ----

  /** Pids tell processes apart. */
  predicate GoodPids(pids: seq<nat>) {
    forall p, q :: 0 <= p < q < |pids| ==> pids[p] != pids[q]
  }

  predicate Initial(s: State) {
    && (forall p :: 0 <= p < |s.pcs| ==> s.pcs[p] == Idle(false))
    && s.lk == FREE && s.pt == FREE && !s.locked && s.pid == 0 && s.holder == -1
  }

  predicate Runs(s: State, steps: seq<Step>, pids: seq<nat>)
    requires |pids| == |s.pcs|
    decreases |steps|
  {
    steps == [] || (Enabled(s, steps[0]) && Runs(Apply(s, steps[0], pids), steps[1..], pids))
  }

  function Outcome(s: State, steps: seq<Step>, pids: seq<nat>): (t: State)
    requires |pids| == |s.pcs| && Runs(s, steps, pids)
    ensures |t.pcs| == |s.pcs|
    decreases |steps|
  {
    if steps == [] then s else Outcome(Apply(s, steps[0], pids), steps[1..], pids)
  }

  lemma {:induction false} RunInv(s: State, steps: seq<Step>, pids: seq<nat>)
    requires Inv(s, pids) && |pids| == |s.pcs| && Runs(s, steps, pids)
    ensures Inv(Outcome(s, steps, pids), pids)
    decreases |steps|
  {
    hide Inv, Advanced, CanAdvance;
    if steps != [] {
      var a := steps[0];
      if a.Advance? { AdvanceInv(s, a.p, pids); } else { OtherInv(s, a, pids); }
      RunInv(Apply(s, a, pids), steps[1..], pids);
    }
  }

  lemma InitialInv(s: State, pids: seq<nat>)
    requires Initial(s) && |pids| == |s.pcs|
    ensures Inv(s, pids)
  {
    forall p | 0 <= p < |s.pcs| ensures Remembered(s, p) {
    }
  }

  /** At most one process owns the sleep lock. */
  lemma MutualExclusion(s: State, steps: seq<Step>, pids: seq<nat>, p: nat, q: nat)
    requires Initial(s) && |pids| == |s.pcs| && Runs(s, steps, pids)
    requires var t := Outcome(s, steps, pids);
             p < |t.pcs| && q < |t.pcs| && Owns(t.pcs[p]) && Owns(t.pcs[q])
    ensures p == q && Outcome(s, steps, pids).locked
  {
    hide Enabled, Apply;
    InitialInv(s, pids);
    RunInv(s, steps, pids);
    var t := Outcome(s, steps, pids);
    assert t.holder == p;
  }

  /** No wakeup is lost: with the inner lock free and the sleep lock not taken,
      nobody is asleep on it or past the point of no return on the way to sleep. */
  lemma NoLostWakeup(s: State, steps: seq<Step>, pids: seq<nat>, p: nat)
    requires Initial(s) && |pids| == |s.pcs| && Runs(s, steps, pids) && p < |s.pcs|
    requires var t := Outcome(s, steps, pids); t.lk == FREE && !t.locked
    ensures var pc := Outcome(s, steps, pids).pcs[p];
            !pc.Asleep? && !pc.Committed? && !pc.DropLk? && !pc.WantPt?
  {
    hide Enabled, Apply, Owner;
    InitialInv(s, pids);
    RunInv(s, steps, pids);
    var t := Outcome(s, steps, pids);
    assert Remembered(t, p);
  }

  /** holdingsleep answers whether its caller owns the lock. */
  lemma HoldingSleep(s: State, steps: seq<Step>, pids: seq<nat>, p: nat)
    requires Initial(s) && |pids| == |s.pcs| && Runs(s, steps, pids) && GoodPids(pids) && p < |s.pcs|
    requires Outcome(s, steps, pids).pcs[p].Answering?
    ensures var t := Outcome(s, steps, pids);
            (t.locked && t.pid == pids[p]) <==> t.pcs[p].owner
  {
    hide Enabled, Apply;
    InitialInv(s, pids);
    RunInv(s, steps, pids);
    var t := Outcome(s, steps, pids);
    assert t.lk == p;
    if t.locked {
      assert Owns(t.pcs[t.holder]);
      assert t.pcs[t.holder].Naming? ==> t.lk == t.holder;
    }
  }

  // ---- What a call returns ----

  /** Past an acquiresleep and before the next releasesleep. */
  predicate AcquireSide(pc: Pc) {
    (Owns(pc) && !pc.WantRelease? && !pc.Unlocking?)
    || pc.WantLk? || pc.Testing? || pc.WantPt? || pc.DropLk? || pc.Committed?
    || pc.Asleep? || pc.Runnable? || pc.Resumed?
  }

  lemma OwnTurnSide(s: State, pids: seq<nat>, p: nat)
    requires p < |s.pcs| == |pids| && CanAdvance(s, p)
    ensures AcquireSide(Advanced(s, p, pids).pcs[p]) <==> AcquireSide(s.pcs[p])
  {
  }

  /** A turn of q changes nothing about p, or wakes it. */
  lemma OtherTurn(s: State, pids: seq<nat>, q: nat, p: nat)
    requires p < |s.pcs| == |pids| && q < |s.pcs| && CanAdvance(s, q) && p != q
    ensures var pc := Advanced(s, q, pids).pcs[p];
            pc == s.pcs[p] || (s.pcs[p] == Asleep && pc == Runnable)
  {
  }

  /** Only its own calls take a process from one side to the other. */
  lemma StepSide(s: State, a: Step, pids: seq<nat>, p: nat)
    requires p < |s.pcs| == |pids| && Enabled(s, a)
    ensures AcquireSide(Apply(s, a, pids).pcs[p])
            <==> (a == Acquire(p) || (AcquireSide(s.pcs[p]) && a != Release(p)))
  {
    if a.Advance? {
      hide CanAdvance, Advanced;
      if a.p == p { OwnTurnSide(s, pids, p); } else { OtherTurn(s, pids, a.p, p); }
    } else {
      hide Advanced;
    }
  }

  lemma {:induction false} SideKept(s: State, steps: seq<Step>, pids: seq<nat>, p: nat)
    requires p < |s.pcs| == |pids| && Runs(s, steps, pids)
    ensures AcquireSide(s.pcs[p]) && Release(p) !in steps ==> AcquireSide(Outcome(s, steps, pids).pcs[p])
    ensures !AcquireSide(s.pcs[p]) && Acquire(p) !in steps ==> !AcquireSide(Outcome(s, steps, pids).pcs[p])
    decreases |steps|
  {
    hide Apply, Enabled, AcquireSide;
    if steps != [] {
      StepSide(s, steps[0], pids, p);
      SideKept(Apply(s, steps[0], pids), steps[1..], pids, p);
    }
  }

  /** The side p is on is that of its last acquiresleep or releasesleep, step k. */
  lemma {:induction false} LastCall(s: State, steps: seq<Step>, pids: seq<nat>, k: nat, p: nat)
    requires p < |s.pcs| == |pids| && Runs(s, steps, pids) && k < |steps|
    ensures steps[k] == Acquire(p) && Release(p) !in steps[k..] ==> AcquireSide(Outcome(s, steps, pids).pcs[p])
    ensures steps[k] == Release(p) && Acquire(p) !in steps[k..] ==> !AcquireSide(Outcome(s, steps, pids).pcs[p])
    decreases |steps|
  {
    hide Apply, Enabled, AcquireSide;
    StepSide(s, steps[0], pids, p);
    var rest := steps[1..];
    if k == 0 {
      assert forall a :: a in rest ==> a in steps[k..];
      SideKept(Apply(s, steps[0], pids), rest, pids, p);
    } else {
      assert rest[k - 1..] == steps[k..];
      LastCall(Apply(s, steps[0], pids), rest, pids, k - 1, p);
    }
  }

  /** acquiresleep returns to the owner of the lock, which stays the owner until it
      calls releasesleep: with step k its acquiresleep and no releasesleep since, a
      process outside any call holds the lock under its own pid. */
  lemma AcquireReturns(s: State, steps: seq<Step>, pids: seq<nat>, k: nat, p: nat)
    requires Initial(s) && |pids| == |s.pcs| && Runs(s, steps, pids) && p < |s.pcs| && k < |steps|
    requires steps[k] == Acquire(p) && Release(p) !in steps[k..]
    requires Outcome(s, steps, pids).pcs[p].Idle?
    ensures var t := Outcome(s, steps, pids);
            t.pcs[p] == Idle(true) && t.locked && t.holder == p && t.pid == pids[p]
  {
    hide Enabled, Apply;
    InitialInv(s, pids);
    RunInv(s, steps, pids);
    LastCall(s, steps, pids, k, p);
  }

  /** releasesleep returns to a process that does not hold the lock. */
  lemma ReleaseReturns(s: State, steps: seq<Step>, pids: seq<nat>, k: nat, p: nat)
    requires Initial(s) && |pids| == |s.pcs| && Runs(s, steps, pids) && p < |s.pcs| && k < |steps|
    requires steps[k] == Release(p) && Acquire(p) !in steps[k..]
    requires Outcome(s, steps, pids).pcs[p].Idle?
    ensures var t := Outcome(s, steps, pids); t.pcs[p] == Idle(false) && t.holder != p
  {
    hide Enabled, Apply;
    InitialInv(s, pids);
    RunInv(s, steps, pids);
    LastCall(s, steps, pids, k, p);
  }

  // ---- Calls that nobody interferes with ----

  lemma Then(s: State, a: Step, rest: seq<Step>, pids: seq<nat>)
    requires |pids| == |s.pcs| && Enabled(s, a) && Runs(Apply(s, a, pids), rest, pids)
    ensures Runs(s, [a] + rest, pids)
    ensures Outcome(s, [a] + rest, pids) == Outcome(Apply(s, a, pids), rest, pids)
  {
    hide Enabled, Apply;
    assert ([a] + rest)[1..] == rest;
  }

  /** n steps of the call p is in. */
  function Turns(p: nat, n: nat): (r: seq<Step>)
    ensures |r| == n
  {
    seq(n, _ => Advance(p))
  }

  lemma Turn(s: State, p: nat, n: nat, pids: seq<nat>)
    requires p < |s.pcs| == |pids| && CanAdvance(s, p) && Runs(Advanced(s, p, pids), Turns(p, n), pids)
    ensures Runs(s, Turns(p, n + 1), pids)
    ensures Outcome(s, Turns(p, n + 1), pids) == Outcome(Advanced(s, p, pids), Turns(p, n), pids)
  {
    hide CanAdvance, Advanced, Runs, Outcome;
    Then(s, Advance(p), Turns(p, n), pids);
    assert Turns(p, n + 1) == [Advance(p)] + Turns(p, n);
  }

  /** With the lock free, acquiresleep takes it in one call and four steps. */
  lemma AcquireTakes(s: State, pids: seq<nat>, p: nat)
    requires p < |s.pcs| == |pids| && s.pcs[p] == Idle(false) && s.lk == FREE && !s.locked
    ensures Runs(s, [Acquire(p)] + Turns(p, 4), pids)
    ensures Outcome(s, [Acquire(p)] + Turns(p, 4), pids)
            == s.(pcs := s.pcs[p := Idle(true)], locked := true, holder := p, pid := pids[p])
  {
    hide Runs, Outcome;
    var s1 := At(s, p, WantLk);
    var s2 := At(s, p, Testing).(lk := p);
    var s3 := At(s, p, Naming).(lk := p, locked := true, holder := p);
    var s4 := At(s, p, Leaving).(lk := p, locked := true, holder := p, pid := pids[p]);
    var s5 := At(s, p, Idle(true)).(locked := true, holder := p, pid := pids[p]);
    NoTurns(s5, p, pids);
    assert Advanced(s4, p, pids) == s5;
    Turn(s4, p, 0, pids);
    assert Advanced(s3, p, pids) == s4;
    Turn(s3, p, 1, pids);
    assert Advanced(s2, p, pids) == s3;
    Turn(s2, p, 2, pids);
    assert Advanced(s1, p, pids) == s2;
    Turn(s1, p, 3, pids);
    Then(s, Acquire(p), Turns(p, 4), pids);
  }

  lemma NoTurns(s: State, p: nat, pids: seq<nat>)
    requires |pids| == |s.pcs|
    ensures Runs(s, Turns(p, 0), pids) && Outcome(s, Turns(p, 0), pids) == s
  {
  }

  /** With the lock taken it sleeps, and leaves both spin locks to others. */
  lemma AcquireSleeps(s: State, pids: seq<nat>, p: nat)
    requires p < |s.pcs| == |pids| && s.pcs[p] == Idle(false) && s.lk == FREE && s.pt == FREE && s.locked
    ensures Runs(s, [Acquire(p)] + Turns(p, 5), pids)
    ensures Outcome(s, [Acquire(p)] + Turns(p, 5), pids) == At(s, p, Asleep).(pt := SCHEDULER)
  {
    hide Runs, Outcome;
    var s1 := At(s, p, WantLk);
    var s2 := At(s, p, Testing).(lk := p);
    var s3 := At(s, p, WantPt).(lk := p);
    var s4 := At(s, p, DropLk).(lk := p, pt := p);
    var s5 := At(s, p, Committed).(pt := p);
    var s6 := At(s, p, Asleep).(pt := SCHEDULER);
    NoTurns(s6, p, pids);
    assert Advanced(s5, p, pids) == s6;
    Turn(s5, p, 0, pids);
    assert Advanced(s4, p, pids) == s5;
    Turn(s4, p, 1, pids);
    assert Advanced(s3, p, pids) == s4;
    Turn(s3, p, 2, pids);
    assert Advanced(s2, p, pids) == s3;
    Turn(s2, p, 3, pids);
    assert Advanced(s1, p, pids) == s2;
    Turn(s1, p, 4, pids);
    Then(s, Acquire(p), Turns(p, 5), pids);
  }

  /** Once awake it starts over: dispatched, it drops ptable.lock and goes back for
      the inner lock, to test lk->locked again. */
  lemma SleeperRetries(s: State, pids: seq<nat>, p: nat)
    requires p < |s.pcs| == |pids| && s.pcs[p] == Runnable && s.pt == SCHEDULER
    ensures Runs(s, [Dispatch(p)] + Turns(p, 1), pids)
    ensures Outcome(s, [Dispatch(p)] + Turns(p, 1), pids) == At(s, p, WantLk).(pt := FREE)
  {
    hide Runs, Outcome;
    var s1 := At(s, p, Resumed).(pt := p);
    var s2 := At(s, p, WantLk).(pt := FREE);
    NoTurns(s2, p, pids);
    assert Advanced(s1, p, pids) == s2;
    Turn(s1, p, 0, pids);
    Then(s, Dispatch(p), Turns(p, 1), pids);
  }

  /** kill wakes a sleeper too, and it also starts over. */
  lemma KilledRetries(s: State, pids: seq<nat>, p: nat)
    requires p < |s.pcs| == |pids| && s.pcs[p] == Asleep && s.pt == FREE
    ensures Runs(s, [Kill(p)] + ([TakePt] + ([Dispatch(p)] + Turns(p, 1))), pids)
    ensures Outcome(s, [Kill(p)] + ([TakePt] + ([Dispatch(p)] + Turns(p, 1))), pids) == At(s, p, WantLk)
  {
    hide Runs, Outcome;
    var s1 := At(s, p, Runnable);
    var s2 := At(s, p, Runnable).(pt := SCHEDULER);
    SleeperRetries(s2, pids, p);
    assert At(s2, p, WantLk).(pt := FREE) == At(s, p, WantLk);
    Then(s1, TakePt, [Dispatch(p)] + Turns(p, 1), pids);
    Then(s, Kill(p), [TakePt] + ([Dispatch(p)] + Turns(p, 1)), pids);
  }

  /** A scheduler that finds nobody to run leaves everything as it was. */
  lemma SchedulerPasses(s: State, pids: seq<nat>)
    requires |s.pcs| == |pids| && s.pt == FREE
    ensures Runs(s, [TakePt] + ([DropPt] + []), pids) && Outcome(s, [TakePt] + ([DropPt] + []), pids) == s
  {
    hide Runs, Outcome;
    NoTurns(s, 0, pids);
    assert Turns(0, 0) == [];
    Then(s.(pt := SCHEDULER), DropPt, [], pids);
    Then(s, TakePt, [DropPt] + [], pids);
  }

  /** The processes after wakeup1 has gone over slots i and up. */
  function WokenFrom(pcs: seq<Pc>, i: nat): (r: seq<Pc>)
    ensures |r| == |pcs|
  {
    seq(|pcs|, q requires 0 <= q < |pcs| => if q >= i && pcs[q] == Asleep then Runnable else pcs[q])
  }

  /** wakeup1's loop from slot i on, and the two locks dropped. */
  lemma {:induction false} WakesRest(s: State, pids: seq<nat>, p: nat, i: nat)
    requires p < |s.pcs| == |pids| && i <= |s.pcs| && s.pcs[p] == Waking(i)
    ensures Runs(s, Turns(p, |s.pcs| - i + 2), pids)
    ensures Outcome(s, Turns(p, |s.pcs| - i + 2), pids)
            == s.(pcs := WokenFrom(s.pcs, i)[p := Idle(false)], lk := FREE, pt := FREE)
    decreases |s.pcs| - i
  {
    hide Runs, Outcome;
    var n := |s.pcs|;
    if i == n {
      var s1 := At(s, p, Released).(pt := FREE);
      var s2 := At(s, p, Idle(false)).(lk := FREE, pt := FREE);
      NoTurns(s2, p, pids);
      assert Advanced(s1, p, pids) == s2;
      Turn(s1, p, 0, pids);
      Turn(s, p, 1, pids);
      assert WokenFrom(s.pcs, i) == s.pcs;
    } else {
      var s' := Advanced(s, p, pids);
      WakesRest(s', pids, p, i + 1);
      assert WokenFrom(s'.pcs, i + 1)[p := Idle(false)] == WokenFrom(s.pcs, i)[p := Idle(false)];
      Turn(s, p, n - i + 1, pids);
    }
  }

  /** releasesleep frees the lock and makes every process asleep on it runnable. */
  lemma ReleaseWakes(s: State, pids: seq<nat>, p: nat)
    requires p < |s.pcs| == |pids| && s.pcs[p] == Idle(true) && s.lk == FREE && s.pt == FREE
    ensures var steps := [Release(p)] + Turns(p, |s.pcs| + 6);
            && Runs(s, steps, pids)
            && var t := Outcome(s, steps, pids);
               && !t.locked && t.holder == -1 && t.pid == 0 && t.lk == FREE && t.pt == FREE
               && t.pcs[p] == Idle(false)
               && forall q :: 0 <= q < |s.pcs| && q != p ==>
                    t.pcs[q] == if s.pcs[q] == Asleep then Runnable else s.pcs[q]
  {
    hide Runs, Outcome;
    var n := |s.pcs|;
    var s1 := At(s, p, WantRelease);
    var s2 := At(s, p, Unlocking).(lk := p);
    var s3 := At(s, p, Clearing).(lk := p, locked := false, holder := -1);
    var s4 := At(s, p, WantWake).(lk := p, locked := false, holder := -1, pid := 0);
    var s5 := At(s, p, Waking(0)).(lk := p, pt := p, locked := false, holder := -1, pid := 0);
    WakesRest(s5, pids, p, 0);
    assert Advanced(s4, p, pids) == s5;
    Turn(s4, p, n + 2, pids);
    assert Advanced(s3, p, pids) == s4;
    Turn(s3, p, n + 3, pids);
    assert Advanced(s2, p, pids) == s3;
    Turn(s2, p, n + 4, pids);
    assert Advanced(s1, p, pids) == s2;
    Turn(s1, p, n + 5, pids);
    Then(s, Release(p), Turns(p, n + 6), pids);
  }

  /** holdingsleep computes its answer with the inner lock held and gives it back. */
  lemma AskAnswers(s: State, pids: seq<nat>, p: nat)
    requires p < |s.pcs| == |pids| && s.pcs[p].Idle? && s.lk == FREE
    ensures Runs(s, [Ask(p)] + Turns(p, 1), pids) && Runs(s, [Ask(p)] + Turns(p, 2), pids)
    ensures Outcome(s, [Ask(p)] + Turns(p, 1), pids) == At(s, p, Answering(s.pcs[p].owner)).(lk := p)
    ensures Outcome(s, [Ask(p)] + Turns(p, 2), pids) == s
  {
    hide Runs, Outcome;
    var s1 := At(s, p, Asking(s.pcs[p].owner));
    var s2 := At(s, p, Answering(s.pcs[p].owner)).(lk := p);
    assert Advanced(s2, p, pids) == s;
    assert Advanced(s1, p, pids) == s2;
    NoTurns(s2, p, pids);
    NoTurns(s, p, pids);
    Turn(s2, p, 0, pids);
    Turn(s1, p, 0, pids);
    Turn(s1, p, 1, pids);
    Then(s, Ask(p), Turns(p, 1), pids);
    Then(s, Ask(p), Turns(p, 2), pids);
  }
}
