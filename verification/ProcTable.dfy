/** The process table: fork, exit, wait, sleep, wakeup, kill, yield and the
    scheduler of proc.c as steps of one shared table, for any number of slots and
    CPUs.  A step is one critical section of ptable.lock, cut where control passes
    between a process and a scheduler with the lock held, or one unlocked write of
    fork to its half-made child. */
module ProcTable {

  datatype ProcState = UNUSED | EMBRYO | SLEEPING | RUNNABLE | RUNNING | ZOMBIE

  /** What a process sleeps on: wait sleeps on the process itself. */
  datatype Chan = NoChan | OnProc(p: int) | Other(id: int)

  /** Where a kernel thread continues when it next runs. */
  datatype Resume = Anywhere | InForkret | InYield | InSleep | InWait

  /** A fork under way: the child's slot, and whether its parent is set yet. */
  datatype Fork = NoFork | Child(np: nat, linked: bool)

  datatype Proc = Proc(
    state: ProcState, pid: nat, parent: int, chan: Chan, killed: bool, at: Resume, fork: Fork)

  /** Who holds ptable.lock. */
  datatype Lock = Nobody | Scheduler(cpu: nat) | Process(p: int)

  datatype Table = Table(
    ps: seq<Proc>,
    cpus: seq<int>,     // the process each CPU runs, -1 for its scheduler
    lock: Lock,
    nextpid: nat,
    init: nat,
    exited: seq<nat>,   // pids that have called exit, in order
    reaped: seq<nat>)   // pids that wait has returned, in order

  predicate Alive(p: Proc) {
    p.state == SLEEPING || p.state == RUNNABLE || p.state == RUNNING
  }

  // ---- What the loops over the table compute ----

  /** wakeup1(chan). */
  function Woken(ps: seq<Proc>, chan: Chan): (r: seq<Proc>)
    ensures |r| == |ps|
    ensures forall i :: 0 <= i < |ps| ==> r[i] == WokenOne(ps[i], chan)
  {
    seq(|ps|, i requires 0 <= i < |ps| => WokenOne(ps[i], chan))
  }

  function WokenOne(p: Proc, chan: Chan): Proc {
    if p.state == SLEEPING && p.chan == chan then p.(state := RUNNABLE) else p
  }

  predicate ZombieOf(p: Proc, parent: int) {
    p.state == ZOMBIE && p.parent == parent
  }

  predicate HasZombie(ps: seq<Proc>, parent: int) {
    exists i :: 0 <= i < |ps| && ZombieOf(ps[i], parent)
  }

  /** The children of p handed to init, which is woken if one of them is a zombie. */
  function Abandoned(ps: seq<Proc>, p: int, init: nat): (r: seq<Proc>)
    ensures |r| == |ps|
    ensures forall i :: 0 <= i < |ps| ==> r[i] == AbandonedOne(ps[i], p, init, HasZombie(ps, p))
  {
    seq(|ps|, i requires 0 <= i < |ps| => AbandonedOne(ps[i], p, init, HasZombie(ps, p)))
  }

  function AbandonedOne(q: Proc, p: int, init: nat, wake: bool): Proc {
    var q' := if wake then WokenOne(q, OnProc(init)) else q;
    if q.parent == p then q'.(parent := init) else q'
  }

  /** A slot and nothing before it satisfies what a scan looks for. */
  predicate FirstUnused(ps: seq<Proc>, k: nat) {
    k < |ps| && ps[k].state == UNUSED && forall i :: 0 <= i < k ==> ps[i].state != UNUSED
  }

  predicate FirstZombie(ps: seq<Proc>, p: int, k: nat) {
    k < |ps| && ZombieOf(ps[k], p) && forall i :: 0 <= i < k ==> !ZombieOf(ps[i], p)
  }

  predicate FirstPid(ps: seq<Proc>, pid: nat, k: nat) {
    k < |ps| && ps[k].pid == pid && forall i :: 0 <= i < k ==> ps[i].pid != pid
  }

  predicate HasChild(ps: seq<Proc>, p: int) {
    exists i :: 0 <= i < |ps| && ps[i].parent == p
  }

  /** Sleeping or not, a killed process runs again. */
  function Killed(p: Proc): Proc {
    p.(killed := true, state := if p.state == SLEEPING then RUNNABLE else p.state)
  }

  // ---- Steps ----

  datatype Step =
    | TakeLock(c: nat)                // a scheduler enters its loop over the table
    | Dispatch(c: nat, p: nat)        // and switches to a RUNNABLE process
    | DropLock(c: nat)                // or finishes the loop
    | Continue(c: nat)                // a dispatched process gives up the lock
    | Yield(c: nat)
    | Sleep(c: nat, id: int)
    | Wakeup(chan: Chan)
    | Kill(pid: nat, k: nat)
    | Alloc(c: nat, np: nat)          // fork: a slot becomes EMBRYO
    | ForkFails(c: nat)               // no memory: the slot is given back, unlocked
    | SetParent(c: nat)               // np->parent = curproc, unlocked
    | ForkDone(c: nat)                // the child becomes RUNNABLE
    | Exit(c: nat)
    | Reap(c: nat, k: nat)            // wait finds a zombie child
    | WaitFails(c: nat)               // no children, or killed
    | WaitSleeps(c: nat)

  /** CPU c runs a process that is about to enter a critical section. */
  predicate Entering(t: Table, c: nat) {
    && c < |t.cpus| && 0 <= t.cpus[c] < |t.ps|
    && t.lock == Nobody && t.ps[t.cpus[c]].at == Anywhere
  }

  predicate Unlocked(t: Table, c: nat) {
    c < |t.cpus| && 0 <= t.cpus[c] < |t.ps| && t.lock != Process(t.cpus[c])
  }

  /** CPU c runs a process in wait's loop: just arrived, or woken with the lock. */
  predicate Scanning(t: Table, c: nat) {
    && c < |t.cpus| && 0 <= t.cpus[c] < |t.ps| && t.ps[t.cpus[c]].fork == NoFork
    && (if t.ps[t.cpus[c]].at == InWait then t.lock == Process(t.cpus[c])
        else t.ps[t.cpus[c]].at == Anywhere && t.lock == Nobody)
  }

  predicate Enabled(t: Table, a: Step) {
    match a
    case TakeLock(c) => c < |t.cpus| && t.cpus[c] == -1 && t.lock == Nobody
    case Dispatch(c, p) => c < |t.cpus| && t.lock == Scheduler(c) && p < |t.ps| && t.ps[p].state == RUNNABLE
    case DropLock(c) => c < |t.cpus| && t.lock == Scheduler(c)
    case Continue(c) =>
      c < |t.cpus| && 0 <= t.cpus[c] < |t.ps| && t.lock == Process(t.cpus[c]) && t.ps[t.cpus[c]].at != InWait
    case Yield(c) => Entering(t, c)
    case Sleep(c, _) => Entering(t, c)
    case Wakeup(_) => t.lock == Nobody
    case Kill(pid, k) => t.lock == Nobody && FirstPid(t.ps, pid, k)
    case Alloc(c, np) => Entering(t, c) && t.ps[t.cpus[c]].fork == NoFork && FirstUnused(t.ps, np)
    case ForkFails(c) =>
      Unlocked(t, c) && t.ps[t.cpus[c]].fork.Child? && !t.ps[t.cpus[c]].fork.linked
      && t.ps[t.cpus[c]].fork.np < |t.ps|
    case SetParent(c) =>
      Unlocked(t, c) && t.ps[t.cpus[c]].fork.Child? && !t.ps[t.cpus[c]].fork.linked
      && t.ps[t.cpus[c]].fork.np < |t.ps|
    case ForkDone(c) =>
      Entering(t, c) && t.ps[t.cpus[c]].fork.Child? && t.ps[t.cpus[c]].fork.linked
      && t.ps[t.cpus[c]].fork.np < |t.ps|
    case Exit(c) => Entering(t, c) && t.cpus[c] != t.init && t.ps[t.cpus[c]].fork == NoFork
    case Reap(c, k) => Scanning(t, c) && FirstZombie(t.ps, t.cpus[c], k)
    case WaitFails(c) =>
      Scanning(t, c) && !HasZombie(t.ps, t.cpus[c]) && (!HasChild(t.ps, t.cpus[c]) || t.ps[t.cpus[c]].killed)
    case WaitSleeps(c) =>
      Scanning(t, c) && !HasZombie(t.ps, t.cpus[c]) && HasChild(t.ps, t.cpus[c]) && !t.ps[t.cpus[c]].killed
  }

  function Set(ps: seq<Proc>, i: int, p: Proc): (r: seq<Proc>)
    requires 0 <= i < |ps|
    ensures |r| == |ps| && r[i] == p && forall j :: 0 <= j < |ps| && j != i ==> r[j] == ps[j]
  {
    ps[i := p]
  }

  /** sched(): the process on CPU c stops there and its scheduler has the lock. */
  function Switched(t: Table, c: nat, p: Proc): Table
    requires c < |t.cpus| && 0 <= t.cpus[c] < |t.ps|
  {
    t.(ps := Set(t.ps, t.cpus[c], p), cpus := t.cpus[c := -1], lock := Scheduler(c))
  }

  /** exit by p: its parent woken, its children given to init, itself a zombie. */
  function Exited(ps: seq<Proc>, p: int, init: nat): seq<Proc>
    requires 0 <= p < |ps|
  {
    var qs := Abandoned(Woken(ps, OnProc(ps[p].parent)), p, init);
    Set(qs, p, qs[p].(state := ZOMBIE))
  }

  /** A process that goes on: sleep clears the channel when it returns. */
  function GoesOn(p: Proc): Proc {
    p.(at := Anywhere, chan := if p.at == InSleep || p.at == InWait then NoChan else p.chan)
  }

  function EmptySlot(p: Proc): Proc {
    p.(state := UNUSED, pid := 0, parent := -1, killed := false)
  }

  function Apply(t: Table, a: Step): Table
    requires Enabled(t, a)
  {
    match a
    case TakeLock(c) => t.(lock := Scheduler(c))
    case Dispatch(c, p) =>
      t.(ps := Set(t.ps, p, t.ps[p].(state := RUNNING)), cpus := t.cpus[c := p], lock := Process(p))
    case DropLock(c) => t.(lock := Nobody)
    case Continue(c) =>
      t.(ps := Set(t.ps, t.cpus[c], GoesOn(t.ps[t.cpus[c]])), lock := Nobody)
    case Yield(c) => Switched(t, c, t.ps[t.cpus[c]].(state := RUNNABLE, at := InYield))
    case Sleep(c, id) => Switched(t, c, t.ps[t.cpus[c]].(state := SLEEPING, chan := Other(id), at := InSleep))
    case Wakeup(chan) => t.(ps := Woken(t.ps, chan))
    case Kill(pid, k) => t.(ps := Set(t.ps, k, Killed(t.ps[k])))
    case Alloc(c, np) =>
      var ps := Set(t.ps, np, t.ps[np].(state := EMBRYO, pid := t.nextpid));
      t.(ps := Set(ps, t.cpus[c], ps[t.cpus[c]].(fork := Child(np, false))), nextpid := t.nextpid + 1)
    case ForkFails(c) =>
      var np := t.ps[t.cpus[c]].fork.np;
      var ps := Set(t.ps, np, t.ps[np].(state := UNUSED));
      t.(ps := Set(ps, t.cpus[c], ps[t.cpus[c]].(fork := NoFork)))
    case SetParent(c) =>
      var np := t.ps[t.cpus[c]].fork.np;
      var ps := Set(t.ps, np, t.ps[np].(parent := t.cpus[c]));
      t.(ps := Set(ps, t.cpus[c], ps[t.cpus[c]].(fork := Child(np, true))))
    case ForkDone(c) =>
      var np := t.ps[t.cpus[c]].fork.np;
      var ps := Set(t.ps, np, t.ps[np].(state := RUNNABLE, at := InForkret));
      t.(ps := Set(ps, t.cpus[c], ps[t.cpus[c]].(fork := NoFork)))
    case Exit(c) =>
      t.(ps := Exited(t.ps, t.cpus[c], t.init), cpus := t.cpus[c := -1], lock := Scheduler(c),
         exited := t.exited + [t.ps[t.cpus[c]].pid])
    case Reap(c, k) =>
      var ps := Set(t.ps, k, EmptySlot(t.ps[k]));
      t.(ps := Set(ps, t.cpus[c], GoesOn(ps[t.cpus[c]])), lock := Nobody,
         reaped := t.reaped + [t.ps[k].pid])
    case WaitFails(c) =>
      t.(ps := Set(t.ps, t.cpus[c], GoesOn(t.ps[t.cpus[c]])), lock := Nobody)
    case WaitSleeps(c) =>
      Switched(t, c, t.ps[t.cpus[c]].(state := SLEEPING, chan := OnProc(t.cpus[c]), at := InWait))
  }

  // ---- Invariant ----

  /** Parent links: every forked process has a live parent, and a half-made child
      belongs to the one that is forking it. */
  predicate ParentOk(ps: seq<Proc>, init: nat, i: int)
    requires 0 <= i < |ps|
  {
    if i == init then Alive(ps[i]) && ps[i].parent == -1
    else if ps[i].state == UNUSED then ps[i].parent == -1
    else if ps[i].state == EMBRYO && ps[i].parent == -1 then true
    else
      && 0 <= ps[i].parent < |ps| && ps[i].parent != i && Alive(ps[ps[i].parent])
      && (ps[i].state == EMBRYO ==> ps[ps[i].parent].fork == Child(i, true))
  }

  ghost predicate Parents(ps: seq<Proc>, init: nat) {
    init < |ps| && forall i {:trigger ps[i]} :: 0 <= i < |ps| ==> ParentOk(ps, init, i)
  }

  /** Every fork under way is by a live process and has its own EMBRYO slot. */
  ghost predicate Forks(ps: seq<Proc>) {
    && (forall f {:trigger ps[f]} :: 0 <= f < |ps| && ps[f].fork.Child? ==>
          && Alive(ps[f]) && ps[f].fork.np < |ps| && ps[ps[f].fork.np].state == EMBRYO
          && ps[ps[f].fork.np].parent == if ps[f].fork.linked then f else -1)
    && (forall f, g {:trigger ps[f], ps[g]} :: 0 <= f < |ps| && 0 <= g < |ps| && f != g ==>
          ps[f].fork.Child? && ps[g].fork.Child? ==> ps[f].fork.np != ps[g].fork.np)
  }

  /** A process asleep in wait sleeps on itself and has no zombie child. */
  ghost predicate Waits(ps: seq<Proc>) {
    && (forall w {:trigger ps[w]} :: 0 <= w < |ps| && ps[w].state == SLEEPING && ps[w].at == InWait ==>
          ps[w].chan == OnProc(w))
    && (forall w, k {:trigger ps[w], ps[k]} :: 0 <= w < |ps| && 0 <= k < |ps| ==>
          ps[w].state == SLEEPING && ps[w].at == InWait ==> !ZombieOf(ps[k], w))
  }

  /** RUNNING processes are exactly those on a CPU, each on one. */
  ghost predicate OnCpus(ps: seq<Proc>, cpus: seq<int>) {
    && (forall c {:trigger cpus[c]} :: 0 <= c < |cpus| && cpus[c] != -1 ==>
          0 <= cpus[c] < |ps| && ps[cpus[c]].state == RUNNING)
    && (forall c, d {:trigger cpus[c], cpus[d]} :: 0 <= c < d < |cpus| && cpus[c] != -1 ==> cpus[c] != cpus[d])
    && (forall p {:trigger ps[p]} :: 0 <= p < |ps| && ps[p].state == RUNNING ==> p in cpus)
  }

  /** The lock and the points where processes stand. */
  ghost predicate Holders(t: Table) {
    && (t.lock.Scheduler? ==> t.lock.cpu < |t.cpus| && t.cpus[t.lock.cpu] == -1)
    && (t.lock.Process? ==> 0 <= t.lock.p < |t.ps| && t.ps[t.lock.p].state == RUNNING)
    && (forall p {:trigger t.ps[p]} :: 0 <= p < |t.ps| && Alive(t.ps[p]) ==>
          && (t.ps[p].at == Anywhere <==> t.ps[p].state == RUNNING && t.lock != Process(p))
          && (t.ps[p].state == SLEEPING ==> t.ps[p].at == InSleep || t.ps[p].at == InWait))
  }

  /** Pids of live processes and zombies differ, and none is reaped. */
  ghost predicate PidsLive(t: Table) {
    && (forall i {:trigger t.ps[i]} :: 0 <= i < |t.ps| && t.ps[i].state != UNUSED ==>
          && 0 < t.ps[i].pid < t.nextpid && t.ps[i].pid !in t.reaped
          && (t.ps[i].pid in t.exited <==> t.ps[i].state == ZOMBIE))
    && (forall i, j {:trigger t.ps[i], t.ps[j]} :: 0 <= i < j < |t.ps| ==>
          t.ps[i].state != UNUSED && t.ps[j].state != UNUSED ==> t.ps[i].pid != t.ps[j].pid)
    && 0 < t.nextpid
  }

  /** The exited are the zombies and the reaped, each once. */
  ghost predicate PidsDead(t: Table) {
    && (forall x {:trigger x in t.exited} :: x in t.exited ==> x < t.nextpid)
    && (forall x :: x in t.reaped ==> x in t.exited)
    && (forall x :: x in t.exited ==> x in t.reaped || IsZombie(t.ps, x))
    && Distinct(t.exited) && Distinct(t.reaped)
  }

  ghost predicate Pids(t: Table) {
    PidsLive(t) && PidsDead(t)
  }

  predicate IsZombie(ps: seq<Proc>, pid: nat) {
    exists i :: 0 <= i < |ps| && ps[i].state == ZOMBIE && ps[i].pid == pid
  }

  predicate Distinct(s: seq<nat>) {
    forall i, j :: 0 <= i < j < |s| ==> s[i] != s[j]
  }

  ghost predicate Inv(t: Table) {
    && Parents(t.ps, t.init) && Forks(t.ps) && Waits(t.ps)
    && OnCpus(t.ps, t.cpus) && Holders(t) && Pids(t)
  }

  // ---- Steps that neither create nor end a process ----

  /** The same process, perhaps at another point of its life between fork and exit. */
  predicate Similar(p: Proc, q: Proc) {
    q.parent == p.parent && q.pid == p.pid && q.fork == p.fork && (q.state == p.state || (Alive(p) && Alive(q)))
  }

  ghost predicate AllSimilar(ps: seq<Proc>, qs: seq<Proc>) {
    |qs| == |ps| && forall i {:trigger ps[i]} {:trigger qs[i]} :: 0 <= i < |ps| ==> Similar(ps[i], qs[i])
  }

  lemma SimilarParents(ps: seq<Proc>, qs: seq<Proc>, init: nat)
    requires Parents(ps, init) && AllSimilar(ps, qs)
    ensures Parents(qs, init)
  {
    forall i | 0 <= i < |qs| ensures ParentOk(qs, init, i) {
      assert ParentOk(ps, init, i);
    }
  }

  lemma SimilarForks(ps: seq<Proc>, qs: seq<Proc>)
    requires Forks(ps) && AllSimilar(ps, qs)
    ensures Forks(qs)
  {
  }

  /** No process starts waiting, and no process becomes a zombie. */
  lemma SimilarWaits(ps: seq<Proc>, qs: seq<Proc>)
    requires Waits(ps) && AllSimilar(ps, qs)
    requires forall w {:trigger qs[w]} :: 0 <= w < |qs| && qs[w].state == SLEEPING && qs[w].at == InWait ==>
               ps[w].state == SLEEPING && ps[w].at == InWait && qs[w].chan == ps[w].chan
    ensures Waits(qs)
  {
    forall w, k | 0 <= w < |qs| && 0 <= k < |qs| && qs[w].state == SLEEPING && qs[w].at == InWait
      ensures !ZombieOf(qs[k], w)
    {
      assert !ZombieOf(ps[k], w);
    }
  }

  lemma ZombiesKept(ps: seq<Proc>, qs: seq<Proc>, x: nat)
    requires |qs| == |ps| && IsZombie(ps, x)
    requires forall i {:trigger qs[i]} :: 0 <= i < |ps| && ps[i].state == ZOMBIE && ps[i].pid == x ==>
               qs[i].state == ZOMBIE && qs[i].pid == x
    ensures IsZombie(qs, x)
  {
    var i :| 0 <= i < |ps| && ps[i].state == ZOMBIE && ps[i].pid == x;
    assert qs[i].state == ZOMBIE;
  }

  lemma SimilarPids(t: Table, t': Table)
    requires Pids(t) && AllSimilar(t.ps, t'.ps)
    requires t'.nextpid == t.nextpid && t'.exited == t.exited && t'.reaped == t.reaped
    ensures Pids(t')
  {
    hide Distinct, IsZombie;
    forall x | x in t'.exited ensures x in t'.reaped || IsZombie(t'.ps, x) {
      if x !in t.reaped { ZombiesKept(t.ps, t'.ps, x); }
    }
  }

  /** CPU c gives up the process it runs. */
  lemma SwitchedOff(ps: seq<Proc>, cpus: seq<int>, c: nat, q: Proc)
    requires OnCpus(ps, cpus) && c < |cpus| && 0 <= cpus[c] < |ps| && q.state != RUNNING
    ensures OnCpus(Set(ps, cpus[c], q), cpus[c := -1])
  {
    var qs := Set(ps, cpus[c], q);
    forall p | 0 <= p < |qs| && qs[p].state == RUNNING ensures p in cpus[c := -1] {
      var d :| 0 <= d < |cpus| && cpus[d] == p;
      assert cpus[c := -1][d] == p;
    }
  }

  lemma SwitchedOn(ps: seq<Proc>, cpus: seq<int>, c: nat, p: nat, q: Proc)
    requires OnCpus(ps, cpus) && c < |cpus| && cpus[c] == -1 && p < |ps| && ps[p].state != RUNNING && q.state == RUNNING
    ensures OnCpus(Set(ps, p, q), cpus[c := p])
  {
    var qs := Set(ps, p, q);
    assert cpus[c := p][c] == p;
    forall r | 0 <= r < |qs| && qs[r].state == RUNNING ensures r in cpus[c := p] {
      if r != p {
        var d :| 0 <= d < |cpus| && cpus[d] == r;
        assert cpus[c := p][d] == r;
      }
    }
  }

  lemma SameCpus(ps: seq<Proc>, qs: seq<Proc>, cpus: seq<int>)
    requires OnCpus(ps, cpus) && |qs| == |ps|
    requires forall i {:trigger qs[i]} :: 0 <= i < |ps| ==> (qs[i].state == RUNNING <==> ps[i].state == RUNNING)
    ensures OnCpus(qs, cpus)
  {
    forall c | 0 <= c < |cpus| && cpus[c] != -1 ensures 0 <= cpus[c] < |qs| && qs[cpus[c]].state == RUNNING {
      assert qs[cpus[c]].state == RUNNING <==> ps[cpus[c]].state == RUNNING;
    }
  }

  lemma LockInv(t: Table, a: Step)
    requires Inv(t) && Enabled(t, a) && (a.TakeLock? || a.DropLock?)
    ensures Inv(Apply(t, a))
  {
    hide Parents, Forks, Waits, Pids;
    SimilarPids(t, Apply(t, a));
  }

  lemma DispatchInv(t: Table, c: nat, p: nat)
    requires Inv(t) && Enabled(t, Dispatch(c, p))
    ensures Inv(Apply(t, Dispatch(c, p)))
  {
    hide Parents, Forks, Waits, Pids, OnCpus;
    var t' := Apply(t, Dispatch(c, p));
    SwitchedOn(t.ps, t.cpus, c, p, t'.ps[p]);
    SimilarParents(t.ps, t'.ps, t.init);
    SimilarForks(t.ps, t'.ps);
    SimilarWaits(t.ps, t'.ps);
    SimilarPids(t, t');
  }

  lemma GoesOnStep(t: Table, a: Step)
    requires Enabled(t, a) && OnCpus(t.ps, t.cpus) && (a.Continue? || a.WaitFails?)
    ensures var p := t.cpus[a.c];
            && 0 <= p < |t.ps| && t.ps[p].state == RUNNING && (t.lock == Process(p) || t.lock == Nobody)
            && Apply(t, a) == t.(ps := Set(t.ps, p, GoesOn(t.ps[p])), lock := Nobody)
  {
    hide HasZombie, HasChild;
  }

  lemma GoesOnHolders(t: Table, t': Table, p: int)
    requires Holders(t) && 0 <= p < |t.ps| && t.ps[p].state == RUNNING && (t.lock == Process(p) || t.lock == Nobody)
    requires t' == t.(ps := Set(t.ps, p, GoesOn(t.ps[p])), lock := Nobody)
    ensures Holders(t')
  {
  }

  /** Giving up the lock, having resumed or with wait returning -1. */
  lemma ContinueInv(t: Table, a: Step)
    requires Inv(t) && Enabled(t, a) && (a.Continue? || a.WaitFails?)
    ensures Inv(Apply(t, a))
  {
    hide Parents, Forks, Waits, Pids, OnCpus, Holders, Apply, HasZombie, HasChild;
    var t', p := Apply(t, a), t.cpus[a.c];
    GoesOnStep(t, a);
    GoesOnHolders(t, t', p);
    SameCpus(t.ps, t'.ps, t.cpus);
    SimilarParents(t.ps, t'.ps, t.init);
    SimilarForks(t.ps, t'.ps);
    SimilarWaits(t.ps, t'.ps);
    SimilarPids(t, t');
  }

  lemma SwitchInv(t: Table, a: Step)
    requires Inv(t) && Enabled(t, a) && (a.Yield? || a.Sleep?)
    ensures Inv(Apply(t, a))
  {
    hide Parents, Forks, Waits, Pids;
    var t' := Apply(t, a);
    SwitchedOff(t.ps, t.cpus, a.c, t'.ps[t.cpus[a.c]]);
    SimilarParents(t.ps, t'.ps, t.init);
    SimilarForks(t.ps, t'.ps);
    SimilarWaits(t.ps, t'.ps);
    SimilarPids(t, t');
  }

  lemma WaitSleepsInv(t: Table, c: nat)
    requires Inv(t) && Enabled(t, WaitSleeps(c))
    ensures Inv(Apply(t, WaitSleeps(c)))
  {
    hide Parents, Forks, Pids;
    var t' := Apply(t, WaitSleeps(c));
    SwitchedOff(t.ps, t.cpus, c, t'.ps[t.cpus[c]]);
    SimilarParents(t.ps, t'.ps, t.init);
    SimilarForks(t.ps, t'.ps);
    SimilarPids(t, t');
    forall w, k | 0 <= w < |t'.ps| && 0 <= k < |t'.ps| && t'.ps[w].state == SLEEPING && t'.ps[w].at == InWait
      ensures !ZombieOf(t'.ps[k], w)
    {
      assert !ZombieOf(t.ps[k], w);
    }
  }

  lemma WakeInv(t: Table, a: Step)
    requires Inv(t) && Enabled(t, a) && (a.Wakeup? || a.Kill?)
    ensures Inv(Apply(t, a))
  {
    hide Parents, Forks, Waits, Pids, OnCpus;
    var t' := Apply(t, a);
    SameCpus(t.ps, t'.ps, t.cpus);
    SimilarParents(t.ps, t'.ps, t.init);
    SimilarForks(t.ps, t'.ps);
    SimilarWaits(t.ps, t'.ps);
    SimilarPids(t, t');
  }

  // ---- fork ----

  /** fork by p changed its record of the fork and the half-made child np only. */
  ghost predicate ForkStep(ps: seq<Proc>, qs: seq<Proc>, p: int, np: int) {
    && |qs| == |ps| && 0 <= p < |ps| && 0 <= np < |ps| && p != np
    && ps[p].state == RUNNING && qs[p] == ps[p].(fork := qs[p].fork)
    && (ps[np].state == UNUSED || ps[np].state == EMBRYO)
    && (qs[np].state == UNUSED || qs[np].state == EMBRYO || qs[np].state == RUNNABLE)
    && forall i {:trigger qs[i]} :: 0 <= i < |ps| && i != p && i != np ==> qs[i] == ps[i]
  }

  lemma ForkWaits(ps: seq<Proc>, qs: seq<Proc>, p: int, np: int)
    requires ForkStep(ps, qs, p, np) && Waits(ps)
    ensures Waits(qs)
  {
    forall w, k | 0 <= w < |qs| && 0 <= k < |qs| && qs[w].state == SLEEPING && qs[w].at == InWait
      ensures !ZombieOf(qs[k], w)
    {
      assert !ZombieOf(ps[k], w);
    }
  }

  lemma ForkHolders(t: Table, t': Table, p: int, np: int)
    requires ForkStep(t.ps, t'.ps, p, np) && Holders(t) && t'.lock == t.lock && t'.cpus == t.cpus
    requires t'.ps[np].state == RUNNABLE ==> t'.ps[np].at == InForkret
    ensures Holders(t')
  {
  }

  /** The child's pid is new, or the slot had it already. */
  lemma ForkPids(t: Table, t': Table, p: int, np: int)
    requires ForkStep(t.ps, t'.ps, p, np) && Pids(t)
    requires t'.exited == t.exited && t'.reaped == t.reaped && t.nextpid <= t'.nextpid
    requires t'.ps[np].state == UNUSED || (t'.ps[np].pid == t.nextpid < t'.nextpid)
          || (t.ps[np].state != UNUSED && t'.ps[np].pid == t.ps[np].pid)
    ensures Pids(t')
  {
    hide Distinct, IsZombie;
    forall x | x in t'.exited ensures x in t'.reaped || IsZombie(t'.ps, x) {
      if x !in t.reaped { ZombiesKept(t.ps, t'.ps, x); }
    }
  }

  /** The links a fork may leave between p and np. */
  predicate Linked(p: Proc, child: Proc, i: int, np: int) {
    match child.state
    case UNUSED => child.parent == -1 && p.fork == NoFork
    case EMBRYO => p.fork.Child? && p.fork.np == np && child.parent == if p.fork.linked then i else -1
    case _ => child.parent == i && p.fork == NoFork
  }

  lemma ForkParents(ps: seq<Proc>, qs: seq<Proc>, p: int, np: int, init: nat)
    requires ForkStep(ps, qs, p, np) && Parents(ps, init) && Linked(ps[p], ps[np], p, np)
             && Linked(qs[p], qs[np], p, np)
    ensures Parents(qs, init)
  {
    forall i | 0 <= i < |qs| ensures ParentOk(qs, init, i) {
      assert ParentOk(ps, init, i);
    }
  }

  lemma ForkForks(ps: seq<Proc>, qs: seq<Proc>, p: int, np: int)
    requires ForkStep(ps, qs, p, np) && Forks(ps) && Linked(ps[p], ps[np], p, np) && Linked(qs[p], qs[np], p, np)
    requires qs[np].fork == ps[np].fork
    ensures Forks(qs)
  {
  }

  lemma ForkKeeps(t: Table, t': Table, p: int, np: int)
    requires Inv(t) && ForkStep(t.ps, t'.ps, p, np)
    requires t' == t.(ps := t'.ps, nextpid := t'.nextpid) && t.nextpid <= t'.nextpid
    requires Linked(t.ps[p], t.ps[np], p, np) && Linked(t'.ps[p], t'.ps[np], p, np)
    requires t'.ps[np].fork == t.ps[np].fork && (t'.ps[np].state == RUNNABLE ==> t'.ps[np].at == InForkret)
    requires t'.ps[np].state == UNUSED || (t'.ps[np].pid == t.nextpid < t'.nextpid)
          || (t.ps[np].state != UNUSED && t'.ps[np].pid == t.ps[np].pid)
    ensures Inv(t')
  {
    hide Parents, Forks, Waits, Holders, Pids, OnCpus, Linked;
    ForkParents(t.ps, t'.ps, p, np, t.init);
    ForkForks(t.ps, t'.ps, p, np);
    ForkWaits(t.ps, t'.ps, p, np);
    ForkHolders(t, t', p, np);
    ForkPids(t, t', p, np);
    SameCpus(t.ps, t'.ps, t.cpus);
  }

  lemma AllocInv(t: Table, c: nat, np: nat)
    requires Inv(t) && Enabled(t, Alloc(c, np))
    ensures Inv(Apply(t, Alloc(c, np)))
  {
    hide Waits, Holders, Pids;
    assert ParentOk(t.ps, t.init, np);
    ForkKeeps(t, Apply(t, Alloc(c, np)), t.cpus[c], np);
  }

  lemma ForkInv(t: Table, a: Step)
    requires Inv(t) && Enabled(t, a) && (a.ForkFails? || a.SetParent? || a.ForkDone?)
    ensures Inv(Apply(t, a))
  {
    hide Waits, Holders, Pids, Parents;
    var p := t.cpus[a.c];
    ForkKeeps(t, Apply(t, a), p, t.ps[p].fork.np);
  }

  // ---- exit and wait ----

  /** What exit by p makes of a process q. */
  ghost predicate ExitedOne(ps: seq<Proc>, p: int, init: nat, q: Proc, r: Proc)
    requires 0 <= p < |ps|
  {
    && r.pid == q.pid && r.fork == q.fork && r.at == q.at && r.chan == q.chan
    && r.parent == (if q.parent == p then init else q.parent)
    && if q.state != SLEEPING then r.state == q.state
       else if q.chan == OnProc(ps[p].parent) || (q.chan == OnProc(init) && HasZombie(ps, p)) then r.state == RUNNABLE
       else r.state == SLEEPING
  }

  ghost predicate ExitStep(ps: seq<Proc>, qs: seq<Proc>, p: int, init: nat) {
    && |qs| == |ps| && 0 <= p < |ps| && p != init && ps[p].state == RUNNING && ps[p].fork == NoFork
    && qs[p] == ps[p].(state := ZOMBIE, parent := qs[p].parent)
    && qs[p].parent == (if ps[p].parent == p then init else ps[p].parent)
    && forall i {:trigger qs[i]} :: 0 <= i < |ps| && i != p ==> ExitedOne(ps, p, init, ps[i], qs[i])
  }

  lemma WokenZombies(ps: seq<Proc>, chan: Chan, p: int)
    ensures HasZombie(Woken(ps, chan), p) == HasZombie(ps, p)
  {
    var qs := Woken(ps, chan);
    if HasZombie(ps, p) {
      var k :| 0 <= k < |ps| && ZombieOf(ps[k], p);
      assert ZombieOf(qs[k], p);
    }
    if HasZombie(qs, p) {
      var k :| 0 <= k < |qs| && ZombieOf(qs[k], p);
      assert ZombieOf(ps[k], p);
    }
  }

  lemma ExitSlots(ps: seq<Proc>, p: int, init: nat)
    requires 0 <= p < |ps| && p != init && ps[p].state == RUNNING && ps[p].fork == NoFork
    ensures ExitStep(ps, Exited(ps, p, init), p, init)
  {
    hide HasZombie, Woken, Abandoned;
    WokenZombies(ps, OnProc(ps[p].parent), p);
  }

  lemma ExitParents(ps: seq<Proc>, qs: seq<Proc>, p: int, init: nat)
    requires ExitStep(ps, qs, p, init) && Parents(ps, init)
    ensures Parents(qs, init)
  {
    hide HasZombie;
    forall i | 0 <= i < |qs| ensures ParentOk(qs, init, i) {
      assert ParentOk(ps, init, i);
    }
  }

  lemma ExitForks(ps: seq<Proc>, qs: seq<Proc>, p: int, init: nat)
    requires ExitStep(ps, qs, p, init) && Forks(ps)
    ensures Forks(qs)
  {
    hide HasZombie;
  }

  /** The parent of the new zombie and the new parent of old zombies are awake. */
  lemma ExitWaits(ps: seq<Proc>, qs: seq<Proc>, p: int, init: nat)
    requires ExitStep(ps, qs, p, init) && Waits(ps) && ps[p].parent != p
    ensures Waits(qs)
  {
    forall w, k | 0 <= w < |qs| && 0 <= k < |qs| && qs[w].state == SLEEPING && qs[w].at == InWait
      ensures !ZombieOf(qs[k], w)
    {
      assert !ZombieOf(ps[k], w);
      if ZombieOf(qs[k], w) && k != p {
        assert ZombieOf(ps[k], p);
      }
    }
  }

  lemma ExitHolders(t: Table, t': Table, p: int, c: nat)
    requires ExitStep(t.ps, t'.ps, p, t.init) && Holders(t) && t.lock == Nobody && c < |t.cpus|
    requires t'.lock == Scheduler(c) && t'.cpus == t.cpus[c := -1]
    ensures Holders(t')
  {
    hide HasZombie;
  }

  lemma ExitCpus(ps: seq<Proc>, qs: seq<Proc>, cpus: seq<int>, c: nat, init: nat)
    requires OnCpus(ps, cpus) && c < |cpus| && ExitStep(ps, qs, cpus[c], init)
    ensures OnCpus(qs, cpus[c := -1])
  {
    hide HasZombie, OnCpus;
    var mid := Set(ps, cpus[c], qs[cpus[c]]);
    SwitchedOff(ps, cpus, c, qs[cpus[c]]);
    SameCpus(mid, qs, cpus[c := -1]);
  }

  lemma DistinctMore(s: seq<nat>, x: nat)
    requires Distinct(s) && x !in s
    ensures Distinct(s + [x])
  {
  }

  lemma ExitPidsLive(t: Table, t': Table, p: int)
    requires ExitStep(t.ps, t'.ps, p, t.init) && Pids(t)
    requires t'.exited == t.exited + [t.ps[p].pid] && t'.reaped == t.reaped && t'.nextpid == t.nextpid
    ensures PidsLive(t')
  {
    hide HasZombie, PidsDead;
    assert forall x :: x in t'.exited <==> x in t.exited || x == t.ps[p].pid;
  }

  lemma ExitPidsDead(t: Table, t': Table, p: int)
    requires ExitStep(t.ps, t'.ps, p, t.init) && Pids(t)
    requires t'.exited == t.exited + [t.ps[p].pid] && t'.reaped == t.reaped && t'.nextpid == t.nextpid
    ensures PidsDead(t')
  {
    hide Distinct, HasZombie, IsZombie;
    DistinctMore(t.exited, t.ps[p].pid);
    NewZombie(t'.ps, p);
    forall x | x in t'.exited ensures x in t'.reaped || IsZombie(t'.ps, x) {
      if x in t.exited && x !in t.reaped { ZombiesKept(t.ps, t'.ps, x); }
    }
  }

  lemma NewZombie(ps: seq<Proc>, p: int)
    requires 0 <= p < |ps| && ps[p].state == ZOMBIE
    ensures IsZombie(ps, ps[p].pid)
  {
  }

  lemma ParentNotSelf(t: Table, p: int)
    requires Parents(t.ps, t.init) && 0 <= p < |t.ps|
    ensures t.ps[p].parent != p
  {
    assert ParentOk(t.ps, t.init, p);
  }

  lemma ExitInv(t: Table, c: nat)
    requires Inv(t) && Enabled(t, Exit(c))
    ensures Inv(Apply(t, Exit(c)))
  {
    hide Parents, Forks, Waits, Holders, PidsLive, PidsDead, Exited, ExitStep;
    var t', p := Apply(t, Exit(c)), t.cpus[c];
    ParentNotSelf(t, p);
    ExitSlots(t.ps, p, t.init);
    ExitParents(t.ps, t'.ps, p, t.init);
    ExitForks(t.ps, t'.ps, p, t.init);
    ExitWaits(t.ps, t'.ps, p, t.init);
    ExitCpus(t.ps, t'.ps, t.cpus, c, t.init);
    ExitHolders(t, t', p, c);
    ExitPidsLive(t, t', p);
    ExitPidsDead(t, t', p);
  }

  /** wait by p emptied the slot of its zombie child k. */
  ghost predicate ReapStep(ps: seq<Proc>, qs: seq<Proc>, p: int, k: int) {
    && |qs| == |ps| && 0 <= p < |ps| && 0 <= k < |ps| && ps[p].state == RUNNING && ZombieOf(ps[k], p)
    && qs[p] == GoesOn(ps[p]) && qs[k] == EmptySlot(ps[k])
    && forall i {:trigger qs[i]} :: 0 <= i < |ps| && i != p && i != k ==> qs[i] == ps[i]
  }

  lemma ReapParents(ps: seq<Proc>, qs: seq<Proc>, p: int, k: int, init: nat)
    requires ReapStep(ps, qs, p, k) && Parents(ps, init)
    ensures Parents(qs, init)
  {
    forall i | 0 <= i < |qs| ensures ParentOk(qs, init, i) {
      assert ParentOk(ps, init, i);
    }
  }

  lemma ReapForksWaits(ps: seq<Proc>, qs: seq<Proc>, p: int, k: int)
    requires ReapStep(ps, qs, p, k) && Forks(ps) && Waits(ps)
    ensures Forks(qs) && Waits(qs)
  {
    forall w, z | 0 <= w < |qs| && 0 <= z < |qs| && qs[w].state == SLEEPING && qs[w].at == InWait
      ensures !ZombieOf(qs[z], w)
    {
      assert !ZombieOf(ps[z], w);
    }
  }

  lemma ReapPids(t: Table, t': Table, p: int, k: int)
    requires ReapStep(t.ps, t'.ps, p, k) && Pids(t)
    requires t'.reaped == t.reaped + [t.ps[k].pid] && t'.exited == t.exited && t'.nextpid == t.nextpid
    ensures Pids(t')
  {
    hide Distinct, IsZombie;
    DistinctMore(t.reaped, t.ps[k].pid);
    forall x | x in t'.exited ensures x in t'.reaped || IsZombie(t'.ps, x) {
      if x != t.ps[k].pid && x !in t.reaped { ZombiesKept(t.ps, t'.ps, x); }
    }
  }

  lemma ReapInv(t: Table, c: nat, k: nat)
    requires Inv(t) && Enabled(t, Reap(c, k))
    ensures Inv(Apply(t, Reap(c, k)))
  {
    hide Parents, Forks, Waits, Pids;
    var t', p := Apply(t, Reap(c, k)), t.cpus[c];
    SameCpus(t.ps, t'.ps, t.cpus);
    ReapParents(t.ps, t'.ps, p, k, t.init);
    ReapForksWaits(t.ps, t'.ps, p, k);
    ReapPids(t, t', p, k);
  }

  // ---- Runs ----

  /** The table as userinit leaves it: one process, ready to run. */
  ghost predicate Initial(t: Table) {
    && t.init < |t.ps|
    && t.ps[t.init] == Proc(RUNNABLE, 1, -1, NoChan, false, InForkret, NoFork)
    && (forall i :: 0 <= i < |t.ps| && i != t.init ==> t.ps[i] == Proc(UNUSED, 0, -1, NoChan, false, Anywhere, NoFork))
    && (forall c :: 0 <= c < |t.cpus| ==> t.cpus[c] == -1)
    && t.lock == Nobody && t.nextpid == 2 && t.exited == [] && t.reaped == []
  }

  /** Can the steps be taken one after the other? */
  predicate Runs(t: Table, steps: seq<Step>)
    decreases |steps|
  {
    steps == [] || (Enabled(t, steps[0]) && Runs(Apply(t, steps[0]), steps[1..]))
  }

  function Outcome(t: Table, steps: seq<Step>): Table
    requires Runs(t, steps)
    decreases |steps|
  {
    if steps == [] then t else Outcome(Apply(t, steps[0]), steps[1..])
  }

  lemma InitialInv(t: Table)
    requires Initial(t)
    ensures Inv(t)
  {
    forall i | 0 <= i < |t.ps| ensures ParentOk(t.ps, t.init, i) {
    }
  }

  lemma StepInv(t: Table, a: Step)
    requires Inv(t) && Enabled(t, a)
    ensures Inv(Apply(t, a))
  {
    hide Inv, Enabled, Apply;
    match a
    case TakeLock(_) => LockInv(t, a);
    case DropLock(_) => LockInv(t, a);
    case Dispatch(c, p) => DispatchInv(t, c, p);
    case Continue(_) => ContinueInv(t, a);
    case WaitFails(_) => ContinueInv(t, a);
    case Yield(_) => SwitchInv(t, a);
    case Sleep(_, _) => SwitchInv(t, a);
    case Wakeup(_) => WakeInv(t, a);
    case Kill(_, _) => WakeInv(t, a);
    case Alloc(c, np) => AllocInv(t, c, np);
    case ForkFails(_) => ForkInv(t, a);
    case SetParent(_) => ForkInv(t, a);
    case ForkDone(_) => ForkInv(t, a);
    case Exit(c) => ExitInv(t, c);
    case Reap(c, k) => ReapInv(t, c, k);
    case WaitSleeps(c) => WaitSleepsInv(t, c);
  }

  lemma {:induction false} RunInv(t: Table, steps: seq<Step>)
    requires Inv(t) && Runs(t, steps)
    ensures Inv(Outcome(t, steps))
    decreases |steps|
  {
    hide Inv, Enabled, Apply;
    if steps != [] {
      StepInv(t, steps[0]);
      RunInv(Apply(t, steps[0]), steps[1..]);
    }
  }

  /** In every reachable state: a forked process that is not yet UNUSED again has a
      parent that is neither UNUSED nor ZOMBIE; nobody sleeps in wait with a zombie
      child; and a process is RUNNING exactly when one CPU, and no other, holds it. */
  lemma Lifecycle(t: Table, steps: seq<Step>)
    requires Initial(t) && Runs(t, steps)
    ensures var ps, cpus := Outcome(t, steps).ps, Outcome(t, steps).cpus;
            && (forall i :: 0 <= i < |ps| && i != t.init && ps[i].state != UNUSED && ps[i].state != EMBRYO ==>
                  0 <= ps[i].parent < |ps| && Alive(ps[ps[i].parent]))
            && (forall w, k :: 0 <= w < |ps| && 0 <= k < |ps| && ps[w].state == SLEEPING && ps[w].at == InWait ==>
                  !(ps[k].state == ZOMBIE && ps[k].parent == w))
            && (forall p :: 0 <= p < |ps| ==>
                  (ps[p].state == RUNNING <==> exists c :: 0 <= c < |cpus| && cpus[c] == p))
            && (forall c, d :: 0 <= c < d < |cpus| && cpus[c] != -1 ==> cpus[c] != cpus[d])
  {
    hide Enabled, Apply, Pids, Holders, Forks;
    InitialInv(t);
    RunInv(t, steps);
    InitKept(t, steps);
    var t' := Outcome(t, steps);
    forall i | 0 <= i < |t'.ps| && i != t.init && t'.ps[i].state != UNUSED && t'.ps[i].state != EMBRYO
      ensures 0 <= t'.ps[i].parent < |t'.ps| && Alive(t'.ps[t'.ps[i].parent])
    {
      assert ParentOk(t'.ps, t'.init, i);
    }
    forall w, k | 0 <= w < |t'.ps| && 0 <= k < |t'.ps| && t'.ps[w].state == SLEEPING && t'.ps[w].at == InWait
      ensures !ZombieOf(t'.ps[k], w)
    {
    }
  }

  lemma {:induction false} InitKept(t: Table, steps: seq<Step>)
    requires Runs(t, steps)
    ensures Outcome(t, steps).init == t.init
    decreases |steps|
  {
    hide Enabled;
    if steps != [] {
      InitKept(Apply(t, steps[0]), steps[1..]);
    }
  }

  /** No pid is reaped twice or before it exited, and one that exited and is not
      reaped yet is a zombie whose parent is alive and not asleep in wait. */
  lemma ReapedOnce(t: Table, steps: seq<Step>)
    requires Initial(t) && Runs(t, steps)
    ensures var t' := Outcome(t, steps);
            && Distinct(t'.exited) && Distinct(t'.reaped)
            && (forall x :: x in t'.reaped ==> x in t'.exited)
            && (forall x :: x in t'.exited && x !in t'.reaped ==>
                  exists i :: 0 <= i < |t'.ps| && t'.ps[i].state == ZOMBIE && t'.ps[i].pid == x && Awaited(t'.ps, i))
  {
    hide Enabled, Apply, Holders, Forks, OnCpus, Distinct;
    InitialInv(t);
    RunInv(t, steps);
    var t' := Outcome(t, steps);
    forall x | x in t'.exited && x !in t'.reaped
      ensures exists i :: 0 <= i < |t'.ps| && t'.ps[i].state == ZOMBIE && t'.ps[i].pid == x && Awaited(t'.ps, i)
    {
      var i :| 0 <= i < |t'.ps| && t'.ps[i].state == ZOMBIE && t'.ps[i].pid == x;
      assert ParentOk(t'.ps, t'.init, i);
      assert ZombieOf(t'.ps[i], t'.ps[i].parent);
    }
  }

  /** The parent of slot i will look at it: it is alive and not asleep in wait. */
  predicate Awaited(ps: seq<Proc>, i: int)
    requires 0 <= i < |ps|
  {
    var w := ps[i].parent;
    0 <= w < |ps| && Alive(ps[w]) && !(ps[w].state == SLEEPING && ps[w].at == InWait)
  }

  // ---- One process at a time ----

  /** Step a is taken by process i. */
  predicate By(t: Table, a: Step, i: nat) {
    !a.Wakeup? && !a.Kill? && a.c < |t.cpus| && t.cpus[a.c] == i
  }

  /** Step a is taken by the process that is forking child i. */
  predicate ForkedBy(t: Table, a: Step, i: nat) {
    && !a.Wakeup? && !a.Kill? && a.c < |t.cpus| && 0 <= t.cpus[a.c] < |t.ps|
    && t.ps[t.cpus[a.c]].fork.Child? && t.ps[t.cpus[a.c]].fork.np == i
  }

  /** What ends the sleep of process i: a wakeup of its channel, kill, the exit of a
      child it waits for, or, for init, of a process that leaves it a zombie. */
  predicate Wakes(t: Table, a: Step, i: nat)
    requires Enabled(t, a) && i < |t.ps|
  {
    match a
    case Wakeup(chan) => t.ps[i].chan == chan
    case Kill(_, k) => k == i
    case Exit(c) =>
      var p := t.cpus[c];
      t.ps[i].chan == OnProc(t.ps[p].parent) || (t.ps[i].chan == OnProc(t.init) && HasZombie(t.ps, p))
    case _ => false
  }

  /** The state of process i after step a, by the state it is in. */
  function NextState(t: Table, a: Step, i: nat): ProcState
    requires Enabled(t, a) && i < |t.ps|
  {
    match t.ps[i].state
    case UNUSED => if a.Alloc? && a.np == i then EMBRYO else UNUSED
    case EMBRYO =>
      if ForkedBy(t, a, i) && a.ForkFails? then UNUSED
      else if ForkedBy(t, a, i) && a.ForkDone? then RUNNABLE
      else EMBRYO
    case RUNNABLE => if a.Dispatch? && a.p == i then RUNNING else RUNNABLE
    case RUNNING =>
      if !By(t, a, i) then RUNNING
      else if a.Yield? then RUNNABLE
      else if a.Sleep? || a.WaitSleeps? then SLEEPING
      else if a.Exit? then ZOMBIE
      else RUNNING
    case SLEEPING => if Wakes(t, a, i) then RUNNABLE else SLEEPING
    case ZOMBIE => if a.Reap? && a.k == i then UNUSED else ZOMBIE
  }

  lemma LifeExit(t: Table, c: nat, i: nat)
    requires Enabled(t, Exit(c)) && i < |t.ps| && OnCpus(t.ps, t.cpus)
    ensures |Apply(t, Exit(c)).ps| == |t.ps| && Apply(t, Exit(c)).ps[i].state == NextState(t, Exit(c), i)
    ensures Apply(t, Exit(c)).ps[i].chan == t.ps[i].chan
  {
    hide HasZombie, Exited;
    ExitSlots(t.ps, t.cpus[c], t.init);
  }

  predicate IsFork(a: Step) {
    a.Alloc? || a.ForkFails? || a.SetParent? || a.ForkDone?
  }

  /** The child that a step of fork is about. */
  function ForkChild(t: Table, a: Step): nat
    requires Enabled(t, a) && IsFork(a)
  {
    if a.Alloc? then a.np else t.ps[t.cpus[a.c]].fork.np
  }

  function ForkedProc(t: Table, a: Step, q: Proc): Proc
    requires Enabled(t, a) && IsFork(a)
  {
    match a
    case Alloc(_, _) => q.(state := EMBRYO, pid := t.nextpid)
    case ForkFails(_) => q.(state := UNUSED)
    case SetParent(c) => q.(parent := t.cpus[c])
    case _ => q.(state := RUNNABLE, at := InForkret)
  }

  /** A step of fork touches the child, and the parent's record of the fork. */
  lemma ForkSlots(t: Table, a: Step, i: nat)
    requires Enabled(t, a) && IsFork(a) && OnCpus(t.ps, t.cpus) && Forks(t.ps) && i < |t.ps|
    ensures var p, np, ps := t.cpus[a.c], ForkChild(t, a), Apply(t, a).ps;
            && |ps| == |t.ps| && np != p && np < |t.ps| && t.ps[p].state == RUNNING
            && t.ps[np].state == (if a.Alloc? then UNUSED else EMBRYO)
            && (i == np ==> ps[i] == ForkedProc(t, a, t.ps[i]))
            && (i == p ==> ps[i] == t.ps[i].(fork := ps[i].fork))
            && (i != np && i != p ==> ps[i] == t.ps[i])
  {
    hide HasZombie, HasChild;
    assert t.ps[t.cpus[a.c]].state == RUNNING;
  }

  lemma LifeFork(t: Table, a: Step, i: nat)
    requires Enabled(t, a) && i < |t.ps| && IsFork(a) && OnCpus(t.ps, t.cpus) && Forks(t.ps)
    ensures |Apply(t, a).ps| == |t.ps| && Apply(t, a).ps[i].state == NextState(t, a, i)
    ensures Apply(t, a).ps[i].chan == t.ps[i].chan
  {
    hide HasZombie, HasChild, Apply, OnCpus, Forks;
    ForkSlots(t, a, i);
  }

  lemma LifeWake(t: Table, a: Step, i: nat)
    requires Enabled(t, a) && i < |t.ps| && (a.Wakeup? || a.Kill?)
    ensures |Apply(t, a).ps| == |t.ps| && Apply(t, a).ps[i].state == NextState(t, a, i)
    ensures Apply(t, a).ps[i].chan == t.ps[i].chan
  {
  }

  /** Steps that take a process off its CPU or put one on it. */
  lemma LifeSwitch(t: Table, a: Step, i: nat)
    requires Enabled(t, a) && i < |t.ps| && OnCpus(t.ps, t.cpus)
    requires a.Dispatch? || a.Yield? || a.Sleep? || a.WaitSleeps?
    ensures |Apply(t, a).ps| == |t.ps| && Apply(t, a).ps[i].state == NextState(t, a, i)
    ensures Apply(t, a).ps[i].state == SLEEPING ==>
              Apply(t, a).ps[i].chan == (if t.ps[i].state == SLEEPING then t.ps[i].chan
                                         else if a.Sleep? then Other(a.id) else OnProc(i))
  {
    hide HasZombie, HasChild;
  }

  lemma ReapSlots(t: Table, c: nat, k: nat)
    requires Enabled(t, Reap(c, k)) && OnCpus(t.ps, t.cpus)
    ensures ReapStep(t.ps, Apply(t, Reap(c, k)).ps, t.cpus[c], k)
  {
  }

  /** Steps after which a process goes on, and those of the lock alone. */
  lemma LifeOn(t: Table, a: Step, i: nat)
    requires Enabled(t, a) && i < |t.ps| && OnCpus(t.ps, t.cpus)
    requires a.TakeLock? || a.DropLock? || a.Continue? || a.Reap? || a.WaitFails?
    ensures |Apply(t, a).ps| == |t.ps| && Apply(t, a).ps[i].state == NextState(t, a, i)
    ensures t.ps[i].state == SLEEPING ==> Apply(t, a).ps[i].chan == t.ps[i].chan
  {
    hide HasZombie, HasChild;
    if a.Continue? || a.WaitFails? {
      hide Apply, OnCpus;
      GoesOnStep(t, a);
    } else if a.Reap? {
      hide Apply, OnCpus, FirstZombie;
      ReapSlots(t, a.c, a.k);
    } else {
      hide OnCpus;
    }
  }

  /** The life of a process: these are the only changes of state there are, and while
      it sleeps its channel is the one it went to sleep on. */
  lemma LifeStep(t: Table, a: Step, i: nat)
    requires Inv(t) && Enabled(t, a) && i < |t.ps|
    ensures |Apply(t, a).ps| == |t.ps| && Apply(t, a).ps[i].state == NextState(t, a, i)
    ensures NextState(t, a, i) == SLEEPING ==>
              Apply(t, a).ps[i].chan == (if t.ps[i].state == SLEEPING then t.ps[i].chan
                                         else if a.Sleep? then Other(a.id) else OnProc(i))
  {
    hide Waits, Pids, Parents, HasZombie, HasChild, Forks, Apply, Holders, OnCpus;
    if a.Exit? {
      LifeExit(t, a.c, i);
    } else if IsFork(a) {
      LifeFork(t, a, i);
    } else if a.Wakeup? || a.Kill? {
      LifeWake(t, a, i);
    } else if a.Dispatch? || a.Yield? || a.Sleep? || a.WaitSleeps? {
      LifeSwitch(t, a, i);
    } else {
      LifeOn(t, a, i);
    }
  }

  lemma FamilyOther(t: Table, a: Step, i: nat)
    requires Enabled(t, a) && i < |t.ps| && !a.Exit? && !IsFork(a)
    ensures |Apply(t, a).ps| == |t.ps|
    ensures var p, q := t.ps[i], Apply(t, a).ps[i];
            if a.Reap? && a.k == i then q.pid == 0 && q.parent == -1 else q.pid == p.pid && q.parent == p.parent
  {
    hide HasZombie, HasChild;
  }

  /** Its pid is the next one from the time its slot is taken until it is reaped; its
      parent is the process that forked it, and init once that has exited. */
  lemma FamilyStep(t: Table, a: Step, i: nat)
    requires Inv(t) && Enabled(t, a) && i < |t.ps|
    ensures |Apply(t, a).ps| == |t.ps|
    ensures Apply(t, a).ps[i].pid
            == if a.Alloc? && a.np == i then t.nextpid else if a.Reap? && a.k == i then 0 else t.ps[i].pid
    ensures Apply(t, a).ps[i].parent
            == if a.SetParent? && ForkedBy(t, a, i) then t.cpus[a.c]
               else if a.Exit? && t.ps[i].parent == t.cpus[a.c] then t.init
               else if a.Reap? && a.k == i then -1
               else t.ps[i].parent
  {
    hide Waits, Pids, Parents, HasZombie, HasChild, Holders;
    if a.Exit? {
      hide Exited;
      ExitSlots(t.ps, t.cpus[a.c], t.init);
    } else if IsFork(a) {
      hide Apply, OnCpus, Forks;
      ForkSlots(t, a, i);
    } else {
      hide Apply, OnCpus, Forks;
      FamilyOther(t, a, i);
    }
  }

  // ---- Channels ----

  /** A process has a channel only from going to sleep until it goes on. */
  predicate ChanOk(p: Proc) {
    && (p.chan != NoChan ==> p.at == InSleep || p.at == InWait)
    && (p.state == SLEEPING ==> p.chan != NoChan)
  }

  ghost predicate Chans(ps: seq<Proc>) {
    forall i {:trigger ps[i]} :: 0 <= i < |ps| ==> ChanOk(ps[i])
  }

  lemma ChansExit(t: Table, c: nat)
    requires Enabled(t, Exit(c)) && OnCpus(t.ps, t.cpus) && Chans(t.ps)
    ensures Chans(Apply(t, Exit(c)).ps)
  {
    hide HasZombie, Exited;
    ExitSlots(t.ps, t.cpus[c], t.init);
  }

  lemma ChansFork(t: Table, a: Step)
    requires Enabled(t, a) && IsFork(a) && OnCpus(t.ps, t.cpus) && Forks(t.ps) && Chans(t.ps) && DeadChans(t.ps)
    ensures Chans(Apply(t, a).ps) && DeadChans(Apply(t, a).ps)
  {
    hide Apply, OnCpus, Forks, HasZombie, HasChild;
    ForkSlots(t, a, t.cpus[a.c]);
    forall i | 0 <= i < |t.ps| ensures ChanOk(Apply(t, a).ps[i])
                                       && (!Alive(Apply(t, a).ps[i]) ==> Apply(t, a).ps[i].chan == NoChan) {
      ForkSlots(t, a, i);
    }
  }

  /** Slots that no process runs in have no channel. */
  ghost predicate DeadChans(ps: seq<Proc>) {
    forall i {:trigger ps[i]} :: 0 <= i < |ps| && !Alive(ps[i]) ==> ps[i].chan == NoChan
  }

  lemma ChansOther(t: Table, a: Step)
    requires Enabled(t, a) && !a.Exit? && !IsFork(a) && OnCpus(t.ps, t.cpus) && Chans(t.ps)
    ensures Chans(Apply(t, a).ps)
  {
    hide HasZombie, HasChild;
  }

  lemma DeadChansExit(t: Table, c: nat)
    requires Enabled(t, Exit(c)) && OnCpus(t.ps, t.cpus) && Chans(t.ps) && DeadChans(t.ps)
    ensures DeadChans(Apply(t, Exit(c)).ps)
  {
    hide HasZombie, Exited;
    ExitSlots(t.ps, t.cpus[c], t.init);
  }

  lemma DeadChansOther(t: Table, a: Step)
    requires Enabled(t, a) && !a.Exit? && !IsFork(a) && OnCpus(t.ps, t.cpus) && DeadChans(t.ps)
    ensures DeadChans(Apply(t, a).ps)
  {
    hide HasZombie, HasChild;
  }

  lemma {:induction false} RunChans(t: Table, steps: seq<Step>)
    requires Inv(t) && Runs(t, steps) && Chans(t.ps) && DeadChans(t.ps)
    ensures Chans(Outcome(t, steps).ps)
    decreases |steps|
  {
    hide Enabled, Apply, Chans, DeadChans, Parents, Waits, Holders, Pids, OnCpus, Forks;
    if steps != [] {
      var a := steps[0];
      if a.Exit? {
        ChansExit(t, a.c);
        DeadChansExit(t, a.c);
      } else if IsFork(a) {
        ChansFork(t, a);
      } else {
        ChansOther(t, a);
        DeadChansOther(t, a);
      }
      StepInv(t, a);
      RunChans(Apply(t, a), steps[1..]);
    }
  }

  /** In every reachable state a sleeper has a channel, and nobody else has one but a
      process that has been woken in sleep and not gone on yet: no later wakeup can
      mistake a process for a sleeper on a channel it has left. */
  lemma ChannelsClear(t: Table, steps: seq<Step>, i: nat)
    requires Initial(t) && Runs(t, steps) && i < |Outcome(t, steps).ps|
    ensures var p := Outcome(t, steps).ps[i];
            && (p.state == SLEEPING ==> p.chan != NoChan)
            && (p.chan != NoChan ==> p.at == InSleep || p.at == InWait)
  {
    hide Enabled, Apply, Inv;
    InitialInv(t);
    RunChans(t, steps);
    assert ChanOk(Outcome(t, steps).ps[i]);
  }

  // ---- kill ----

  /** Step j is a kill of slot i that no later step undoes. */
  predicate KilledAt(steps: seq<Step>, i: nat, j: int) {
    && 0 <= j < |steps| && steps[j].Kill? && steps[j].k == i
    && forall m :: j < m < |steps| ==> !(steps[m].Reap? && steps[m].k == i)
  }

  /** Slot i has been killed and not been emptied since. */
  ghost predicate KilledSince(steps: seq<Step>, i: nat) {
    exists j :: KilledAt(steps, i, j)
  }

  predicate Reaps(steps: seq<Step>, i: nat) {
    exists m :: 0 <= m < |steps| && steps[m].Reap? && steps[m].k == i
  }

  lemma KillStep(t: Table, a: Step, i: nat)
    requires Enabled(t, a) && i < |t.ps|
    ensures |Apply(t, a).ps| == |t.ps|
    ensures Apply(t, a).ps[i].killed <==>
              (a.Kill? && a.k == i) || (t.ps[i].killed && !(a.Reap? && a.k == i))
  {
    hide HasZombie, HasChild, Woken, Abandoned;
  }

  lemma KilledLater(a: Step, steps: seq<Step>, i: nat, j: int)
    requires j >= 0
    ensures KilledAt([a] + steps, i, j + 1) <==> KilledAt(steps, i, j)
  {
    var all := [a] + steps;
    if KilledAt(all, i, j + 1) {
      forall m | j < m < |steps| ensures !(steps[m].Reap? && steps[m].k == i) {
        assert all[m + 1] == steps[m];
      }
    }
  }

  lemma KilledFirst(a: Step, steps: seq<Step>, i: nat)
    ensures KilledAt([a] + steps, i, 0) <==> a.Kill? && a.k == i && !Reaps(steps, i)
  {
    var all := [a] + steps;
    assert forall m :: 0 <= m < |steps| ==> all[m + 1] == steps[m];
    assert forall m :: 0 < m < |all| ==> all[m] == steps[m - 1];
  }

  lemma KilledSinceMore(a: Step, steps: seq<Step>, i: nat)
    ensures KilledSince([a] + steps, i) <==> KilledSince(steps, i) || (a.Kill? && a.k == i && !Reaps(steps, i))
  {
    hide KilledAt, Reaps;
    KilledFirst(a, steps, i);
    if j :| KilledAt(steps, i, j) {
      KilledStarts(steps, i, j);
      KilledLater(a, steps, i, j);
    }
    if j :| KilledAt([a] + steps, i, j) {
      KilledStarts([a] + steps, i, j);
      if j > 0 { KilledLater(a, steps, i, j - 1); }
    }
  }

  lemma KilledStarts(steps: seq<Step>, i: nat, j: int)
    requires KilledAt(steps, i, j)
    ensures 0 <= j
  {
  }

  lemma ReapsMore(a: Step, steps: seq<Step>, i: nat)
    ensures Reaps([a] + steps, i) <==> Reaps(steps, i) || (a.Reap? && a.k == i)
  {
    var all := [a] + steps;
    assert all[0] == a;
    if m :| 0 <= m < |steps| && steps[m].Reap? && steps[m].k == i { assert all[m + 1] == steps[m]; }
    if m :| 0 <= m < |all| && all[m].Reap? && all[m].k == i {
      if m > 0 { assert steps[m - 1] == all[m]; }
    }
  }

  lemma {:induction false} KilledFrom(t: Table, steps: seq<Step>, i: nat)
    requires Runs(t, steps) && i < |t.ps|
    ensures |Outcome(t, steps).ps| == |t.ps|
    ensures Outcome(t, steps).ps[i].killed <==> KilledSince(steps, i) || (t.ps[i].killed && !Reaps(steps, i))
    decreases |steps|
  {
    hide Enabled, Apply, KilledSince, Reaps;
    if steps == [] {
      assert !KilledSince([], i) && !Reaps([], i) by { NothingKilled(i); }
    } else {
      var a, rest := steps[0], steps[1..];
      assert steps == [a] + rest;
      KillStep(t, a, i);
      KilledFrom(Apply(t, a), rest, i);
      KilledSinceMore(a, rest, i);
      ReapsMore(a, rest, i);
    }
  }

  lemma NothingKilled(i: nat)
    ensures !KilledSince([], i) && !Reaps([], i)
  {
  }

  /** Nobody who has been killed is asleep in wait. */
  ghost predicate WaitersUnkilled(ps: seq<Proc>) {
    forall i {:trigger ps[i]} :: 0 <= i < |ps| ==> !(ps[i].killed && ps[i].state == SLEEPING && ps[i].at == InWait)
  }

  /** A sleeper stays where it sleeps. */
  lemma ResumeKept(t: Table, a: Step, i: nat)
    requires Enabled(t, a) && (a.Exit? || IsFork(a)) && OnCpus(t.ps, t.cpus) && Forks(t.ps) && i < |t.ps|
    ensures |Apply(t, a).ps| == |t.ps| && (t.ps[i].state == SLEEPING ==> Apply(t, a).ps[i].at == t.ps[i].at)
  {
    hide Apply, HasZombie, HasChild, Exited;
    if a.Exit? {
      ExitSlotsOf(t, a.c);
    } else {
      ForkSlots(t, a, i);
    }
  }

  lemma ExitSlotsOf(t: Table, c: nat)
    requires Enabled(t, Exit(c)) && OnCpus(t.ps, t.cpus)
    ensures ExitStep(t.ps, Apply(t, Exit(c)).ps, t.cpus[c], t.init)
  {
    hide HasZombie, Exited;
    ExitSlots(t.ps, t.cpus[c], t.init);
  }

  lemma ResumeKeptOther(t: Table, a: Step, i: nat)
    requires Enabled(t, a) && OnCpus(t.ps, t.cpus) && i < |t.ps| && !a.Exit? && !IsFork(a) && !a.Kill? && !a.Wakeup?
    requires !a.WaitSleeps? && !a.Sleep?
    ensures |Apply(t, a).ps| == |t.ps| && (t.ps[i].state == SLEEPING ==> Apply(t, a).ps[i].at == t.ps[i].at)
  {
    hide HasZombie, HasChild;
  }

  /** Neither kill nor wait leaves a killed process asleep in wait. */
  lemma StillUnkilled(t: Table, a: Step, i: nat)
    requires Inv(t) && Enabled(t, a) && i < |t.ps|
    requires !(t.ps[i].killed && t.ps[i].state == SLEEPING && t.ps[i].at == InWait)
    ensures |Apply(t, a).ps| == |t.ps|
    ensures var p := Apply(t, a).ps[i]; !(p.killed && p.state == SLEEPING && p.at == InWait)
  {
    hide Waits, Pids, Parents, HasZombie, HasChild, OnCpus, Forks, Holders;
    if a.Exit? || IsFork(a) {
      hide Apply;
      KillStep(t, a, i);
      LifeStep(t, a, i);
      ResumeKept(t, a, i);
    } else if !a.Kill? && !a.Wakeup? && !a.WaitSleeps? && !a.Sleep? {
      hide Apply;
      KillStep(t, a, i);
      LifeStep(t, a, i);
      ResumeKeptOther(t, a, i);
    }
  }

  lemma StepUnkilled(t: Table, a: Step)
    requires Inv(t) && Enabled(t, a) && WaitersUnkilled(t.ps)
    ensures WaitersUnkilled(Apply(t, a).ps)
  {
    hide Waits, Pids, ParentOk, HasZombie, HasChild, OnCpus, Forks, Apply, Holders;
    KillStep(t, a, t.init);
    forall i | 0 <= i < |t.ps|
      ensures !(Apply(t, a).ps[i].killed && Apply(t, a).ps[i].state == SLEEPING && Apply(t, a).ps[i].at == InWait)
    {
      StillUnkilled(t, a, i);
    }
  }

  lemma {:induction false} RunUnkilled(t: Table, steps: seq<Step>)
    requires Inv(t) && Runs(t, steps) && WaitersUnkilled(t.ps)
    ensures WaitersUnkilled(Outcome(t, steps).ps)
    decreases |steps|
  {
    hide Inv, Enabled, Apply, WaitersUnkilled;
    if steps != [] {
      StepUnkilled(t, steps[0]);
      StepInv(t, steps[0]);
      RunUnkilled(Apply(t, steps[0]), steps[1..]);
    }
  }

  /** In every reachable state a slot is marked killed exactly if kill found it and
      wait has not emptied it since, and nobody so marked is asleep in wait: kill wakes
      it, and wait does not put it back. */
  lemma KillTakesHold(t: Table, steps: seq<Step>, i: nat)
    requires Initial(t) && Runs(t, steps) && i < |t.ps|
    ensures var ps := Outcome(t, steps).ps;
            && |ps| == |t.ps|
            && (ps[i].killed <==> KilledSince(steps, i))
            && (ps[i].killed ==> !(ps[i].state == SLEEPING && ps[i].at == InWait))
  {
    hide Enabled, Apply, KilledSince, Inv;
    InitialInv(t);
    KilledFrom(t, steps, i);
    RunUnkilled(t, steps);
  }

  // ---- A whole life ----

  lemma OneMore(t: Table, a: Step, rest: seq<Step>)
    requires Enabled(t, a) && Runs(Apply(t, a), rest)
    ensures Runs(t, [a] + rest) && Outcome(t, [a] + rest) == Outcome(Apply(t, a), rest)
  {
    hide Enabled, Apply;
    assert ([a] + rest)[1..] == rest;
  }

  /** A scheduler runs the first process. */
  lemma InitRuns(t: Table, c: nat)
    requires Initial(t) && c < |t.cpus|
    ensures var steps := [TakeLock(c)] + ([Dispatch(c, t.init)] + ([Continue(c)] + []));
            && Runs(t, steps)
            && Outcome(t, steps)
               == t.(ps := t.ps[t.init := t.ps[t.init].(state := RUNNING, at := Anywhere)], cpus := t.cpus[c := t.init])
  {
    var t1 := t.(lock := Scheduler(c));
    var t2 := t1.(ps := t.ps[t.init := t.ps[t.init].(state := RUNNING)], cpus := t.cpus[c := t.init],
                  lock := Process(t.init));
    var t3 := t.(ps := t.ps[t.init := t.ps[t.init].(state := RUNNING, at := Anywhere)], cpus := t.cpus[c := t.init]);
    assert Apply(t2, Continue(c)) == t3;
    OneMore(t2, Continue(c), []);
    assert Apply(t1, Dispatch(c, t.init)) == t2;
    OneMore(t1, Dispatch(c, t.init), [Continue(c)] + []);
    OneMore(t, TakeLock(c), [Dispatch(c, t.init)] + ([Continue(c)] + []));
  }

  /** The scheduler of CPU c picks p, and it goes on. */
  lemma Resumes(t: Table, c: nat, p: nat)
    requires c < |t.cpus| && p < |t.ps| && t.lock == Scheduler(c) && t.ps[p].state == RUNNABLE && t.ps[p].at != InWait
    ensures var steps := [Dispatch(c, p)] + ([Continue(c)] + []);
            && Runs(t, steps)
            && Outcome(t, steps) == t.(ps := t.ps[p := GoesOn(t.ps[p].(state := RUNNING))], cpus := t.cpus[c := p],
                                       lock := Nobody)
  {
    var u := t.(ps := t.ps[p := t.ps[p].(state := RUNNING)], cpus := t.cpus[c := p], lock := Process(p));
    var v := t.(ps := t.ps[p := GoesOn(t.ps[p].(state := RUNNING))], cpus := t.cpus[c := p], lock := Nobody);
    assert Apply(u, Continue(c)).ps == v.ps;
    assert Apply(t, Dispatch(c, p)) == u;
    OneMore(u, Continue(c), []);
    OneMore(t, Dispatch(c, p), [Continue(c)] + []);
  }

  /** A process that yields and is picked again finds everything as it was. */
  lemma YieldReturns(t: Table, c: nat)
    requires Entering(t, c) && t.ps[t.cpus[c]].state == RUNNING
    ensures var steps := [Yield(c)] + ([Dispatch(c, t.cpus[c])] + ([Continue(c)] + []));
            Runs(t, steps) && Outcome(t, steps) == t
  {
    var p := t.cpus[c];
    var u := Switched(t, c, t.ps[p].(state := RUNNABLE, at := InYield));
    Resumes(u, c, p);
    assert u.ps[p := t.ps[p]] == t.ps && u.cpus[c := p] == t.cpus;
    OneMore(t, Yield(c), [Dispatch(c, p)] + ([Continue(c)] + []));
  }

  /** CPU c's process asleep on id. */
  function Slept(t: Table, c: nat, id: int): Table
    requires c < |t.cpus| && 0 <= t.cpus[c] < |t.ps|
  {
    Switched(t, c, t.ps[t.cpus[c]].(state := SLEEPING, chan := Other(id), at := InSleep))
  }

  lemma WokenSet(ps: seq<Proc>, chan: Chan, i: nat, q: Proc)
    requires i < |ps|
    ensures Woken(Set(ps, i, q), chan) == Set(Woken(ps, chan), i, WokenOne(q, chan))
  {
  }

  /** Asleep with the lock free, and woken. */
  lemma SleepSteps(t: Table, c: nat, id: int)
    requires Entering(t, c) && t.ps[t.cpus[c]].state == RUNNING
    ensures var u := Slept(t, c, id);
            && Enabled(t, Sleep(c, id)) && Apply(t, Sleep(c, id)) == u
            && Enabled(u, DropLock(c)) && Apply(u, DropLock(c)) == u.(lock := Nobody)
  {
  }

  lemma WakeSteps(u: Table, c: nat, chan: Chan)
    requires u.lock == Nobody && c < |u.cpus| && u.cpus[c] == -1
    ensures Enabled(u, Wakeup(chan)) && Apply(u, Wakeup(chan)) == u.(ps := Woken(u.ps, chan))
    ensures var v := u.(ps := Woken(u.ps, chan));
            Enabled(v, TakeLock(c)) && Apply(v, TakeLock(c)) == v.(lock := Scheduler(c))
  {
  }

  /** A process that sleeps, is woken by its channel and picked again goes on where it
      was; the wakeup has made the other sleepers on the channel runnable, no more. */
  lemma SleepAndWake(t: Table, c: nat, id: int)
    requires Entering(t, c) && t.ps[t.cpus[c]].state == RUNNING && t.ps[t.cpus[c]].chan == NoChan
    ensures var rest := [Dispatch(c, t.cpus[c])] + ([Continue(c)] + []);
            var steps := [Sleep(c, id)] + ([DropLock(c)] + ([Wakeup(Other(id))] + ([TakeLock(c)] + rest)));
            Runs(t, steps) && Outcome(t, steps) == t.(ps := Woken(t.ps, Other(id)))
  {
    hide Runs, Outcome, Woken, Enabled, Apply;
    var p, chan := t.cpus[c], Other(id);
    var rest := [Dispatch(c, p)] + ([Continue(c)] + []);
    var q := t.ps[p].(state := SLEEPING, chan := chan, at := InSleep);
    var u1 := Slept(t, c, id);
    var u2 := u1.(lock := Nobody);
    SleepSteps(t, c, id);
    WakeSteps(u2, c, chan);
    WokenSet(t.ps, chan, p, q);
    var u3 := u2.(ps := Woken(u2.ps, chan));
    var u4 := u3.(lock := Scheduler(c));
    Resumes(u4, c, p);
    assert u4.ps[p := t.ps[p]] == Woken(t.ps, chan) && u4.cpus[c := p] == t.cpus;
    OneMore(u3, TakeLock(c), rest);
    OneMore(u2, Wakeup(chan), [TakeLock(c)] + rest);
    OneMore(u1, DropLock(c), [Wakeup(chan)] + ([TakeLock(c)] + rest));
    OneMore(t, Sleep(c, id), [DropLock(c)] + ([Wakeup(chan)] + ([TakeLock(c)] + rest)));
  }

  /** The table with child np of fork by p as q and the fork as far as f. */
  function Forking(t: Table, p: int, np: nat, q: Proc, f: Fork): Table
    requires 0 <= p < |t.ps| && np < |t.ps|
  {
    t.(ps := Set(Set(t.ps, np, q), p, t.ps[p].(fork := f)), nextpid := t.nextpid + 1)
  }

  lemma ForkStarts(t: Table, c: nat, np: nat)
    requires Entering(t, c) && t.ps[t.cpus[c]].fork == NoFork && FirstUnused(t.ps, np) && np != t.cpus[c]
    ensures Enabled(t, Alloc(c, np))
    ensures Apply(t, Alloc(c, np))
            == Forking(t, t.cpus[c], np, t.ps[np].(state := EMBRYO, pid := t.nextpid), Child(np, false))
  {
    hide FirstUnused;
  }

  lemma ForkLinks(t: Table, c: nat, np: nat, q: Proc)
    requires Entering(t, c) && np < |t.ps| && np != t.cpus[c]
    ensures var p := t.cpus[c];
            var u := Forking(t, p, np, q, Child(np, false));
            Enabled(u, SetParent(c)) && Apply(u, SetParent(c)) == Forking(t, p, np, q.(parent := p), Child(np, true))
  {
    var u := Forking(t, t.cpus[c], np, q, Child(np, false));
    assert Apply(u, SetParent(c)).ps == Forking(t, t.cpus[c], np, q.(parent := t.cpus[c]), Child(np, true)).ps;
  }

  lemma ForkEnds(t: Table, c: nat, np: nat, q: Proc)
    requires Entering(t, c) && np < |t.ps| && np != t.cpus[c]
    ensures var u := Forking(t, t.cpus[c], np, q, Child(np, true));
            && Enabled(u, ForkDone(c))
            && Apply(u, ForkDone(c)) == Forking(t, t.cpus[c], np, q.(state := RUNNABLE, at := InForkret), NoFork)
  {
    var u := Forking(t, t.cpus[c], np, q, Child(np, true));
    assert Apply(u, ForkDone(c)).ps
        == Forking(t, t.cpus[c], np, q.(state := RUNNABLE, at := InForkret), NoFork).ps;
  }

  /** fork, uninterrupted: the first UNUSED slot is a new process, ready to run, with a
      new pid and the caller as its parent; nothing else has changed. */
  lemma ForkMakesChild(t: Table, c: nat, np: nat)
    requires Entering(t, c) && t.ps[t.cpus[c]].fork == NoFork && FirstUnused(t.ps, np) && np != t.cpus[c]
    ensures var steps := [Alloc(c, np)] + ([SetParent(c)] + ([ForkDone(c)] + []));
            var child := t.ps[np].(state := RUNNABLE, pid := t.nextpid, parent := t.cpus[c], at := InForkret);
            Runs(t, steps) && Outcome(t, steps) == t.(ps := t.ps[np := child], nextpid := t.nextpid + 1)
  {
    hide Enabled, Apply;
    var p := t.cpus[c];
    var q1 := t.ps[np].(state := EMBRYO, pid := t.nextpid);
    var q2 := q1.(parent := p);
    var q3 := q2.(state := RUNNABLE, at := InForkret);
    ForkStarts(t, c, np);
    ForkLinks(t, c, np, q1);
    ForkEnds(t, c, np, q2);
    assert Forking(t, p, np, q3, NoFork).ps == t.ps[np := q3];
    OneMore(Forking(t, p, np, q2, Child(np, true)), ForkDone(c), []);
    OneMore(Forking(t, p, np, q1, Child(np, false)), SetParent(c), [ForkDone(c)] + []);
    OneMore(t, Alloc(c, np), [SetParent(c)] + ([ForkDone(c)] + []));
  }

  /** CPU c runs a child whose parent is asleep in wait, and it leaves that parent no
      zombies but itself. */
  ghost predicate AwaitedChild(t: Table, c: nat) {
    && Enabled(t, Exit(c)) && 0 <= t.ps[t.cpus[c]].parent < |t.ps|
    && var w := t.ps[t.cpus[c]].parent;
       && t.ps[w].state == SLEEPING && t.ps[w].at == InWait && t.ps[w].fork == NoFork
       && (w == t.init ==> !HasZombie(t.ps, t.cpus[c]))
  }

  /** The scheduler of CPU c can run w, which will find its zombie p first. */
  ghost predicate ReadyToReap(u: Table, c: nat, w: nat, p: nat) {
    && w != p && Enabled(u, Dispatch(c, w)) && FirstZombie(u.ps, w, p)
    && u.ps[w].at == InWait && u.ps[w].fork == NoFork
  }

  /** From t to u, w has reaped p on CPU c. */
  ghost predicate ReapedBy(t: Table, u: Table, c: nat, w: nat, p: nat) {
    && p < |t.ps| == |u.ps| && w < |u.ps| && c < |t.cpus|
    && u.reaped == t.reaped + [t.ps[p].pid] && u.cpus == t.cpus[c := w]
    && u.ps[p].state == UNUSED && u.ps[w].state == RUNNING && u.lock == Nobody
  }

  /** From t to u, the child on CPU c has exited. */
  ghost predicate ExitedReady(t: Table, u: Table, c: nat) {
    && c < |t.cpus| && 0 <= t.cpus[c] < |t.ps| == |u.ps| && 0 <= t.ps[t.cpus[c]].parent
    && ReadyToReap(u, c, t.ps[t.cpus[c]].parent, t.cpus[c]) && u.cpus == t.cpus[c := -1] && u.reaped == t.reaped
    && u.ps[t.cpus[c]].pid == t.ps[t.cpus[c]].pid
  }

  lemma ExitWakes(t: Table, c: nat)
    requires Inv(t) && AwaitedChild(t, c)
    ensures ExitedReady(t, Apply(t, Exit(c)), c)
  {
    hide HasZombie, Exited, Pids, Forks, Holders;
    var p := t.cpus[c];
    var w := t.ps[p].parent;
    ParentNotSelf(t, p);
    ExitSlots(t.ps, p, t.init);
    var qs := Exited(t.ps, p, t.init);
    forall k | 0 <= k < p ensures !ZombieOf(qs[k], w) {
      assert !ZombieOf(t.ps[k], w);
      if ZombieOf(t.ps[k], p) { assert HasZombie(t.ps, p) by { SomeZombie(t.ps, k, p); } }
    }
  }

  lemma SomeZombie(ps: seq<Proc>, k: nat, p: int)
    requires k < |ps| && ZombieOf(ps[k], p)
    ensures HasZombie(ps, p)
  {
  }

  lemma ReapAfterwards(u: Table, c: nat, w: nat, p: nat)
    requires ReadyToReap(u, c, w, p)
    ensures var v := Apply(u, Dispatch(c, w));
            Enabled(v, Reap(c, p)) && ReapedBy(u, Apply(v, Reap(c, p)), c, w, p)
  {
    var v := Apply(u, Dispatch(c, w));
    assert FirstZombie(v.ps, w, p);
  }

  /** CPU c runs p, whose parent is w. */
  predicate IsChild(t: Table, c: nat, p: nat, w: nat) {
    c < |t.cpus| && t.cpus[c] == p < |t.ps| && t.ps[p].parent == w
  }

  /** p exits on CPU c, and its parent w, run next, reaps it. */
  ghost predicate ChildReaped(t: Table, c: nat, p: nat, w: nat) {
    var steps := [Exit(c)] + ([Dispatch(c, w)] + ([Reap(c, p)] + []));
    Runs(t, steps) && ReapedBy(t, Outcome(t, steps), c, w, p)
  }

  /** exit by a child whose parent is asleep in wait, and the parent run next: wait
      returns the child's pid and its slot is free again. */
  lemma ExitIsReaped(t: Table, c: nat, p: nat, w: nat)
    requires Inv(t) && AwaitedChild(t, c) && IsChild(t, c, p, w)
    ensures ChildReaped(t, c, p, w)
  {
    hide Apply, Inv, HasZombie, FirstZombie;
    ExitWakes(t, c);
    var u := Apply(t, Exit(c));
    ReapAfterwards(u, c, w, p);
    var v := Apply(u, Dispatch(c, w));
    assert t.cpus[c := -1][c := w] == t.cpus[c := w];
    OneMore(v, Reap(c, p), []);
    OneMore(u, Dispatch(c, w), [Reap(c, p)] + []);
    OneMore(t, Exit(c), [Dispatch(c, w)] + ([Reap(c, p)] + []));
  }

  // ---- The loops of proc.c ----

  datatype WaitResult = Pid(pid: nat) | Failed | Asleep

  class Ptable {
    var ps: seq<Proc>
    var cpus: seq<int>
    var lock: Lock
    var nextpid: nat
    const init: nat
    ghost var exited: seq<nat>
    ghost var reaped: seq<nat>

    ghost function Now(): Table
      reads this
    {
      Table(ps, cpus, lock, nextpid, init, exited, reaped)
    }

    method Wakeup1(chan: Chan)
      modifies this`ps
      ensures ps == Woken(old(ps), chan)
    {
      var i := 0;
      while i < |ps|
        invariant 0 <= i <= |ps| == |old(ps)|
        invariant forall j {:trigger ps[j]} :: 0 <= j < |ps| ==>
                    ps[j] == if j < i then WokenOne(old(ps)[j], chan) else old(ps)[j]
      {
        if ps[i].state == SLEEPING && ps[i].chan == chan {
          ps := ps[i := ps[i].(state := RUNNABLE)];
        }
        i := i + 1;
      }
    }

    /** allocproc's critical section, on behalf of a fork by CPU c's process. */
    method Allocproc(c: nat) returns (np: int)
      requires Entering(Now(), c) && ps[cpus[c]].fork == NoFork && ps[cpus[c]].state != UNUSED
      modifies this
      ensures np == -1 ==> Now() == old(Now()) && forall i :: 0 <= i < |ps| ==> ps[i].state != UNUSED
      ensures np != -1 ==> np >= 0 && Enabled(old(Now()), Alloc(c, np)) && Now() == Apply(old(Now()), Alloc(c, np))
    {
      np := 0;
      while np < |ps|
        invariant 0 <= np <= |ps|
        invariant forall i :: 0 <= i < np ==> ps[i].state != UNUSED
      {
        if ps[np].state == UNUSED {
          ps := ps[np := ps[np].(state := EMBRYO, pid := nextpid)];
          nextpid := nextpid + 1;
          ps := ps[cpus[c] := ps[cpus[c]].(fork := Child(np, false))];
          return;
        }
        np := np + 1;
      }
      np := -1;
    }

    /** exit's loop: pass abandoned children to init. */
    method Reparent(p: int)
      requires p != init
      modifies this`ps
      ensures ps == Abandoned(old(ps), p, init)
    {
      ghost var base, wake := ps, false;
      var i := 0;
      while i < |ps|
        invariant 0 <= i <= |ps| == |base|
        invariant wake == exists k :: 0 <= k < i && ZombieOf(base[k], p)
        invariant forall j {:trigger ps[j]} :: 0 <= j < |ps| ==>
                    ps[j] == if j < i then AbandonedOne(base[j], p, init, wake)
                             else if wake then WokenOne(base[j], OnProc(init)) else base[j]
      {
        if ps[i].parent == p {
          ps := ps[i := ps[i].(parent := init)];
          if ps[i].state == ZOMBIE {
            Wakeup1(OnProc(init));
            assert ZombieOf(base[i], p);
            wake := true;
          }
        }
        i := i + 1;
      }
      assert wake == HasZombie(base, p);
    }

    /** exit; a panic if init calls it. */
    method ExitProcess(c: nat) returns (ok: bool)
      requires Entering(Now(), c) && ps[cpus[c]].fork == NoFork
      modifies this
      ensures ok <==> old(cpus)[c] != init
      ensures ok ==> Enabled(old(Now()), Exit(c)) && Now() == Apply(old(Now()), Exit(c))
      ensures !ok ==> Now() == old(Now())
    {
      var p := cpus[c];
      if p == init { return false; }
      Wakeup1(OnProc(ps[p].parent));
      Reparent(p);
      ps := ps[p := ps[p].(state := ZOMBIE)];
      exited := exited + [ps[p].pid];
      cpus := cpus[c := -1];
      lock := Scheduler(c);
      ok := true;
    }

    /** wait's scan: the first zombie child of p, if there is one, and whether it has
        children. */
    method ScanChildren(p: int) returns (k: int, havekids: bool)
      ensures k != -1 ==> 0 <= k < |ps| && FirstZombie(ps, p, k)
      ensures k == -1 ==> !HasZombie(ps, p) && havekids == HasChild(ps, p)
    {
      havekids := false;
      k := 0;
      while k < |ps|
        invariant 0 <= k <= |ps|
        invariant forall i :: 0 <= i < k ==> !ZombieOf(ps[i], p)
        invariant havekids == exists i :: 0 <= i < k && ps[i].parent == p
      {
        if ps[k].parent == p {
          havekids := true;
          if ps[k].state == ZOMBIE { return; }
        }
        k := k + 1;
      }
      k := -1;
    }

    method ReapChild(c: nat, k: nat)
      requires Scanning(Now(), c) && k < |ps| && FirstZombie(ps, cpus[c], k)
      modifies this
      ensures Enabled(old(Now()), Reap(c, k)) && Now() == Apply(old(Now()), Reap(c, k))
    {
      var p, pid := cpus[c], ps[k].pid;
      ps := ps[k := EmptySlot(ps[k])];
      ps := ps[p := GoesOn(ps[p])];
      lock := Nobody;
      reaped := reaped + [pid];
    }

    method WaitInVain(c: nat)
      requires Enabled(Now(), WaitFails(c))
      modifies this
      ensures Now() == Apply(old(Now()), WaitFails(c))
    {
      ps := ps[cpus[c] := GoesOn(ps[cpus[c]])];
      lock := Nobody;
    }

    method WaitAsleep(c: nat)
      requires Enabled(Now(), WaitSleeps(c))
      modifies this
      ensures Now() == Apply(old(Now()), WaitSleeps(c))
    {
      var p := cpus[c];
      ps := ps[p := ps[p].(state := SLEEPING, chan := OnProc(p), at := InWait)];
      cpus := cpus[c := -1];
      lock := Scheduler(c);
    }

    /** One turn of wait's outer loop: a zombie child's slot is emptied and its pid
        returned, or there is nothing to wait for, or the process goes to sleep. */
    method Wait(c: nat) returns (r: WaitResult)
      requires Scanning(Now(), c)
      modifies this
      ensures match r
              case Pid(pid) =>
                exists k :: 0 <= k < |old(ps)| && Enabled(old(Now()), Reap(c, k)) && old(ps)[k].pid == pid
                            && Now() == Apply(old(Now()), Reap(c, k))
              case Failed => Enabled(old(Now()), WaitFails(c)) && Now() == Apply(old(Now()), WaitFails(c))
              case Asleep => Enabled(old(Now()), WaitSleeps(c)) && Now() == Apply(old(Now()), WaitSleeps(c))
    {
      hide Apply, FirstZombie, HasChild, HasZombie;
      var k, havekids := ScanChildren(cpus[c]);
      if k != -1 {
        var pid := ps[k].pid;
        ReapChild(c, k);
        return Pid(pid);
      }
      if !havekids || ps[cpus[c]].killed {
        WaitInVain(c);
        return Failed;
      }
      WaitAsleep(c);
      return Asleep;
    }

    /** kill: the first slot with that pid, woken if it sleeps. */
    method KillPid(pid: nat) returns (ok: bool)
      requires lock == Nobody
      modifies this`ps
      ensures ok ==> exists k :: 0 <= k < |old(ps)| && Enabled(old(Now()), Kill(pid, k))
                                 && Now() == Apply(old(Now()), Kill(pid, k))
      ensures !ok ==> Now() == old(Now()) && forall i :: 0 <= i < |ps| ==> ps[i].pid != pid
    {
      var k := 0;
      while k < |ps|
        invariant 0 <= k <= |ps| && ps == old(ps)
        invariant forall i :: 0 <= i < k ==> ps[i].pid != pid
      {
        if ps[k].pid == pid {
          assert FirstPid(ps, pid, k);
          ps := ps[k := ps[k].(killed := true)];
          if ps[k].state == SLEEPING {
            ps := ps[k := ps[k].(state := RUNNABLE)];
          }
          assert ps == Set(old(ps), k, Killed(old(ps)[k]));
          assert Now() == Apply(old(Now()), Kill(pid, k));
          return true;
        }
        k := k + 1;
      }
      return false;
    }

    /** The scheduler's loop from slot i on: switch to the next RUNNABLE process, or
        leave the loop and the lock. */
    method Schedule(c: nat, i: nat) returns (p: int)
      requires c < |cpus| && lock == Scheduler(c) && i <= |ps|
      modifies this
      ensures p == -1 ==> Now() == Apply(old(Now()), DropLock(c))
      ensures p == -1 ==> forall k :: i <= k < |ps| ==> ps[k].state != RUNNABLE
      ensures p != -1 ==> i <= p && Enabled(old(Now()), Dispatch(c, p)) && Now() == Apply(old(Now()), Dispatch(c, p))
      ensures p != -1 ==> forall k :: i <= k < p ==> old(ps)[k].state != RUNNABLE
    {
      p := i;
      while p < |ps|
        invariant i <= p <= |ps| && Now() == old(Now())
        invariant forall k :: i <= k < p ==> ps[k].state != RUNNABLE
      {
        if ps[p].state == RUNNABLE {
          cpus := cpus[c := p];
          ps := ps[p := ps[p].(state := RUNNING)];
          lock := Process(p);
          return;
        }
        p := p + 1;
      }
      lock := Nobody;
      p := -1;
    }
  }
}
