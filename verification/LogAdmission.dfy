/** Admission to the log: begin_op, log_write and end_op of log.c as steps of any
    number of concurrent operations.  log_write reads its guard before it takes
    the lock, so guard and append are separate steps. */
module LogAdmission {
  import opened Machine

  /** An operation that has not begun, is between begin_op and end_op having
      logged the blocks in logged, or has ended.  A running operation that has
      passed log_write's guard for a block, and not yet taken the lock, has that
      block in pending. */
  datatype Op = Waiting | Running(logged: set<nat>, pending: set<nat>) | Ended(logged: set<nat>)

  datatype State = State(
    outstanding: nat,
    committing: bool,
    lh: seq<nat>,
    ops: seq<Op>,               // every operation of this transaction
    commits: seq<set<nat>>,     // what each finished commit wrote
    panicked: bool)

  /** The knobs: blocks in the on-disk log, and the number of distinct blocks an
      operation may log. */
  datatype Config = Config(size: nat, budget: nat)

  predicate Initial(s: State)
  {
    s == State(0, false, [], [], [], false)
  }

  // ---- Steps ----

  /** A new operation reaches begin_op and waits. */
  ghost predicate Arrive(s: State, t: State)
  {
    t == s.(ops := s.ops + [Waiting])
  }

  /** begin_op takes the branch that does not sleep. */
  ghost predicate Begin(s: State, t: State, o: nat)
  {
    && o < |s.ops| && s.ops[o] == Waiting
    && !s.committing
    && |s.lh| + (s.outstanding + 1) * MAXOPBLOCKS <= LOGSIZE
    && t == s.(outstanding := s.outstanding + 1, ops := s.ops[o := Running({}, {})])
  }

  /** log_write, up to the lock: the two panics, or on to the lock. */
  ghost predicate Guard(c: Config, s: State, t: State, o: nat, b: nat)
  {
    && o < |s.ops| && s.ops[o].Running? && s.ops[o].pending == {}
    && |s.ops[o].logged + {b}| <= c.budget
    && if |s.lh| >= LOGSIZE || |s.lh| >= c.size as int - 1 || s.outstanding < 1
       then t == s.(panicked := true)
       else t == s.(ops := s.ops[o := s.ops[o].(pending := {b})])
  }

  /** log_write, under the lock: absorb the block or append it. */
  ghost predicate Append(s: State, t: State, o: nat, b: nat)
  {
    && o < |s.ops| && s.ops[o].Running? && s.ops[o].pending == {b}
    && t == s.(lh := if b in s.lh then s.lh else s.lh + [b],
               ops := s.ops[o := Running(s.ops[o].logged + {b}, {})])
  }

  /** end_op, its first critical section. */
  ghost predicate End(s: State, t: State, o: nat)
  {
    && o < |s.ops| && s.ops[o].Running? && s.ops[o].pending == {}
    && if s.committing || s.outstanding == 0 then t == s.(panicked := true)
       else t == s.(outstanding := s.outstanding - 1,
                    committing := s.outstanding == 1,
                    ops := s.ops[o := Ended(s.ops[o].logged)])
  }

  /** The rest of the last end_op: commit, then committing = 0 under the lock.
      Operations still waiting carry over to the next transaction. */
  ghost predicate Commit(s: State, t: State)
  {
    && s.committing
    && t == s.(committing := false, lh := [], ops := Waiters(s.ops),
               commits := s.commits + [Elems(s.lh)])
  }

  function Elems(lh: seq<nat>): set<nat> {
    set b | b in lh
  }

  function Waiters(ops: seq<Op>): (ws: seq<Op>)
    ensures forall i :: 0 <= i < |ws| ==> ws[i] == Waiting
  {
    if ops == [] then []
    else if ops[0] == Waiting then [Waiting] + Waiters(ops[1..])
    else Waiters(ops[1..])
  }

  ghost predicate Next(c: Config, s: State, t: State)
  {
    && !s.panicked
    && (|| Arrive(s, t)
        || (exists o :: Begin(s, t, o))
        || (exists o, b :: Guard(c, s, t, o, b))
        || (exists o, b :: Append(s, t, o, b))
        || (exists o :: End(s, t, o))
        || Commit(s, t))
  }

  ghost predicate IsRun(c: Config, run: seq<State>)
  {
    && run != [] && Initial(run[0])
    && forall i :: 0 <= i < |run| - 1 ==> Next(c, run[i], run[i + 1])
  }

  // ---- Counting ----

  function One(op: Op): nat {
    if op.Running? then 1 else 0
  }

  function Left(op: Op, budget: nat): int {
    if op.Running? then budget - |op.logged| else 0
  }

  function Logged(op: Op): set<nat> {
    if op == Waiting then {} else op.logged
  }

  /** Operations between begin_op and end_op. */
  function Active(ops: seq<Op>): nat
  {
    if ops == [] then 0 else Active(ops[..|ops| - 1]) + One(ops[|ops| - 1])
  }

  /** Blocks the running operations may still log under budget each. */
  function Unspent(ops: seq<Op>, budget: nat): int
  {
    if ops == [] then 0 else Unspent(ops[..|ops| - 1], budget) + Left(ops[|ops| - 1], budget)
  }

  lemma {:induction false} UpdateCounts(ops: seq<Op>, o: nat, op: Op, budget: nat)
    requires o < |ops|
    ensures Active(ops[o := op]) == Active(ops) - One(ops[o]) + One(op)
    ensures Unspent(ops[o := op], budget) == Unspent(ops, budget) - Left(ops[o], budget) + Left(op, budget)
  {
    var n := |ops| - 1;
    if o < n {
      assert ops[o := op][..n] == ops[..n][o := op];
      UpdateCounts(ops[..n], o, op, budget);
    } else {
      assert ops[o := op][..n] == ops[..n];
    }
  }

  lemma AppendCounts(ops: seq<Op>, op: Op, budget: nat)
    ensures Active(ops + [op]) == Active(ops) + One(op)
    ensures Unspent(ops + [op], budget) == Unspent(ops, budget) + Left(op, budget)
  {
    assert (ops + [op])[..|ops|] == ops;
  }

  ghost predicate WithinBudget(ops: seq<Op>, budget: nat)
  {
    forall o :: 0 <= o < |ops| && ops[o].Running? ==>
      |ops[o].logged| <= budget && |ops[o].logged + ops[o].pending| <= budget
  }

  lemma {:induction false} UnspentBounds(ops: seq<Op>, budget: nat)
    requires WithinBudget(ops, budget)
    ensures 0 <= Unspent(ops, budget) <= Active(ops) * budget
    ensures forall o :: 0 <= o < |ops| ==> Left(ops[o], budget) <= Unspent(ops, budget)
    ensures forall o :: 0 <= o < |ops| && ops[o].Running? ==> Active(ops) > 0
  {
    if ops != [] {
      var n := |ops| - 1;
      UnspentBounds(ops[..n], budget);
      assert forall o :: 0 <= o < n ==> ops[..n][o] == ops[o];
      assert (Active(ops[..n]) + 1) * budget == Active(ops[..n]) * budget + budget;
    }
  }

  lemma {:induction false} WaitersCount(ops: seq<Op>, budget: nat)
    requires forall i :: 0 <= i < |ops| ==> ops[i] == Waiting
    ensures Active(ops) == 0 && Unspent(ops, budget) == 0
  {
    if ops != [] { WaitersCount(ops[..|ops| - 1], budget); }
  }

  // ---- The invariant ----

  /** The most blocks that can ever be logged at once. */
  function Cap(budget: nat): nat {
    MAXOPBLOCKS + 2 * budget
  }

  /** Exactly the blocks of this transaction's operations are listed, once each. */
  ghost predicate Lists(lh: seq<nat>, ops: seq<Op>)
  {
    && (forall i, j :: 0 <= i < j < |lh| ==> lh[i] != lh[j])
    && (forall o :: 0 <= o < |ops| ==> Logged(ops[o]) <= Elems(lh))
    && (forall b :: b in lh ==> exists o :: 0 <= o < |ops| && b in Logged(ops[o]))
  }

  ghost predicate Inv(c: Config, s: State)
  {
    && s.outstanding == Active(s.ops)
    && (s.committing ==> s.outstanding == 0)
    && (s.outstanding == 0 && !s.committing ==> s.lh == [])
    && WithinBudget(s.ops, c.budget)
    && Lists(s.lh, s.ops)
    && |s.lh| + Unspent(s.ops, c.budget) <= Cap(c.budget)
  }

  lemma BeginInv(c: Config, s: State, t: State, o: nat)
    requires c.budget <= MAXOPBLOCKS && Inv(c, s) && Begin(s, t, o)
    ensures Inv(c, t)
  {
    hide Unspent, Active, Lists;
    UpdateCounts(s.ops, o, Running({}, {}), c.budget);
    UnspentBounds(s.ops, c.budget);
    if s.outstanding > 0 {
      RoomForOneMore(|s.lh|, s.outstanding + 1, c.budget, Unspent(t.ops, c.budget));
    }
    ListsSame(s.lh, s.ops, t.ops);
  }

  /** What begin_op's test leaves for the second and later operations. */
  lemma RoomForOneMore(n: nat, k: nat, budget: nat, unspent: int)
    requires budget <= MAXOPBLOCKS && k >= 2
    requires n + k * MAXOPBLOCKS <= LOGSIZE && unspent <= k * budget
    ensures n + unspent <= Cap(budget)
  {
    assert k * (MAXOPBLOCKS - budget) >= 2 * (MAXOPBLOCKS - budget);
  }

  lemma GuardInv(c: Config, s: State, t: State, o: nat, b: nat)
    requires Inv(c, s) && Guard(c, s, t, o, b)
    ensures Inv(c, t)
  {
    hide Unspent, Active, Lists;
    if t.ops != s.ops {
      UpdateCounts(s.ops, o, t.ops[o], c.budget);
      assert forall p :: 0 <= p < |s.ops| ==> Logged(t.ops[p]) == Logged(s.ops[p]);
      ListsSame(s.lh, s.ops, t.ops);
    }
  }

  lemma ListsSame(lh: seq<nat>, ops: seq<Op>, ops': seq<Op>)
    requires Lists(lh, ops) && |ops| <= |ops'|
    requires forall o :: 0 <= o < |ops| ==> Logged(ops'[o]) == Logged(ops[o])
    requires forall o :: |ops| <= o < |ops'| ==> ops'[o] == Waiting
    ensures Lists(lh, ops')
  {
    forall b | b in lh ensures exists p :: 0 <= p < |ops'| && b in Logged(ops'[p]) {
      var p :| 0 <= p < |ops| && b in Logged(ops[p]);
      assert b in Logged(ops'[p]);
    }
  }

  lemma LoggedListed(lh: seq<nat>, ops: seq<Op>, o: nat, b: nat)
    requires Lists(lh, ops) && o < |ops| && b in Logged(ops[o])
    ensures b in lh
  {
    assert Logged(ops[o]) <= Elems(lh);
  }

  lemma ListsAppend(s: State, t: State, o: nat, b: nat)
    requires Lists(s.lh, s.ops) && Append(s, t, o, b)
    ensures Lists(t.lh, t.ops)
  {
    forall p | 0 <= p < |t.ops| ensures Logged(t.ops[p]) <= Elems(t.lh) {
      assert Logged(s.ops[p]) <= Elems(s.lh) <= Elems(t.lh);
      assert b in t.lh;
    }
    forall d | d in t.lh ensures exists p :: 0 <= p < |t.ops| && d in Logged(t.ops[p]) {
      if d == b {
        assert b in Logged(t.ops[o]);
      } else {
        var p :| 0 <= p < |s.ops| && d in Logged(s.ops[p]);
        assert d in Logged(t.ops[p]);
      }
    }
  }

  lemma AppendInv(c: Config, s: State, t: State, o: nat, b: nat)
    requires Inv(c, s) && Append(s, t, o, b)
    ensures Inv(c, t)
  {
    hide Unspent, Active, Lists;
    ListsAppend(s, t, o, b);
    UpdateCounts(s.ops, o, t.ops[o], c.budget);
    UnspentBounds(s.ops, c.budget);
    var old' := s.ops[o].logged;
    assert old' + {b} == old' + s.ops[o].pending;
    assert old' + {b} + {} == old' + {b};
    if b in old' {
      LoggedListed(s.lh, s.ops, o, b);
      assert old' + {b} == old';
    }
  }

  lemma EndInv(c: Config, s: State, t: State, o: nat)
    requires Inv(c, s) && End(s, t, o)
    ensures Inv(c, t) && !t.panicked == !s.panicked
  {
    hide Unspent, Active, Lists;
    UnspentBounds(s.ops, c.budget);
    UpdateCounts(s.ops, o, Ended(s.ops[o].logged), c.budget);
    assert forall p :: 0 <= p < |s.ops| ==> Logged(t.ops[p]) == Logged(s.ops[p]);
    ListsSame(s.lh, s.ops, t.ops);
  }

  lemma CommitInv(c: Config, s: State, t: State)
    requires Inv(c, s) && Commit(s, t)
    ensures Inv(c, t)
  {
    WaitersCount(t.ops, c.budget);
  }

  lemma ArriveInv(c: Config, s: State, t: State)
    requires Inv(c, s) && Arrive(s, t)
    ensures Inv(c, t)
  {
    hide Unspent, Active, Lists;
    AppendCounts(s.ops, Waiting, c.budget);
    ListsSame(s.lh, s.ops, t.ops);
  }

  lemma NextInv(c: Config, s: State, t: State)
    requires c.budget <= MAXOPBLOCKS && Inv(c, s) && Next(c, s, t)
    ensures Inv(c, t)
  {
    hide Inv, Arrive, Begin, Guard, Append, End, Commit;
    if Arrive(s, t) {
      ArriveInv(c, s, t);
    } else if o :| Begin(s, t, o) {
      BeginInv(c, s, t, o);
    } else if o, b :| Guard(c, s, t, o, b) {
      GuardInv(c, s, t, o, b);
    } else if o, b :| Append(s, t, o, b) {
      AppendInv(c, s, t, o, b);
    } else if o :| End(s, t, o) {
      EndInv(c, s, t, o);
    } else {
      CommitInv(c, s, t);
    }
  }

  lemma {:induction false} RunInv(c: Config, run: seq<State>, i: nat)
    requires c.budget <= MAXOPBLOCKS && IsRun(c, run) && i < |run|
    ensures Inv(c, run[i])
  {
    if i > 0 {
      RunInv(c, run, i - 1);
      NextInv(c, run[i - 1], run[i]);
    }
  }

  // ---- What every run keeps ----

  /** Over every interleaving: committing only with no operation outstanding,
      each logged block listed once, and the listed blocks plus what the running
      operations may still log never exceed LOGSIZE, so the append under the
      lock, whose guard was read without it, stays within the header. */
  lemma Reservation(c: Config, run: seq<State>, i: nat)
    requires c.budget <= MAXOPBLOCKS && IsRun(c, run) && i < |run|
    ensures var s := run[i];
            && (s.committing ==> s.outstanding == 0)
            && (forall j, k :: 0 <= j < k < |s.lh| ==> s.lh[j] != s.lh[k])
            && |s.lh| + Unspent(s.ops, c.budget) <= LOGSIZE
            && (forall o :: 0 <= o < |s.ops| && s.ops[o].Running? && |s.ops[o].logged| < c.budget ==>
                  |s.lh| < LOGSIZE)
  {
    RunInv(c, run, i);
    UnspentBounds(run[i].ops, c.budget);
    assert forall o :: 0 <= o < |run[i].ops| ==> Left(run[i].ops[o], c.budget) <= Unspent(run[i].ops, c.budget);
  }

  /** Each commit writes whole operations: none is running, and the blocks it
      writes are exactly those its operations logged. */
  lemma CommitIsWhole(c: Config, run: seq<State>, i: nat)
    requires c.budget <= MAXOPBLOCKS && IsRun(c, run) && i + 1 < |run| && Commit(run[i], run[i + 1])
    ensures var s := run[i];
            && (forall o :: 0 <= o < |s.ops| ==> !s.ops[o].Running?)
            && (forall b :: b in s.lh <==>
                  exists o :: 0 <= o < |s.ops| && s.ops[o].Ended? && b in s.ops[o].logged)
            && run[i + 1].commits == s.commits + [Elems(s.lh)]
  {
    RunInv(c, run, i);
    var s := run[i];
    UnspentBounds(s.ops, c.budget);
    forall b | b in s.lh ensures exists o :: 0 <= o < |s.ops| && s.ops[o].Ended? && b in s.ops[o].logged {
      var o :| 0 <= o < |s.ops| && b in Logged(s.ops[o]);
      assert s.ops[o].Ended?;
    }
    forall o, b | 0 <= o < |s.ops| && s.ops[o].Ended? && b in s.ops[o].logged ensures b in s.lh {
      assert Logged(s.ops[o]) <= Elems(s.lh);
    }
  }

  lemma StepNoPanic(c: Config, s: State, t: State)
    requires Inv(c, s) && Next(c, s, t)
    requires Cap(c.budget) < LOGSIZE && Cap(c.budget) < c.size - 1
    ensures !t.panicked
  {
    hide Lists, Unspent, Active, Waiters;
    UnspentBounds(s.ops, c.budget);
  }

  /** If the cap stays below both limits of log_write's guard, no run panics. */
  lemma {:induction false} NoPanic(c: Config, run: seq<State>, i: nat)
    requires c.budget <= MAXOPBLOCKS && IsRun(c, run) && i < |run|
    requires Cap(c.budget) < LOGSIZE && Cap(c.budget) < c.size - 1
    ensures !run[i].panicked
  {
    hide Next, Inv;
    if i > 0 {
      RunInv(c, run, i - 1);
      StepNoPanic(c, run[i - 1], run[i]);
    }
  }

  // ---- Nobody is lost or stuck ----

  /** Operations waiting in begin_op. */
  function Queue(ops: seq<Op>): nat {
    if ops == [] then 0 else (if ops[0] == Waiting then 1 else 0) + Queue(ops[1..])
  }

  lemma {:induction false} QueueUpdate(ops: seq<Op>, o: nat, op: Op)
    requires o < |ops|
    ensures Queue(ops[o := op])
            == Queue(ops) - (if ops[o] == Waiting then 1 else 0) + (if op == Waiting then 1 else 0)
  {
    if o > 0 {
      assert ops[o := op][1..] == ops[1..][o - 1 := op];
      QueueUpdate(ops[1..], o - 1, op);
    }
  }

  lemma {:induction false} QueueAppend(ops: seq<Op>, op: Op)
    ensures Queue(ops + [op]) == Queue(ops) + if op == Waiting then 1 else 0
  {
    if ops != [] {
      assert (ops + [op])[1..] == ops[1..] + [op];
      QueueAppend(ops[1..], op);
    }
  }

  lemma {:induction false} WaitersQueue(ops: seq<Op>)
    ensures Queue(Waiters(ops)) == Queue(ops) == |Waiters(ops)|
  {
    if ops != [] {
      WaitersQueue(ops[1..]);
      assert ([Waiting] + Waiters(ops[1..]))[1..] == Waiters(ops[1..]);
    }
  }

  ghost predicate Begins(s: State, t: State) {
    exists o :: Begin(s, t, o)
  }

  ghost predicate Ends(s: State, t: State) {
    !t.panicked && exists o :: End(s, t, o)
  }

  /** From s to t: who arrived is waiting, and who began left the queue and runs. */
  ghost predicate Counted(s: State, t: State) {
    && Queue(t.ops) == Queue(s.ops) + (if Arrive(s, t) then 1 else 0) - (if Begins(s, t) then 1 else 0)
    && Active(t.ops) == Active(s.ops) + (if Begins(s, t) then 1 else 0) - (if Ends(s, t) then 1 else 0)
  }

  lemma ArriveCounted(s: State, t: State)
    requires Arrive(s, t)
    ensures Counted(s, t)
  {
    hide Queue, Active;
    QueueAppend(s.ops, Waiting);
    AppendCounts(s.ops, Waiting, 0);
  }

  lemma BeginCounted(s: State, t: State, o: nat)
    requires Begin(s, t, o)
    ensures Counted(s, t)
  {
    hide Queue, Active;
    QueueUpdate(s.ops, o, t.ops[o]);
    UpdateCounts(s.ops, o, t.ops[o], 0);
  }

  lemma LogWriteCounted(c: Config, s: State, t: State, o: nat, b: nat)
    requires !s.panicked && (Guard(c, s, t, o, b) || Append(s, t, o, b))
    ensures Counted(s, t)
  {
    hide Queue, Active;
    QueueUpdate(s.ops, o, t.ops[o]);
    UpdateCounts(s.ops, o, t.ops[o], 0);
    assert s.ops[o := s.ops[o]] == s.ops;
  }

  lemma EndCounted(s: State, t: State, o: nat)
    requires !s.panicked && End(s, t, o)
    ensures Counted(s, t)
  {
    hide Queue, Active;
    QueueUpdate(s.ops, o, t.ops[o]);
    UpdateCounts(s.ops, o, t.ops[o], 0);
  }

  lemma CommitCounted(c: Config, s: State, t: State)
    requires Inv(c, s) && Commit(s, t)
    ensures Counted(s, t) && Queue(t.ops) == Queue(s.ops) == |t.ops|
  {
    hide Queue, Active, Lists, Unspent;
    WaitersQueue(s.ops);
    WaitersCount(t.ops, 0);
  }

  lemma StepCounted(c: Config, s: State, t: State)
    requires Inv(c, s) && Next(c, s, t)
    ensures Counted(s, t)
  {
    hide Inv, Counted, Arrive, Begin, Guard, Append, End, Commit;
    if Arrive(s, t) {
      ArriveCounted(s, t);
    } else if o :| Begin(s, t, o) {
      BeginCounted(s, t, o);
    } else if o, b :| Guard(c, s, t, o, b) {
      LogWriteCounted(c, s, t, o, b);
    } else if o, b :| Append(s, t, o, b) {
      LogWriteCounted(c, s, t, o, b);
    } else if o :| End(s, t, o) {
      EndCounted(s, t, o);
    } else {
      CommitCounted(c, s, t);
    }
  }

  /** How many steps of a run, up to state i, are arrivals, begin_op and end_op. */
  ghost function Arrived(run: seq<State>, i: nat): nat
    requires i < |run|
  {
    if i == 0 then 0 else Arrived(run, i - 1) + if Arrive(run[i - 1], run[i]) then 1 else 0
  }

  ghost function Begun(run: seq<State>, i: nat): nat
    requires i < |run|
  {
    if i == 0 then 0 else Begun(run, i - 1) + if Begins(run[i - 1], run[i]) then 1 else 0
  }

  ghost function Finished(run: seq<State>, i: nat): nat
    requires i < |run|
  {
    if i == 0 then 0 else Finished(run, i - 1) + if Ends(run[i - 1], run[i]) then 1 else 0
  }

  /** In every run nobody is lost, whatever commits in between: each operation that
      arrived waits or has begun, and each that has begun runs or has ended. */
  lemma {:induction false} NobodyLost(c: Config, run: seq<State>, i: nat)
    requires c.budget <= MAXOPBLOCKS && IsRun(c, run) && i < |run|
    ensures Arrived(run, i) == Queue(run[i].ops) + Begun(run, i)
    ensures Begun(run, i) == Active(run[i].ops) + Finished(run, i)
  {
    hide Inv, Next, Arrive, Begins, Ends;
    if i > 0 {
      NobodyLost(c, run, i - 1);
      RunInv(c, run, i - 1);
      StepCounted(c, run[i - 1], run[i]);
    }
  }

  ghost predicate CanBegin(s: State, o: nat) {
    exists t :: Begin(s, t, o)
  }

  /** With nothing reserved and nothing logged, whoever waits can begin. */
  lemma IdleBegins(s: State, o: nat)
    requires o < |s.ops| && s.ops[o] == Waiting && !s.committing && s.outstanding == 0 && s.lh == []
    ensures CanBegin(s, o)
  {
    assert Begin(s, s.(outstanding := 1, ops := s.ops[o := Running({}, {})]), o);
  }

  lemma {:induction false} NobodyActive(ops: seq<Op>)
    requires forall p :: 0 <= p < |ops| ==> !ops[p].Running?
    ensures Active(ops) == 0
  {
    if ops != [] { NobodyActive(ops[..|ops| - 1]); }
  }

  lemma {:induction false} QueuedOne(ops: seq<Op>, o: nat)
    requires o < |ops| && ops[o] == Waiting
    ensures Queue(ops) > 0
  {
    if o > 0 { QueuedOne(ops[1..], o - 1); }
  }

  /** And nobody is stuck: with no operation running, the one who waits can begin, at
      once or after the commit that is under way. */
  lemma NobodyStuck(c: Config, run: seq<State>, o: nat)
    requires c.budget <= MAXOPBLOCKS && IsRun(c, run)
    requires var s := run[|run| - 1];
             && !s.panicked && o < |s.ops| && s.ops[o] == Waiting
             && forall p :: 0 <= p < |s.ops| ==> !s.ops[p].Running?
    ensures var s := run[|run| - 1];
            if s.committing then
              exists t :: Commit(s, t) && t.ops != [] && forall p: nat :: p < |t.ops| ==> CanBegin(t, p)
            else CanBegin(s, o)
  {
    hide Lists, Unspent, Active, Queue, CanBegin;
    var s := run[|run| - 1];
    RunInv(c, run, |run| - 1);
    NobodyActive(s.ops);
    if s.committing {
      var t := s.(committing := false, lh := [], ops := Waiters(s.ops), commits := s.commits + [Elems(s.lh)]);
      CommitCounted(c, s, t);
      QueuedOne(s.ops, o);
      forall p: nat | p < |t.ops| ensures CanBegin(t, p) {
        IdleBegins(t, p);
      }
      assert Commit(s, t) && t.ops != [];
    } else {
      IdleBegins(s, o);
    }
  }

  // ---- The converse: runs that do panic, runs that do overflow ----

  ghost predicate Reachable(c: Config, s: State)
  {
    exists run :: IsRun(c, run) && run[|run| - 1] == s
  }

  /** Every state of a run is reachable. */
  lemma RunReaches(c: Config, run: seq<State>, i: nat)
    requires IsRun(c, run) && i < |run|
    ensures Reachable(c, run[i])
  {
    var run' := run[..i + 1];
    assert IsRun(c, run') && run'[|run'| - 1] == run[i];
  }

  lemma Extend(c: Config, s: State, t: State)
    requires Reachable(c, s) && Next(c, s, t)
    ensures Reachable(c, t)
  {
    var run :| IsRun(c, run) && run[|run| - 1] == s;
    var run' := run + [t];
    assert forall i :: 0 <= i < |run| ==> run'[i] == run[i];
    assert IsRun(c, run') && run'[|run'| - 1] == t;
  }

  function Iota(n: nat): (lh: seq<nat>)
    ensures |lh| == n && forall i :: 0 <= i < n ==> lh[i] == i
  {
    seq(n, i => i)
  }

  /** Blocks 0 .. n-1 are logged, and operation o has logged used of them. */
  ghost predicate At(c: Config, s: State, n: nat, o: nat, used: nat)
  {
    && Reachable(c, s) && !s.panicked && !s.committing && s.outstanding >= 1
    && s.lh == Iota(n)
    && o < |s.ops| && s.ops[o].Running? && s.ops[o].pending == {} && |s.ops[o].logged| == used
    && (forall b :: b in s.ops[o].logged ==> b < n)
  }

  /** Neither limit of log_write's guard is reached at n blocks. */
  predicate Passes(c: Config, n: nat) {
    n < LOGSIZE && n < c.size as int - 1
  }

  lemma PassGuard(c: Config, s: State, n: nat, o: nat, used: nat, b: nat) returns (t: State)
    requires At(c, s, n, o, used) && used < c.budget && b >= n && Passes(c, n)
    ensures t == s.(ops := s.ops[o := Running(s.ops[o].logged, {b})]) && Reachable(c, t)
  {
    t := s.(ops := s.ops[o := s.ops[o].(pending := {b})]);
    assert Guard(c, s, t, o, b);
    Extend(c, s, t);
  }

  lemma TakeLock(c: Config, s: State, o: nat, b: nat) returns (t: State)
    requires Reachable(c, s) && !s.panicked && o < |s.ops| && s.ops[o].Running? && s.ops[o].pending == {b}
    requires b !in s.lh
    ensures t == s.(lh := s.lh + [b], ops := s.ops[o := Running(s.ops[o].logged + {b}, {})])
    ensures Reachable(c, t)
  {
    t := s.(lh := s.lh + [b], ops := s.ops[o := Running(s.ops[o].logged + {b}, {})]);
    assert Append(s, t, o, b);
    Extend(c, s, t);
  }

  /** Operation o logs the next m fresh blocks. */
  lemma {:induction false} LogFresh(c: Config, s: State, n: nat, o: nat, used: nat, m: nat) returns (t: State)
    requires At(c, s, n, o, used) && used + m <= c.budget && (m > 0 ==> Passes(c, n + m - 1))
    ensures At(c, t, n + m, o, used + m) && t.outstanding == s.outstanding
    ensures |t.ops| == |s.ops| && forall p :: 0 <= p < |s.ops| && p != o ==> t.ops[p] == s.ops[p]
    decreases m
  {
    t := s;
    if m > 0 {
      t := PassGuard(c, t, n, o, used, n);
      t := TakeLock(c, t, o, n);
      assert t.lh == Iota(n + 1);
      t := LogFresh(c, t, n + 1, o, used + 1, m - 1);
    }
  }

  /** A further operation arrives and begins. */
  lemma Join(c: Config, s: State, n: nat, o: nat, used: nat) returns (t: State)
    requires At(c, s, n, o, used) && n + (s.outstanding + 1) * MAXOPBLOCKS <= LOGSIZE
    ensures At(c, t, n, o, used) && At(c, t, n, |s.ops|, 0)
    ensures t.outstanding == s.outstanding + 1 && |t.ops| == |s.ops| + 1
  {
    var w := s.(ops := s.ops + [Waiting]);
    assert Arrive(s, w);
    Extend(c, s, w);
    t := w.(outstanding := s.outstanding + 1, ops := w.ops[|s.ops| := Running({}, {})]);
    assert Begin(w, t, |s.ops|);
    Extend(c, w, t);
  }

  /** The first operation of a transaction. */
  lemma First(c: Config) returns (t: State)
    ensures At(c, t, 0, 0, 0) && t.outstanding == 1
  {
    var s := State(0, false, [], [], [], false);
    assert IsRun(c, [s]);
    var w := s.(ops := [Waiting]);
    assert Arrive(s, w);
    Extend(c, s, w);
    t := w.(outstanding := 1, ops := [Running({}, {})]);
    assert Begin(w, t, 0);
    Extend(c, w, t);
  }

  /** While operation 0 stays open, others come and go until m blocks are logged. */
  lemma {:induction false} FillBehind(c: Config, s: State, n: nat, m: nat) returns (t: State)
    requires At(c, s, n, 0, 0) && s.outstanding == 1 && c.budget >= 1
    requires n <= m <= MAXOPBLOCKS && (n < m ==> Passes(c, m - 1))
    ensures At(c, t, m, 0, 0) && t.outstanding == 1
    decreases m - n
  {
    t := s;
    if n < m {
      var k := if m - n <= c.budget then m - n else c.budget;
      var o := |s.ops|;
      t := Join(c, t, n, 0, 0);
      t := LogFresh(c, t, n, o, 0, k);
      var e := t.(outstanding := 1, committing := false, ops := t.ops[o := Ended(t.ops[o].logged)]);
      assert End(t, e, o);
      Extend(c, t, e);
      t := FillBehind(c, e, n + k, m);
    }
  }

  /** Two open operations, operation 0 and operation o, and n blocks logged, each
      having logged at most lim. */
  lemma FillBoth(c: Config, n: nat, lim: nat) returns (t: State, o: nat, x: nat, y: nat)
    requires 1 <= c.budget && lim <= c.budget && n <= MAXOPBLOCKS + 2 * lim
    requires n > 0 ==> Passes(c, n - 1)
    ensures o != 0 && At(c, t, n, 0, x) && At(c, t, n, o, y) && x <= lim && y <= lim
    ensures n > MAXOPBLOCKS + lim ==> x > 0
  {
    var m := if n <= MAXOPBLOCKS then n else MAXOPBLOCKS;
    t := First(c);
    t := FillBehind(c, t, 0, m);
    o := |t.ops|;
    t := Join(c, t, m, 0, 0);
    y := if n - m <= lim then n - m else lim;
    t := LogFresh(c, t, m, o, 0, y);
    x := n - m - y;
    t := LogFresh(c, t, m + y, 0, 0, x);
  }

  /** At the limit the next log_write panics, even for a block already logged. */
  lemma PanicReachable(c: Config) returns (t: State)
    requires 1 <= c.budget <= MAXOPBLOCKS
    requires Cap(c.budget) >= LOGSIZE || Cap(c.budget) >= c.size - 1
    ensures Reachable(c, t) && t.panicked
  {
    var n: nat := if c.size <= 1 then 0 else if c.size - 1 <= LOGSIZE then c.size - 1 else LOGSIZE;
    var s, o, x, y := FillBoth(c, n, c.budget);
    t := s.(panicked := true);
    var b: nat := 0;
    if x > 0 {
      b :| b in s.ops[0].logged;
      assert s.ops[0].logged + {b} == s.ops[0].logged;
    }
    assert Guard(c, s, t, 0, b);
    Extend(c, s, t);
  }

  /** No run panics in log_write or end_op if and only if the cap stays below
      both of log_write's limits. */
  lemma PanicFreeIff(c: Config)
    requires 1 <= c.budget <= MAXOPBLOCKS
    ensures (forall s :: Reachable(c, s) ==> !s.panicked)
            <==> Cap(c.budget) < LOGSIZE && Cap(c.budget) < c.size - 1
  {
    if Cap(c.budget) < LOGSIZE && Cap(c.budget) < c.size - 1 {
      forall s | Reachable(c, s) ensures !s.panicked {
        var run :| IsRun(c, run) && run[|run| - 1] == s;
        NoPanic(c, run, |run| - 1);
      }
    } else {
      var t := PanicReachable(c);
    }
  }

  // ---- Does the transaction fit the log area on disk? ----

  /** Header and log blocks of a commit lie inside the log area. */
  predicate Fits(c: Config, s: State) {
    s.lh == [] || |s.lh| < c.size
  }

  /** With no room for even one log block, log_write never gets past its guard. */
  lemma {:induction false} NothingLogged(c: Config, run: seq<State>, i: nat)
    requires c.size < 2 && IsRun(c, run) && i < |run|
    ensures run[i].lh == [] && forall o :: 0 <= o < |run[i].ops| && run[i].ops[o].Running? ==>
              run[i].ops[o].pending == {}
  {
    if i > 0 {
      NothingLogged(c, run, i - 1);
      assert Next(c, run[i - 1], run[i]);
    }
  }

  /** Two operations pass the guard one block below the limit, then both append. */
  lemma TwoPending(c: Config) returns (t: State, o: nat)
    requires 1 <= c.budget <= MAXOPBLOCKS && 2 <= c.size <= Cap(c.budget)
    ensures Reachable(c, t) && !t.panicked && t.lh == Iota(c.size - 2) && 0 < o < |t.ops|
    ensures t.ops[0].Running? && t.ops[0].pending == {c.size - 2}
    ensures t.ops[o].Running? && t.ops[o].pending == {c.size - 1}
  {
    hide Reachable, Iota, Active;
    var n := c.size - 2;
    var s, x, y;
    s, o, x, y := FillBoth(c, n, c.budget - 1);
    t := PassGuard(c, s, n, 0, x, n);
    t := PassGuard(c, t, n, o, y, n + 1);
  }

  lemma OverflowReachable(c: Config) returns (t: State)
    requires 1 <= c.budget <= MAXOPBLOCKS && 2 <= c.size <= Cap(c.budget)
    ensures Reachable(c, t) && !Fits(c, t)
  {
    hide Reachable, Iota, Active;
    var n := c.size - 2;
    var s, o := TwoPending(c);
    t := TakeLock(c, s, 0, n);
    t := TakeLock(c, t, o, n + 1);
  }

  /** Every commit fits the log area if and only if the cap does: the guard
      alone, being read outside the lock, does not ensure it. */
  lemma FitsIff(c: Config)
    requires 1 <= c.budget <= MAXOPBLOCKS
    ensures (forall s :: Reachable(c, s) ==> Fits(c, s)) <==> c.size < 2 || Cap(c.budget) < c.size
  {
    if c.size < 2 || Cap(c.budget) < c.size {
      forall s | Reachable(c, s) ensures Fits(c, s) {
        var run :| IsRun(c, run) && run[|run| - 1] == s;
        if c.size < 2 {
          NothingLogged(c, run, |run| - 1);
        } else {
          RunInv(c, run, |run| - 1);
          UnspentBounds(s.ops, c.budget);
        }
      }
    } else {
      var t := OverflowReachable(c);
    }
  }

  /** The shipped image has LOGSIZE log blocks, header included.  Operations of
      up to nine blocks each are then safe; operations of MAXOPBLOCKS are not,
      and one more log block would not stop the panic. */
  lemma ShippedImage()
    ensures forall s, budget :: 1 <= budget < MAXOPBLOCKS && Reachable(Config(LOGSIZE, budget), s)
              ==> !s.panicked && Fits(Config(LOGSIZE, budget), s)
    ensures exists s :: Reachable(Config(LOGSIZE, MAXOPBLOCKS), s) && !Fits(Config(LOGSIZE, MAXOPBLOCKS), s)
    ensures exists s :: Reachable(Config(LOGSIZE + 1, MAXOPBLOCKS), s) && s.panicked
  {
    forall s, budget | 1 <= budget < MAXOPBLOCKS && Reachable(Config(LOGSIZE, budget), s)
      ensures !s.panicked && Fits(Config(LOGSIZE, budget), s)
    {
      PanicFreeIff(Config(LOGSIZE, budget));
      FitsIff(Config(LOGSIZE, budget));
    }
    var t := OverflowReachable(Config(LOGSIZE, MAXOPBLOCKS));
    var u := PanicReachable(Config(LOGSIZE + 1, MAXOPBLOCKS));
  }
}
