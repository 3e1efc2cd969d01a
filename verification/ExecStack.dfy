/** The argument stack that exec builds for a new program, through copyout and uva2ka
    of vm.c, and what the program reads back from it. */
module ExecStack {
  import opened Blocks
  import opened Machine

  // ---- Words in memory ----

  function WordBytes(w: uint32): (b: seq<byte>)
    ensures |b| == 4 && LittleEndian(b[0], b[1], b[2], b[3]) == w
  {
    SplitWord(w);
    [w % 0x100, w / 0x100 % 0x100, w / 0x1_0000 % 0x100, w / 0x100_0000]
  }

  /** An array of words, as bytes. */
  function Flat(ws: seq<uint32>): (b: seq<byte>)
    ensures |b| == 4 * |ws|
  {
    if ws == [] then [] else Flat(ws[..|ws| - 1]) + WordBytes(ws[|ws| - 1])
  }

  function WordAt(mem: seq<byte>, a: nat): uint32
    requires a + 4 <= |mem|
  {
    LittleEndian(mem[a], mem[a + 1], mem[a + 2], mem[a + 3])
  }

  lemma {:induction false} FlatAt(ws: seq<uint32>, i: nat)
    requires i < |ws|
    ensures WordAt(Flat(ws), 4 * i) == ws[i]
  {
    hide LittleEndian;
    if i < |ws| - 1 {
      FlatAt(ws[..|ws| - 1], i);
    }
  }

  // ---- Bytes written ----

  /** Bytes at va replaced by src. */
  function Written(mem: seq<byte>, va: nat, src: seq<byte>): (r: seq<byte>)
    requires va + |src| <= |mem|
    ensures |r| == |mem|
    ensures forall a {:trigger r[a]} :: 0 <= a < |mem| ==> r[a] == if va <= a < va + |src| then src[a - va] else mem[a]
  {
    mem[..va] + src + mem[va + |src|..]
  }

  lemma WrittenNothing(mem: seq<byte>, va: nat, p: seq<byte>)
    requires va <= |mem|
    ensures Written(mem, va, p[..0]) == mem
  {
  }

  lemma WrittenMore(mem: seq<byte>, va: nat, p: seq<byte>, done: nat, n: nat)
    requires done + n <= |p| && va + done + n <= |mem|
    ensures var m := Written(mem, va, p[..done]);
            var at := va + done;
            m[..at] + p[done..done + n] + m[at + n..] == Written(mem, va, p[..done + n])
  {
    hide Written;
  }

  // ---- uva2ka ----

  /** What uva2ka finds for a page: no page table, so that it follows a null entry; an
      entry that is not the user's, or not there; or a page the user may touch. */
  datatype PageKind = NoTable | Denied | Users

  /** Is there a page table for page p, beyond the n pages of user memory?  In the
      kernel half the tables are those of kmap: memory up to PHYSTOP, and the devices. */
  predicate HasTable(n: nat, p: nat) {
    if p < UPAGES then 0 < n && p / NPTENTRIES <= (n - 1) / NPTENTRIES
    else KernelTable(p / NPTENTRIES)
  }

  /** In user memory a page has a table exactly if it shares one with a page below n. */
  lemma UserTables(n: nat, p: nat)
    requires p < UPAGES
    ensures HasTable(n, p) <==> exists q :: 0 <= q < n && q / NPTENTRIES == p / NPTENTRIES
  {
    if HasTable(n, p) {
      var q := if p < n then p else n - 1;
      Quotients(q, p);
      assert 0 <= q < n && q / NPTENTRIES == p / NPTENTRIES;
    }
    if q :| 0 <= q < n && q / NPTENTRIES == p / NPTENTRIES { Quotients(q, n - 1); }
  }

  lemma Quotients(a: nat, b: nat)
    requires a <= b
    ensures a / NPTENTRIES <= b / NPTENTRIES
  {
  }

  /** user says of each page of user memory whether PTE_U is set. */
  function KindOf(user: seq<bool>, p: nat): PageKind {
    if p < |user| then if user[p] then Users else Denied
    else if HasTable(|user|, p) then Denied else NoTable
  }

  predicate UserPage(user: seq<bool>, p: int) {
    0 <= p < |user| && user[p]
  }

  /** Every page from va to va + n - 1 is one the user may touch. */
  predicate Touchable(user: seq<bool>, va: nat, n: nat) {
    forall p :: va / PGSIZE <= p <= (va + n - 1) / PGSIZE ==> UserPage(user, p)
  }

  /** Page q is the first of those that the user may not touch. */
  predicate StopsAt(user: seq<bool>, va: nat, n: nat, q: nat) {
    && va / PGSIZE <= q <= (va + n - 1) / PGSIZE && !UserPage(user, q)
    && forall p :: va / PGSIZE <= p < q ==> UserPage(user, p)
  }

  /** And it has no page table. */
  ghost predicate MeetsNull(user: seq<bool>, va: nat, n: nat) {
    exists q :: StopsAt(user, va, n, q) && KindOf(user, q) == NoTable
  }

  lemma PageSteps(a: nat, b: nat)
    requires a <= b
    ensures a / PGSIZE <= b / PGSIZE
    ensures a % PGSIZE + (b - a) < PGSIZE ==> b / PGSIZE == a / PGSIZE
  {
  }

  lemma PageRoom(at: nat, pages: nat, n: nat)
    requires at / PGSIZE < pages && at % PGSIZE + n <= PGSIZE
    ensures at + n <= pages * PGSIZE
  {
  }

  /** A stretch within one more page. */
  lemma TouchableMore(user: seq<bool>, va: nat, done: nat, n: nat)
    requires done == 0 || Touchable(user, va, done)
    requires 0 < n && (va + done) % PGSIZE + n <= PGSIZE
    requires UserPage(user, (va + done) / PGSIZE) && (done == 0 || (va + done) % PGSIZE == 0)
    ensures Touchable(user, va, done + n)
  {
    PageSteps(va + done, va + done + n - 1);
    if done > 0 {
      var last := va + done - 1;
      assert (va + done) / PGSIZE == last / PGSIZE + 1;
    }
  }

  lemma Untouchable(user: seq<bool>, va: nat, at: nat, n: nat)
    requires va <= at < va + n && !UserPage(user, at / PGSIZE)
    ensures !Touchable(user, va, n)
  {
    PageSteps(va, at);
    PageSteps(at, va + n - 1);
  }

  /** The page copyout stops at decides what it answers. */
  lemma Stopped(user: seq<bool>, va: nat, done: nat, n: nat)
    requires done < n && (done == 0 || (Touchable(user, va, done) && (va + done) % PGSIZE == 0))
    requires !UserPage(user, (va + done) / PGSIZE)
    ensures !Touchable(user, va, n)
    ensures MeetsNull(user, va, n) <==> KindOf(user, (va + done) / PGSIZE) == NoTable
  {
    var q := (va + done) / PGSIZE;
    Untouchable(user, va, va + done, n);
    PageSteps(va, va + done);
    PageSteps(va + done, va + n - 1);
    if done > 0 {
      var last := va + done - 1;
      assert q == last / PGSIZE + 1;
    }
    assert StopsAt(user, va, n, q);
  }

  lemma NotStopped(user: seq<bool>, va: nat, n: nat)
    requires 0 < n && Touchable(user, va, n)
    ensures !MeetsNull(user, va, n)
  {
  }

  /** Below the top of user memory every page has a table. */
  lemma NoNullBelow(user: seq<bool>, va: nat, n: nat)
    requires 0 < n && va + n <= |user| * PGSIZE
    ensures !MeetsNull(user, va, n)
  {
    PageSteps(va, va + n - 1);
    assert (va + n - 1) / PGSIZE < |user|;
  }

  // ---- Where things go ----

  function RoundDown4(x: int): (r: int)
    ensures r <= x < r + 4 && r % 4 == 0
  {
    x - x % 4
  }

  /** sp after the first k strings are pushed below sz, if it never wrapped. */
  function SpAfter(argv: seq<seq<byte>>, sz: int, k: nat): int
    requires k <= |argv|
  {
    if k == 0 then sz else RoundDown4(SpAfter(argv, sz, k - 1) - (|argv[k - 1]| + 1))
  }

  lemma SpZero(argv: seq<seq<byte>>, sz: int)
    ensures SpAfter(argv, sz, 0) == sz
  {
  }

  lemma SpStep(argv: seq<seq<byte>>, sz: int, k: nat)
    requires k < |argv|
    ensures SpAfter(argv, sz, k + 1) == RoundDown4(SpAfter(argv, sz, k) - (|argv[k]| + 1))
  {
  }

  /** Where string i goes. */
  function Start(argv: seq<seq<byte>>, sz: int, i: nat): int
    requires i < |argv|
  {
    SpAfter(argv, sz, i + 1)
  }

  /** And after the words: return address, argc, argv and the array argv points to. */
  function Bottom(argv: seq<seq<byte>>, sz: int): int {
    SpAfter(argv, sz, |argv|) - 4 * (3 + |argv| + 1)
  }

  lemma {:induction false} SpFalls(argv: seq<seq<byte>>, sz: int, j: nat, k: nat)
    requires j <= k <= |argv|
    ensures SpAfter(argv, sz, k) <= SpAfter(argv, sz, j)
  {
    hide RoundDown4;
    if j < k { SpFalls(argv, sz, j, k - 1); }
  }

  lemma SpNext(argv: seq<seq<byte>>, sz: int, k: nat)
    requires k < |argv|
    ensures var x, n := SpAfter(argv, sz, k + 1), |argv[k]| + 1; x + n <= SpAfter(argv, sz, k) < x + n + 4
  {
    hide RoundDown4;
  }

  /** sz bytes of user memory end in a guard page and the stack page above it. */
  ghost predicate StackAt(user: seq<bool>, sz: nat) {
    && |user| >= 2 && sz == |user| * PGSIZE <= KERNBASE
    && user[|user| - 1] && !user[|user| - 2]
  }

  lemma StackSize(user: seq<bool>, sz: nat)
    requires StackAt(user, sz)
    ensures 2 * PGSIZE <= sz <= KERNBASE
  {
  }

  /** A push that starts at x and ends just below an address in the stack page is
      allowed exactly if it starts in that page too: otherwise it meets the guard. */
  lemma PushAllowed(user: seq<bool>, sz: nat, x: nat, n: nat, top: nat)
    requires StackAt(user, sz) && 0 < n && sz - PGSIZE <= top <= sz && x + n <= top < x + n + 4
    ensures Touchable(user, x, n) <==> sz - PGSIZE <= x
  {
    var s := |user| - 1;
    if sz - PGSIZE <= x {
      assert x / PGSIZE == s && (x + n - 1) / PGSIZE == s;
    } else {
      var g := if x + n - 1 < sz - PGSIZE then x + n - 1 else sz - PGSIZE - 1;
      assert g / PGSIZE == s - 1;
      Untouchable(user, x, g, n);
    }
  }

  /** A push that wraps around 32 bits and lands where kmap has no tables: x is sp as it
      would be without wrapping. */
  predicate WrapsToNull(x: int) {
    x < 0 && KERNBASE + PHYSTOP <= x + UINT_RANGE < DEVSPACE
  }

  /** A push that exec gets to wraps to such an address. */
  predicate ReachesNull(argv: seq<seq<byte>>, sz: int) {
    exists k :: 0 <= k < |argv| && k < MAXARG && NullPush(argv, sz, k)
  }

  predicate NullPush(argv: seq<seq<byte>>, sz: int, k: nat)
    requires k < |argv|
  {
    SpAfter(argv, sz, k) >= sz - PGSIZE && WrapsToNull(SpAfter(argv, sz, k + 1))
  }

  /** 32-bit subtraction and rounding. */
  lemma Wraps(x: int)
    requires -KERNBASE <= x < UINT_RANGE
    ensures x >= 0 ==> x % UINT_RANGE == x
    ensures x < 0 ==> RoundDown4(x % UINT_RANGE) == RoundDown4(x) + UINT_RANGE >= KERNBASE
  {
  }

  /** An address in the kernel half is not the user's, and copyout stops there. */
  lemma HighPush(user: seq<bool>, sz: nat, a: nat, n: nat)
    requires StackAt(user, sz) && KERNBASE <= a < UINT_RANGE && 0 < n
    ensures !Touchable(user, a, n)
    ensures MeetsNull(user, a, n) <==> KERNBASE + PHYSTOP <= a < DEVSPACE
  {
    hide KernelTable;
    assert !UserPage(user, a / PGSIZE);
    Stopped(user, a, 0, n);
    KernelTableAt(a);
  }

  /** A concrete one: 40 MB of argument below a stack that ends at 0x5000. */
  lemma LongArgument(argv: seq<seq<byte>>)
    requires |argv| == 1 && |argv[0]| == 0x280_0000
    ensures SpAfter(argv, 0x5000, 1) + UINT_RANGE == 0xFD80_4FFC && ReachesNull(argv, 0x5000)
  {
    SpZero(argv, 0x5000);
    SpStep(argv, 0x5000, 0);
    assert NullPush(argv, 0x5000, 0);
  }

  /** With no argument of 32 MB or more it cannot happen. */
  lemma ShortArguments(argv: seq<seq<byte>>, sz: nat)
    requires 2 * PGSIZE <= sz && forall i :: 0 <= i < |argv| ==> |argv[i]| < 0x200_0000
    ensures !ReachesNull(argv, sz)
  {
    hide SpAfter;
    forall k | 0 <= k < |argv| ensures !NullPush(argv, sz, k) {
      SpNext(argv, sz, k);
    }
  }

  /** A push that did not wrap and the ones after it. */
  lemma NoNullYet(argv: seq<seq<byte>>, sz: nat, k: nat)
    requires k <= |argv| && SpAfter(argv, sz, k) >= 0
    ensures forall j :: 0 <= j < k ==> !NullPush(argv, sz, j)
  {
    hide SpAfter;
    forall j | 0 <= j < k ensures !NullPush(argv, sz, j) { SpFalls(argv, sz, j + 1, k); }
  }

  lemma NoNullLater(argv: seq<seq<byte>>, sz: nat, k: nat)
    requires k < |argv| && SpAfter(argv, sz, k + 1) < sz - PGSIZE
    ensures forall j :: k < j < |argv| ==> !NullPush(argv, sz, j)
  {
    hide SpAfter;
    forall j | k < j < |argv| ensures !NullPush(argv, sz, j) { SpFalls(argv, sz, k + 1, j); }
  }

  // ---- What is there ----

  /** s and its NUL stand at a. */
  predicate StringAt(mem: seq<byte>, a: int, s: seq<byte>) {
    && 0 <= a && a + |s| + 1 <= |mem| && mem[a + |s|] == 0
    && forall j {:trigger s[j]} :: 0 <= j < |s| ==> mem[a + j] == s[j]
  }

  /** The first k strings are pushed. */
  ghost predicate Pushed(mem: seq<byte>, argv: seq<seq<byte>>, sz: nat, k: nat)
    requires k <= |argv|
  {
    forall i {:trigger argv[i]} :: 0 <= i < k ==> StringAt(mem, Start(argv, sz, i), argv[i])
  }

  lemma NonePushed(mem: seq<byte>, argv: seq<seq<byte>>, sz: nat)
    ensures Pushed(mem, argv, sz, 0)
  {
  }

  lemma WrittenString(mem: seq<byte>, a: nat, s: seq<byte>)
    requires a + |s| + 1 <= |mem|
    ensures StringAt(Written(mem, a, s + [0]), a, s)
  {
    hide Written;
    var m, p := Written(mem, a, s + [0]), s + [0];
    assert m[a + |s|] == p[|s|];
    forall j | 0 <= j < |s| ensures m[a + j] == s[j] {
      assert m[a + j] == p[j];
    }
  }

  lemma WrittenBelow(mem: seq<byte>, va: nat, p: seq<byte>, a: nat, s: seq<byte>)
    requires va + |p| <= |mem| && va + |p| <= a && StringAt(mem, a, s)
    ensures StringAt(Written(mem, va, p), a, s)
  {
    hide Written;
  }

  lemma PushedNext(mem: seq<byte>, argv: seq<seq<byte>>, sz: nat, k: nat)
    requires k < |argv| && Pushed(mem, argv, sz, k) && |mem| == sz && 0 <= SpAfter(argv, sz, k + 1)
    ensures var x := SpAfter(argv, sz, k + 1);
            x + |argv[k]| + 1 <= |mem| && Pushed(Written(mem, x, argv[k] + [0]), argv, sz, k + 1)
  {
    hide Written, SpAfter, StringAt;
    var x := SpAfter(argv, sz, k + 1);
    SpNext(argv, sz, k);
    SpFalls(argv, sz, 0, k);
    SpZero(argv, sz);
    WrittenString(mem, x, argv[k]);
    forall i | 0 <= i < k ensures StringAt(Written(mem, x, argv[k] + [0]), Start(argv, sz, i), argv[i]) {
      SpFalls(argv, sz, i + 1, k);
      WrittenBelow(mem, x, argv[k] + [0], SpAfter(argv, sz, i + 1), argv[i]);
    }
  }

  /** The words below the strings. */
  ghost function Pointers(argv: seq<seq<byte>>, sz: int, k: nat): (r: seq<int>)
    requires k <= |argv|
    ensures |r| == k && forall i {:trigger r[i]} :: 0 <= i < k ==> r[i] == Start(argv, sz, i)
  {
    seq(k, i requires 0 <= i < k => Start(argv, sz, i))
  }

  lemma PointersNext(argv: seq<seq<byte>>, sz: int, k: nat)
    requires k < |argv|
    ensures Pointers(argv, sz, k + 1) == Pointers(argv, sz, k) + [SpAfter(argv, sz, k + 1)]
  {
    hide Pointers;
  }

  /** The i-th entry of the array main finds at sp + 12. */
  function ArgAt(mem: seq<byte>, sp: nat, i: nat): uint32
    requires sp + 16 + 4 * i <= |mem|
  {
    WordAt(mem, sp + 12 + 4 * i)
  }

  /** What main finds at sp: a return address, argc, argv, and an array of argc
      pointers, each to its string, and a null. */
  ghost predicate Frame(mem: seq<byte>, sp: nat, argv: seq<seq<byte>>) {
    var n := |argv|;
    && sp + 4 * (3 + n + 1) <= |mem|
    && WordAt(mem, sp) == 0xffff_ffff && WordAt(mem, sp + 4) == n && WordAt(mem, sp + 8) == sp + 12
    && WordAt(mem, sp + 12 + 4 * n) == 0
    && forall i {:trigger argv[i]} :: 0 <= i < n ==> StringAt(mem, ArgAt(mem, sp, i), argv[i])
  }

  /** The words, the strings in order, and nothing else shared: each string ends before
      the one pushed earlier begins, and all lie above the words. */
  ghost predicate Apart(mem: seq<byte>, sp: nat, argv: seq<seq<byte>>) {
    && sp + 4 * (3 + |argv| + 1) <= |mem|
    && (forall i {:trigger argv[i]} :: 0 <= i < |argv| ==>
          sp + 4 * (3 + |argv| + 1) <= ArgAt(mem, sp, i) && ArgAt(mem, sp, i) + |argv[i]| + 1 <= |mem|)
    && (forall i, j {:trigger argv[i], argv[j]} :: 0 <= i < j < |argv| ==>
          ArgAt(mem, sp, j) + |argv[j]| + 1 <= ArgAt(mem, sp, i))
  }

  lemma WrittenWord(mem: seq<byte>, va: nat, ws: seq<uint32>, i: nat)
    requires va + 4 * |ws| <= |mem| && i < |ws|
    ensures WordAt(Written(mem, va, Flat(ws)), va + 4 * i) == ws[i]
  {
    hide Written, Flat, LittleEndian;
    FlatAt(ws, i);
    var m, b := Written(mem, va, Flat(ws)), Flat(ws);
    assert m[va + 4 * i] == b[4 * i] && m[va + 4 * i + 1] == b[4 * i + 1];
    assert m[va + 4 * i + 2] == b[4 * i + 2] && m[va + 4 * i + 3] == b[4 * i + 3];
  }

  /** The words written under the strings, one by one. */
  lemma WordsMade(mem: seq<byte>, sp: nat, n: uint32, ptrs: seq<uint32>, ws: seq<uint32>)
    requires |ptrs| == n && sp + 12 < UINT_RANGE && ws == [0xffff_ffff, n, sp + 12] + ptrs + [0]
    requires sp + 4 * |ws| <= |mem|
    ensures var m := Written(mem, sp, Flat(ws));
            && WordAt(m, sp) == 0xffff_ffff && WordAt(m, sp + 4) == n && WordAt(m, sp + 8) == sp + 12
            && WordAt(m, sp + 12 + 4 * n) == 0
            && forall i {:trigger ptrs[i]} :: 0 <= i < n ==> ArgAt(m, sp, i) == ptrs[i]
  {
    hide Written, Flat, WordAt;
    WrittenWord(mem, sp, ws, 0);
    WrittenWord(mem, sp, ws, 1);
    WrittenWord(mem, sp, ws, 2);
    WrittenWord(mem, sp, ws, 3 + n);
    var m := Written(mem, sp, Flat(ws));
    forall i | 0 <= i < n ensures ArgAt(m, sp, i) == ptrs[i] {
      WrittenWord(mem, sp, ws, 3 + i);
      assert ws[3 + i] == ptrs[i];
    }
  }

  lemma StringsKept(mem: seq<byte>, argv: seq<seq<byte>>, sz: nat, p: seq<byte>)
    requires |mem| == sz && Pushed(mem, argv, sz, |argv|) && Bottom(argv, sz) >= 0 && |p| == 4 * (3 + |argv| + 1)
    ensures Bottom(argv, sz) + |p| <= |mem|
    ensures Pushed(Written(mem, Bottom(argv, sz), p), argv, sz, |argv|)
  {
    hide Written, SpAfter, StringAt;
    SpFalls(argv, sz, 0, |argv|);
    SpZero(argv, sz);
    forall i | 0 <= i < |argv| ensures StringAt(Written(mem, Bottom(argv, sz), p), Start(argv, sz, i), argv[i]) {
      SpFalls(argv, sz, i + 1, |argv|);
      WrittenBelow(mem, Bottom(argv, sz), p, Start(argv, sz, i), argv[i]);
    }
  }

  lemma FrameApart(m: seq<byte>, argv: seq<seq<byte>>, sz: nat, sp: nat)
    requires |m| == sz && sp == Bottom(argv, sz) && sp + 4 * (3 + |argv| + 1) <= sz
    requires forall i {:trigger argv[i]} :: 0 <= i < |argv| ==> ArgAt(m, sp, i) == Start(argv, sz, i)
    ensures Apart(m, sp, argv)
  {
    hide SpAfter, ArgAt;
    SpZero(argv, sz);
    forall i | 0 <= i < |argv|
      ensures sp + 4 * (3 + |argv| + 1) <= ArgAt(m, sp, i) && ArgAt(m, sp, i) + |argv[i]| + 1 <= sz
    {
      SpFalls(argv, sz, i + 1, |argv|);
      SpFalls(argv, sz, 0, i);
      SpNext(argv, sz, i);
      assert ArgAt(m, sp, i) == Start(argv, sz, i);
    }
    forall i, j | 0 <= i < j < |argv| ensures ArgAt(m, sp, j) + |argv[j]| + 1 <= ArgAt(m, sp, i) {
      SpNext(argv, sz, j);
      SpFalls(argv, sz, i + 1, j);
      assert ArgAt(m, sp, i) == Start(argv, sz, i) && ArgAt(m, sp, j) == Start(argv, sz, j);
    }
  }

  /** So they make the frame. */
  lemma FrameMade(mem: seq<byte>, argv: seq<seq<byte>>, sz: nat, ptrs: seq<uint32>, ws: seq<uint32>)
    requires |mem| == sz <= KERNBASE && Pushed(mem, argv, sz, |argv|) && Bottom(argv, sz) >= 0
    requires ptrs == Pointers(argv, sz, |argv|) && |argv| < UINT_RANGE
    requires ws == [0xffff_ffff, |argv|, Bottom(argv, sz) + 12] + ptrs + [0]
    ensures var sp := Bottom(argv, sz);
            && sp + 4 * |ws| <= |mem|
            && Frame(Written(mem, sp, Flat(ws)), sp, argv) && Apart(Written(mem, sp, Flat(ws)), sp, argv)
  {
    hide Written, Flat, SpAfter, StringAt, WordAt, Pointers, Bottom, Start, ArgAt;
    var sp, n := Bottom(argv, sz), |argv|;
    StringsKept(mem, argv, sz, Flat(ws));
    WordsMade(mem, sp, n, ptrs, ws);
    var m := Written(mem, sp, Flat(ws));
    forall i | 0 <= i < n ensures ArgAt(m, sp, i) == Start(argv, sz, i) {
      assert ptrs[i] == Start(argv, sz, i);
    }
    FrameApart(m, argv, sz, sp);
  }

  // ---- Reading it back ----

  /** argc strings through the array of pointers at argv. */
  function Strings(mem: seq<byte>, argv: nat, argc: nat): (r: seq<seq<byte>>)
    ensures |r| == argc
  {
    if argc == 0 then []
    else
      Strings(mem, argv, argc - 1)
      + [if argv + 4 * argc <= |mem| then CString(mem, WordAt(mem, argv + 4 * (argc - 1)), 0) else []]
  }

  /** What main(argc, argv) is given when it starts with this stack pointer. */
  function Arguments(mem: seq<byte>, sp: nat): seq<seq<byte>>
    requires sp + 12 <= |mem|
  {
    Strings(mem, WordAt(mem, sp + 8), WordAt(mem, sp + 4))
  }

  predicate NoNul(s: seq<byte>) {
    forall j :: 0 <= j < |s| ==> s[j] != 0
  }

  lemma {:induction false} ReadString(mem: seq<byte>, a: nat, s: seq<byte>)
    requires StringAt(mem, a, s) && NoNul(s)
    ensures CString(mem, a, 0) == s
    decreases |s|
  {
    if s != [] {
      assert mem[a + 0] == s[0];
      forall j | 0 <= j < |s[1..]| ensures mem[a + 1 + j] == s[1..][j] {
        assert mem[a + (j + 1)] == s[j + 1];
      }
      ReadString(mem, a + 1, s[1..]);
    }
  }

  lemma {:induction false} ReadStrings(mem: seq<byte>, sp: nat, argv: seq<seq<byte>>, k: nat)
    requires Frame(mem, sp, argv) && k <= |argv| && forall i :: 0 <= i < |argv| ==> NoNul(argv[i])
    ensures Strings(mem, sp + 12, k) == argv[..k]
  {
    hide WordAt, CString, NoNul, StringAt;
    if k > 0 {
      ReadStrings(mem, sp, argv, k - 1);
      ReadString(mem, WordAt(mem, sp + 12 + 4 * (k - 1)), argv[k - 1]);
      assert argv[..k] == argv[..k - 1] + [argv[k - 1]];
    }
  }

  /** The program reads exactly the arguments it was given. */
  lemma ArgumentsRoundTrip(mem: seq<byte>, sp: nat, argv: seq<seq<byte>>)
    requires Frame(mem, sp, argv) && forall i :: 0 <= i < |argv| ==> NoNul(argv[i])
    ensures Arguments(mem, sp) == argv
  {
    hide WordAt, Strings, NoNul, StringAt;
    ReadStrings(mem, sp, argv, |argv|);
    assert argv[..|argv|] == argv;
  }

  // ---- exec ----

  /** NullEntry: uva2ka went through a null entry, and what follows is not described. */
  datatype CopyResult = Copied | Refused | NullEntry

  /** User memory from address 0 up, and for each page whether PTE_U is set. */
  class Space {
    var mem: seq<byte>
    const user: seq<bool>

    ghost predicate Valid()
      reads this
    {
      |mem| == |user| * PGSIZE && |user| <= UPAGES
    }

    /** copyout, page by page: all of p at va, or a page it may not touch, or one
        without a page table. */
    method Copyout(va: uint32, p: seq<byte>) returns (r: CopyResult)
      requires Valid()
      modifies this`mem
      ensures Valid() && |mem| == |old(mem)|
      ensures r == Copied <==> p == [] || Touchable(user, va, |p|)
      ensures r == NullEntry <==> p != [] && MeetsNull(user, va, |p|)
      ensures p == [] ==> mem == old(mem)
      ensures r == Copied && p != [] ==> va + |p| <= |mem| && mem == Written(old(mem), va, p)
    {
      hide Touchable, Written, MeetsNull;
      var done, at: nat := 0, va;
      while done < |p|
        invariant 0 <= done <= |p| && at == va + done && Valid() && |mem| == |old(mem)|
        invariant done < |p| ==> done == 0 || at % PGSIZE == 0
        invariant done == 0 ==> mem == old(mem)
        invariant done > 0 ==> at <= |mem| && Touchable(user, va, done) && mem == Written(old(mem), va, p[..done])
      {
        var page := at / PGSIZE;
        if KindOf(user, page) != Users {
          Stopped(user, va, done, |p|);
          return if KindOf(user, page) == NoTable then NullEntry else Refused;
        }
        var n := PGSIZE - at % PGSIZE;
        if n > |p| - done { n := |p| - done; }
        PageRoom(at, |user|, n);
        TouchableMore(user, va, done, n);
        if done == 0 { WrittenNothing(mem, va, p); }
        WrittenMore(old(mem), va, p, done, n);
        mem := mem[..at] + p[done..done + n] + mem[at + n..];
        done, at := done + n, at + n;
      }
      assert p[..done] == p;
      if p != [] { NotStopped(user, va, |p|); }
      r := Copied;
    }

    /** One turn of exec's loop: sp moved down in 32 bits, and the string put there. */
    method PushString(sp: nat, s: seq<byte>, ghost argv: seq<seq<byte>>, ghost k: nat)
      returns (r: CopyResult, sp': nat)
      requires Valid() && StackAt(user, |mem|) && k < |argv| && argv[k] == s && |s| + 1 < KERNBASE
      requires sp == SpAfter(argv, |mem|, k) && |mem| - PGSIZE <= sp <= |mem| && Pushed(mem, argv, |mem|, k)
      modifies this`mem
      ensures Valid() && |mem| == |old(mem)|
      ensures r == Copied <==> SpAfter(argv, |mem|, k + 1) >= |mem| - PGSIZE
      ensures r == NullEntry <==> NullPush(argv, |mem|, k)
      ensures r == Copied ==> sp' == SpAfter(argv, |mem|, k + 1) && Pushed(mem, argv, |mem|, k + 1)
    {
      hide Touchable, Written, Pushed, StringAt, SpAfter, MeetsNull;
      SpNext(argv, |mem|, k);
      SpStep(argv, |mem|, k);
      var x := (sp - (|s| + 1)) % UINT_RANGE;
      sp' := RoundDown4(x);
      Wraps(sp - (|s| + 1));
      StackSize(user, |mem|);
      if sp >= |s| + 1 {
        PushAllowed(user, |mem|, sp', |s| + 1, sp);
        NoNullBelow(user, sp', |s| + 1);
        if sp' >= |mem| - PGSIZE { PushedNext(mem, argv, |mem|, k); }
      } else {
        HighPush(user, |mem|, sp', |s| + 1);
      }
      r := Copyout(sp', s + [0]);
    }

    /** exec's stack: built exactly if there are at most MAXARG arguments and everything
        fits the stack page, and then it holds the arguments.  The guard page stops
        anything longer, except where sp wraps to addresses without page tables. */
    method BuildStack(argv: seq<seq<byte>>) returns (r: CopyResult, sp: nat)
      requires Valid() && StackAt(user, |mem|) && forall i :: 0 <= i < |argv| ==> |argv[i]| + 1 < KERNBASE
      modifies this`mem
      ensures Valid() && |mem| == |old(mem)|
      ensures r == Copied <==> |argv| <= MAXARG && Bottom(argv, |mem|) >= |mem| - PGSIZE
      ensures r == NullEntry <==> ReachesNull(argv, |mem|)
      ensures r == Copied ==> sp == Bottom(argv, |mem|) && Frame(mem, sp, argv) && Apart(mem, sp, argv)
    {
      hide Touchable, Written, Pushed, StringAt, SpAfter, Frame, Apart, StackAt, MeetsNull, NullPush;
      ghost var sz := |mem|;
      sp := |mem|;
      var argc := 0;
      var ptrs: seq<uint32> := [];
      SpZero(argv, sz);
      StackSize(user, sz);
      NonePushed(mem, argv, sz);
      while argc < |argv|
        invariant 0 <= argc <= |argv| && argc <= MAXARG && Valid() && |mem| == sz
        invariant sp == SpAfter(argv, sz, argc) && sz - PGSIZE <= sp <= sz && Pushed(mem, argv, sz, argc)
        invariant ptrs == Pointers(argv, sz, argc)
      {
        NoNullYet(argv, sz, argc);
        SpFalls(argv, sz, argc + 1, |argv|);
        if argc >= MAXARG { return Refused, 0; }
        SpNext(argv, sz, argc);
        r, sp := PushString(sp, argv[argc], argv, argc);
        if r != Copied {
          NoNullLater(argv, sz, argc);
          return r, 0;
        }
        PointersNext(argv, sz, argc);
        ptrs := ptrs + [sp];
        argc := argc + 1;
      }
      NoNullYet(argv, sz, argc);
      var ustack := [0xffff_ffff, argc, sp - (argc + 1) * 4] + ptrs + [0];
      var top := sp;
      sp := sp - (3 + argc + 1) * 4;
      PushAllowed(user, sz, sp, 4 * |ustack|, top);
      NoNullBelow(user, sp, 4 * |ustack|);
      if sp >= sz - PGSIZE { FrameMade(mem, argv, sz, ptrs, ustack); }
      r := Copyout(sp, Flat(ustack));
    }
  }
}
