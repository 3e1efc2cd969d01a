/** kalloc, kfree, walkpgdir, mappages, setupkvm, allocuvm, deallocuvm, freevm and
    copyuvm over the pages and roles of PageTables. */
module Vm {
  import opened Machine
  import opened PageTables

  /** Is frame f, in role r, part of the address space d, or on its way in or out? */
  predicate Belongs(r: Role, f: nat, d: nat) {
    f == d || (r.Held? && r.d == d) || (r.Table? && r.d == d) || (r.User? && r.d == d)
  }

  predicate Mine(r: Role, f: nat, d: nat) {
    r.Free? || Belongs(r, f, d)
  }

  /** From u to w, frames have moved only between the free list and d; all others
      have kept role and contents. */
  ghost predicate Only(u: View, w: View, d: nat) {
    && |w.role| == |u.role| == |w.pages| == |u.pages|
    && forall f {:trigger w.role[f]} {:trigger w.pages[f]} :: 0 <= f < |u.role| ==>
         if Mine(u.role[f], f, d) then Mine(w.role[f], f, d)
         else w.role[f] == u.role[f] && w.pages[f] == u.pages[f]
  }

  /** Page v of d is mapped as before, and if it is a user page has its contents. */
  ghost predicate SamePage(u: View, w: View, d: nat, v: nat)
    requires d < |u.pages| && d < |w.pages| && v < VPAGES
  {
    && Pte(w.pages, d, v) == Pte(u.pages, d, v)
    && (v < UPAGES && Present(Pte(u.pages, d, v)) ==>
          && Frame(Pte(u.pages, d, v)) < |u.pages| == |w.pages|
          && w.pages[Frame(Pte(u.pages, d, v))] == u.pages[Frame(Pte(u.pages, d, v))])
  }

  /** From u to w nothing about d has changed outside pages lo .. hi - 1. */
  ghost predicate Outside(u: View, w: View, d: nat, lo: int, hi: int) {
    && |w.pages| == |u.pages| && d < |u.pages|
    && forall v {:trigger Pte(w.pages, d, v)} :: 0 <= v < VPAGES && !(lo <= v < hi) ==> SamePage(u, w, d, v)
  }

  lemma OnlyTwice(u: View, v: View, w: View, d: nat)
    requires Only(u, v, d) && Only(v, w, d)
    ensures Only(u, w, d)
  {
  }

  lemma OutsideTwice(u: View, v: View, w: View, d: nat, lo: int, hi: int, lo': int, hi': int, a: int, b: int)
    requires Outside(u, v, d, lo, hi) && Outside(v, w, d, lo', hi')
    requires (lo >= hi || a <= lo < hi <= b) && (lo' >= hi' || a <= lo' < hi' <= b)
    ensures Outside(u, w, d, a, b)
  {
    hide Pte, Frame, Present;
    forall p | 0 <= p < VPAGES && !(a <= p < b) ensures SamePage(u, w, d, p) {
      assert SamePage(u, v, d, p) && SamePage(v, w, d, p);
    }
  }

  lemma OutsideWider(u: View, w: View, d: nat, lo: int, hi: int, a: int, b: int)
    requires Outside(u, w, d, lo, hi) && (lo >= hi || a <= lo < hi <= b)
    ensures Outside(u, w, d, a, b)
  {
    hide Pte;
    forall p | 0 <= p < VPAGES && !(a <= p < b) ensures SamePage(u, w, d, p) {
      assert Pte(w.pages, d, p) == Pte(u.pages, d, p);
    }
  }

  /** Pages of frames held for some address space. */
  ghost predicate HeldPages(u: View, w: View) {
    && |w.pages| == |u.pages| == |u.role|
    && forall g {:trigger w.pages[g]} :: 0 <= g < |u.role| && u.role[g].Held? ==> w.pages[g] == u.pages[g]
  }

  // ---- Single moves ----

  /** kalloc on behalf of d. */
  lemma TakeFrame(v: View, d: nat)
    requires Valid(v) && v.free != [] && d < |v.role|
    ensures var f := v.free[|v.free| - 1];
            && f < |v.role| && v.role[f].Free?
            && (var w := View(v.pages, v.role[f := Held(d)], v.free[..|v.free| - 1]);
                Valid(w) && Only(v, w, d) && (v.role[d] == Dir(0) ==> Outside(v, w, d, 0, 0)))
  {
    hide Pte;
    var f := v.free[|v.free| - 1];
    PopList(v, Held(d));
    PlainRole(v.pages, v.role, f, Held(d));
    if v.role[d] == Dir(0) { SameSpace(v, View(v.pages, v.role[f := Held(d)], v.free[..|v.free| - 1]), d); }
  }

  lemma SameSpace(v: View, w: View, d: nat)
    requires Valid(v) && d < |v.role| && v.role[d] == Dir(0) && w.pages == v.pages
    ensures Outside(v, w, d, 0, 0)
  {
    hide ListOk, TablesOk, Pte;
    forall p | 0 <= p < VPAGES ensures SamePage(v, w, d, p) {
      if p < UPAGES { UserFrame(v, d, p); }
    }
  }

  /** A mapped user page is a frame with that role. */
  lemma UserFrame(v: View, d: nat, p: nat)
    requires Valid(v) && d < |v.role| && v.role[d] == Dir(0) && p < UPAGES
    ensures Present(Pte(v.pages, d, p)) ==>
              Frame(Pte(v.pages, d, p)) < |v.pages| == |v.role| && v.role[Frame(Pte(v.pages, d, p))] == User(d, p)
  {
    hide ListOk, TablesOk, Pte;
  }

  lemma FrameSizes(v: View)
    requires Valid(v)
    ensures |v.pages| == |v.role|
  {
  }

  /** memset or memmove into a frame held for d. */
  lemma FillFrame(v: View, d: nat, f: nat, p: Page)
    requires Valid(v) && d < |v.role| && v.role[d] == Dir(0) && f < |v.role| && v.role[f] == Held(d)
    ensures var w := v.(pages := v.pages[f := p]);
            Valid(w) && Only(v, w, d) && Outside(v, w, d, 0, 0)
  {
    hide Pte, P2V, TablesOk, UsersOk, Present, Frame;
    KeepList(v, f, p, Held(d));
    assert v.role[f := Held(d)] == v.role;
    LeafWrite(v.pages, v.role, f, p);
    var w := v.(pages := v.pages[f := p]);
    forall q | 0 <= q < VPAGES ensures SamePage(v, w, d, q) {
      assert Pte(w.pages, d, q) == Pte(v.pages, d, q);
      if q < UPAGES { UserFrame(v, d, q); }
    }
  }

  /** kfree of a frame held for d. */
  lemma GiveFrame(v: View, d: nat, f: nat, p: Page)
    requires Valid(v) && d < |v.role| && f < |v.role| && v.role[f] == Held(d)
    requires p[0] == if v.free == [] then 0 else P2V(v.free[|v.free| - 1])
    ensures var w := View(v.pages[f := p], v.role[f := Free(|v.free|)], v.free + [f]);
            Valid(w) && Only(v, w, d) && (v.role[d] == Dir(0) ==> Outside(v, w, d, 0, 0))
  {
    hide Pte, P2V, TablesOk, UsersOk, ListOk;
    FrameSizes(v);
    PushList(v, f, p);
    LeafWrite(v.pages, v.role, f, p);
    PlainRole(v.pages[f := p], v.role, f, Free(|v.free|));
    if v.role[d] == Dir(0) {
      FillFrame(v, d, f, p);
      hide Valid;
      var w := View(v.pages[f := p], v.role[f := Free(|v.free|)], v.free + [f]);
      var u := v.(pages := v.pages[f := p]);
      forall q | 0 <= q < VPAGES ensures SamePage(v, w, d, q) {
        assert SamePage(v, u, d, q);
      }
    }
  }

  /** A zeroed frame held for d becomes its table i. */
  lemma InstallTable(v: View, d: nat, i: nat, f: nat)
    requires Valid(v) && d < |v.role| && v.role[d] == Dir(0) && i < NPTENTRIES && !Present(v.pages[d][i])
    requires f < |v.role| && v.role[f] == Held(d) && v.pages[f] == ZeroPage() && |v.role| <= VPAGES
    ensures var w := v.(pages := v.pages[d := v.pages[d][i := Entry(f, 7)]], role := v.role[f := Table(d, i)]);
            Valid(w) && Only(v, w, d) && Outside(v, w, d, 0, 0)
  {
    hide Pte, P2V, TablesOk, UsersOk, Present, Frame, Entry, ZeroPage;
    var p := v.pages[d][i := Entry(f, 7)];
    var w := v.(pages := v.pages[d := p], role := v.role[f := Table(d, i)]);
    NewTable(v.pages, v.role, d, i, f);
    KeepList(v, d, p, Dir(0));
    assert v.role[d := Dir(0)] == v.role;
    KeepList(v.(pages := v.pages[d := p]), f, v.pages[f], Table(d, i));
    forall q | 0 <= q < VPAGES ensures SamePage(v, w, d, q) {
      assert Pte(w.pages, d, q) == Pte(v.pages, d, q);
      if q < UPAGES { UserFrame(v, d, q); }
    }
  }

  /** The entry for page p stored, with the frames' roles role'. */
  function Stored(v: View, d: nat, p: nat, e: uint32, role': seq<Role>): View
    requires d < |v.pages| && p < VPAGES && Frame(v.pages[d][p / NPTENTRIES]) < |v.pages|
  {
    View(WithPte(v.pages, d, p, e), role', v.free)
  }

  /** Storing an entry of d changes page p of d only, whatever becomes of the frame. */
  lemma StoredOutside(v: View, d: nat, p: nat, e: uint32, role': seq<Role>)
    requires Valid(v) && HasTable(v.pages, v.role, d, p)
    ensures Outside(v, Stored(v, d, p, e, role'), d, p, p + 1)
  {
    hide Pte, P2V, ListOk, UsersOk, Present, Frame;
    StorePte(v.pages, v.role, d, p, e);
    var t := Frame(v.pages[d][p / NPTENTRIES]);
    var w := Stored(v, d, p, e, role');
    forall q | 0 <= q < VPAGES && q != p ensures SamePage(v, w, d, q) {
      assert Pte(w.pages, d, q) == Pte(v.pages, d, q);
      if q < UPAGES { UserFrame(v, d, q); }
    }
  }

  lemma StoredList(v: View, d: nat, p: nat, e: uint32)
    requires Valid(v) && HasTable(v.pages, v.role, d, p)
    ensures ListOk(Stored(v, d, p, e, v.role)) && Only(v, Stored(v, d, p, e, v.role), d)
    ensures HeldPages(v, Stored(v, d, p, e, v.role))
  {
    hide Pte, P2V, UsersOk, Present, Frame;
    var t := Frame(v.pages[d][p / NPTENTRIES]);
    KeepList(v, t, v.pages[t][p % NPTENTRIES := e], v.role[t]);
    assert v.role[t := v.role[t]] == v.role;
  }

  /** Storing an entry of d while a frame of d's becomes a user page, or ceases to be one. */
  lemma StoredRole(v: View, d: nat, p: nat, e: uint32, f: nat, r: Role)
    requires Valid(v) && HasTable(v.pages, v.role, d, p) && f < |v.role|
    requires !v.role[f].Free? && !r.Free? && Mine(v.role[f], f, d) && Mine(r, f, d)
    ensures var w := Stored(v, d, p, e, v.role[f := r]);
            ListOk(w) && Only(v, w, d) && HeldPages(v, w) && Outside(v, w, d, p, p + 1)
  {
    hide Pte, P2V, UsersOk, Present, Frame, Outside, Mine, WithPte;
    var u := Stored(v, d, p, e, v.role);
    StoredList(v, d, p, e);
    StoredOutside(v, d, p, e, v.role[f := r]);
    KeepList(u, f, u.pages[f], r);
    assert u.pages[f := u.pages[f]] == u.pages;
  }

  /** mappages, one user page: a frame held for d becomes its page p. */
  lemma MapsUser(v: View, d: nat, p: nat, f: nat, perm: nat)
    requires Valid(v) && HasTable(v.pages, v.role, d, p) && p < UPAGES && !Present(Pte(v.pages, d, p))
    requires f < |v.role| && v.role[f] == Held(d) && perm < PGSIZE
    ensures var w := Stored(v, d, p, Entry(f, perm), v.role[f := User(d, p)]);
            && Valid(w) && HasTable(w.pages, w.role, d, p) && Only(v, w, d) && Outside(v, w, d, p, p + 1)
            && Pte(w.pages, d, p) == Entry(f, perm) && HeldPages(v, w)
  {
    hide Pte, P2V, UsersOk, Present, Frame, Entry, ListOk, Only, Outside, HeldPages, WithPte;
    var e := Entry(f, perm);
    MapUser(v.pages, v.role, d, p, f, perm);
    StorePte(v.pages, v.role, d, p, e);
    StoredRole(v, d, p, e, f, User(d, p));
  }

  /** deallocuvm, one page: page p of d becomes a frame held for d. */
  lemma UnmapsUser(v: View, d: nat, p: nat)
    requires Valid(v) && HasTable(v.pages, v.role, d, p) && p < UPAGES && Present(Pte(v.pages, d, p))
    ensures var f := Frame(Pte(v.pages, d, p));
            && f < |v.role| && v.role[f] == User(d, p)
            && (var w := Stored(v, d, p, 0, v.role[f := Held(d)]);
                && Valid(w) && HasTable(w.pages, w.role, d, p) && Only(v, w, d) && Outside(v, w, d, p, p + 1)
                && Pte(w.pages, d, p) == 0 && HeldPages(v, w))
  {
    hide Pte, P2V, Present, Frame, ListOk, Only, Outside, HeldPages, WithPte;
    var f := Frame(Pte(v.pages, d, p));
    UnmapUser(v.pages, v.role, d, p);
    StorePte(v.pages, v.role, d, p, 0);
    StoredRole(v, d, p, 0, f, Held(d));
  }

  /** mappages, one page of the kernel half. */
  lemma MapsKernel(v: View, d: nat, p: nat, e: uint32)
    requires Valid(v) && HasTable(v.pages, v.role, d, p) && p >= UPAGES
    ensures var w := Stored(v, d, p, e, v.role);
            && Valid(w) && HasTable(w.pages, w.role, d, p) && Only(v, w, d) && Outside(v, w, d, p, p + 1)
            && Pte(w.pages, d, p) == e
            && HeldPages(v, w)
  {
    hide Pte, P2V, UsersOk, Present, Frame;
    MapKernel(v.pages, v.role, d, p, e);
    StorePte(v.pages, v.role, d, p, e);
    StoredList(v, d, p, e);
    StoredOutside(v, d, p, e, v.role);
  }

  // ---- What the operations do ----

  const MAXFRAMES := 0xE000

  /** Frames held for some address space, and what is in them. */
  ghost predicate HeldKept(u: View, w: View) {
    && |w.role| == |u.role| == |w.pages| == |u.pages|
    && forall f {:trigger w.role[f]} {:trigger w.pages[f]} :: 0 <= f < |u.role| && u.role[f].Held? ==>
         w.role[f] == u.role[f] && w.pages[f] == u.pages[f]
  }

  /** The only new thing since u is page tables of d. */
  ghost predicate Walked(u: View, w: View, d: nat) {
    && Only(u, w, d) && Outside(u, w, d, 0, 0) && HeldKept(u, w)
    && forall f {:trigger w.role[f]} :: 0 <= f < |u.role| ==>
         w.role[f] == u.role[f] || (u.role[f].Free? && w.role[f].Table? && w.role[f].d == d)
  }

  lemma WalkedNot(v: View, d: nat)
    requires Valid(v) && d < |v.role| && v.role[d] == Dir(0)
    ensures Walked(v, v, d)
  {
    hide Pte;
    SameSpace(v, v, d);
  }

  /** What kfree makes of a page: junk, and the link to the next free page. */
  function JunkPage(next: uint32): Page {
    seq(NPTENTRIES, _ => 0x0101_0101)[0 := next]
  }

  /** Every byte of it is 1, past the link. */
  lemma JunkBytes(next: uint32, k: nat)
    requires 0 < k < NPTENTRIES
    ensures var w := JunkPage(next)[k];
            w % 256 == 1 && w / 256 % 256 == 1 && w / 0x1_0000 % 256 == 1 && w / 0x100_0000 == 1
    ensures JunkPage(next)[0] == next
  {
  }

  /** What kfree insists on: a page between the kernel image and the top of memory. */
  predicate KernelPage(v: nat, end: nat) {
    v % PGSIZE == 0 && end <= v && KERNBASE <= v < KERNBASE + PHYSTOP
  }

  function FrameAt(v: nat): nat {
    if v < KERNBASE then 0 else (v - KERNBASE) / PGSIZE
  }

  lemma AddressOf(v: nat, end: nat)
    requires KernelPage(v, end)
    ensures P2V(FrameAt(v)) == v
  {
  }

  function Head(free: seq<nat>): nat {
    if free == [] then 0 else P2V(free[|free| - 1])
  }

  predicate TableAbsent(pages: seq<Page>, d: nat, v: nat) {
    d < |pages| && v < VPAGES && Pte(pages, d, v) == 0 && !Present(pages[d][Pdx(v)])
  }

  ghost predicate TableAt(pages: seq<Page>, role: seq<Role>, d: nat, v: nat, t: int) {
    HasTable(pages, role, d, v) && t == Frame(pages[d][Pdx(v)])
  }

  datatype MapResult = Mapped | NoMemory | Remap

  /** From u to w, page p of d got the entry for frame f, in a table made if need
      be; f itself became the user page if p is one. */
  ghost predicate MapsPage(u: View, w: View, d: nat, p: nat, f: nat, perm: nat) {
    && Only(u, w, d) && Outside(u, w, d, p, p + 1)
    && d < |u.pages| && p < VPAGES && f < VPAGES && perm < PGSIZE
    && !Present(Pte(u.pages, d, p)) && Pte(w.pages, d, p) == Entry(f, perm)
    && (forall g {:trigger w.role[g]} :: 0 <= g < |u.role| ==>
          || w.role[g] == u.role[g] || (u.role[g].Free? && w.role[g].Table? && w.role[g].d == d)
          || (p < UPAGES && g == f && u.role[g] == Held(d) && w.role[g] == User(d, p)))
    && HeldPages(u, w)
    && (p < UPAGES ==> f < |w.role| && w.role[f] == User(d, p))
  }

  /** The walk of mappages, then the store. */
  lemma WalkThenStore(u: View, v: View, d: nat, p: nat, f: nat, perm: nat)
    requires Valid(u) && Valid(v) && Walked(u, v, d) && HasTable(v.pages, v.role, d, p) && p < VPAGES
    requires !Present(Pte(v.pages, d, p)) && f < VPAGES && perm < PGSIZE
    requires p < UPAGES ==> f < |u.role| && u.role[f] == Held(d)
    ensures p < UPAGES ==> f < |v.role| && v.role[f] == Held(d)
    ensures var w := Stored(v, d, p, Entry(f, perm), if p < UPAGES then v.role[f := User(d, p)] else v.role);
            Valid(w) && HasTable(w.pages, w.role, d, p) && MapsPage(u, w, d, p, f, perm)
  {
    hide Pte, Valid, Outside, Entry, Frame, Present, WithPte, Only, HasTable;
    TableFound(v, d, p);
    if p < UPAGES {
      MapsUser(v, d, p, f, perm);
    } else {
      MapsKernel(v, d, p, Entry(f, perm));
    }
    var w := Stored(v, d, p, Entry(f, perm), if p < UPAGES then v.role[f := User(d, p)] else v.role);
    OnlyTwice(u, v, w, d);
    OutsideTwice(u, v, w, d, 0, 0, p, p + 1, p, p + 1);
    WalkedPte(u, v, d, p);
  }

  lemma TableFound(v: View, d: nat, p: nat)
    requires HasTable(v.pages, v.role, d, p)
    ensures d < |v.pages| == |v.role| && v.role[d] == Dir(0) && p < VPAGES && Frame(v.pages[d][Pdx(p)]) < |v.pages|
  {
  }

  lemma WalkedPte(u: View, v: View, d: nat, p: nat)
    requires Walked(u, v, d) && p < VPAGES
    ensures d < |u.pages| == |v.pages| && Pte(v.pages, d, p) == Pte(u.pages, d, p)
  {
    assert SamePage(u, v, d, p);
  }

  /** From u to w, pages lo .. hi - 1 of d, all in the kernel half, got entries for
      consecutive frames from f on. */
  ghost predicate MapsRange(u: View, w: View, d: nat, lo: nat, hi: int, f: nat, perm: nat) {
    && Only(u, w, d) && Outside(u, w, d, lo, hi) && HeldPages(u, w) && perm < PGSIZE
    && lo <= hi <= VPAGES && f + hi - lo <= VPAGES
    && (forall p {:trigger Pte(w.pages, d, p)} :: lo <= p < hi ==> Pte(w.pages, d, p) == Entry(f + p - lo, perm))
    && (forall g {:trigger w.role[g]} :: 0 <= g < |u.role| ==>
          w.role[g] == u.role[g] || (u.role[g].Free? && w.role[g].Table? && w.role[g].d == d))
  }

  lemma RangeNone(v: View, d: nat, lo: nat, f: nat, perm: nat)
    requires Valid(v) && d < |v.role| && v.role[d] == Dir(0) && perm < PGSIZE && lo <= VPAGES && f <= VPAGES
    ensures MapsRange(v, v, d, lo, lo, f, perm)
  {
    hide Pte, TablesOk, UsersOk;
    SameSpace(v, v, d);
    OutsideWider(v, v, d, 0, 0, lo, lo);
  }

  lemma RangeStep(u: View, v: View, w: View, d: nat, lo: nat, p: nat, f: nat, perm: nat)
    requires MapsRange(u, v, d, lo, p, f, perm) && lo <= p && p >= UPAGES
    requires f + p - lo < VPAGES && MapsPage(v, w, d, p, f + p - lo, perm)
    ensures MapsRange(u, w, d, lo, p + 1, f, perm)
  {
    hide Pte, Present, Entry, Only;
    OnlyTwice(u, v, w, d);
    OutsideTwice(u, v, w, d, lo, p, p, p + 1, lo, p + 1);
    forall q | lo <= q < p ensures Pte(w.pages, d, q) == Entry(f + q - lo, perm) {
      assert Pte(v.pages, d, q) == Entry(f + q - lo, perm);
      assert SamePage(v, w, d, q);
    }
  }

  lemma RangeWalked(u: View, v: View, w: View, d: nat, lo: nat, p: nat, f: nat, perm: nat)
    requires MapsRange(u, v, d, lo, p, f, perm) && lo <= p && Walked(v, w, d)
    ensures MapsRange(u, w, d, lo, p, f, perm)
  {
    hide Pte, Present, Entry, Only;
    OnlyTwice(u, v, w, d);
    OutsideTwice(u, v, w, d, lo, p, 0, 0, lo, p);
    forall q | lo <= q < p ensures Pte(w.pages, d, q) == Entry(f + q - lo, perm) {
      assert Pte(v.pages, d, q) == Entry(f + q - lo, perm);
      assert SamePage(v, w, d, q);
    }
  }

  /** A page outside the range mapped so far is as it was. */
  lemma RangeRest(u: View, w: View, d: nat, lo: nat, p: nat, f: nat, perm: nat)
    requires MapsRange(u, w, d, lo, p, f, perm) && p < VPAGES
    ensures d < |u.pages| == |w.pages| && Pte(w.pages, d, p) == Pte(u.pages, d, p)
  {
    assert SamePage(u, w, d, p);
  }

  // ---- Unmapping ----

  predicate UserIn(r: Role, d: nat, lo: int, hi: int) {
    r.User? && r.d == d && lo <= r.v < hi
  }

  /** From u to w, exactly the user pages lo .. hi - 1 of d have gone to the free
      list. */
  ghost predicate Freed(u: View, w: View, d: nat, lo: int, hi: int) {
    && Only(u, w, d) && Outside(u, w, d, lo, hi) && HeldPages(u, w)
    && (forall p {:trigger Pte(w.pages, d, p)} :: 0 <= p < VPAGES && lo <= p < hi ==> !Present(Pte(w.pages, d, p)))
    && (forall f {:trigger w.role[f]} :: 0 <= f < |u.role| ==>
          if UserIn(u.role[f], d, lo, hi) then w.role[f].Free? else w.role[f] == u.role[f])
  }

  lemma FreedNone(v: View, d: nat, lo: int)
    requires Valid(v) && d < |v.role| && v.role[d] == Dir(0)
    ensures Freed(v, v, d, lo, lo)
  {
    hide Pte, TablesOk, UsersOk;
    SameSpace(v, v, d);
    OutsideWider(v, v, d, 0, 0, lo, lo);
  }

  lemma NoneMapped(v: View, d: nat, p: int, p': int)
    requires Valid(v) && p' <= UPAGES && d < |v.role| && v.role[d] == Dir(0)
    requires forall q {:trigger Pte(v.pages, d, q)} :: p <= q < p' && 0 <= q ==> !Present(Pte(v.pages, d, q))
    ensures forall f {:trigger v.role[f]} :: 0 <= f < |v.role| ==> !UserIn(v.role[f], d, p, p')
  {
    hide Pte, TablesOk, ListOk, Present, Frame;
  }

  /** Pages without an entry have nothing to free. */
  lemma FreedSkip(u: View, v: View, d: nat, lo: int, p: int, p': int)
    requires Valid(v) && Freed(u, v, d, lo, p) && lo <= p <= p' <= UPAGES && d < |v.role| && v.role[d] == Dir(0)
    requires forall q {:trigger Pte(v.pages, d, q)} :: p <= q < p' && 0 <= q ==> !Present(Pte(v.pages, d, q))
    ensures Freed(u, v, d, lo, p')
  {
    hide Pte, TablesOk, ListOk, Present, Frame;
    if lo < p { OutsideWider(u, v, d, lo, p, lo, p'); } else { OutsideWider(u, v, d, lo, lo, lo, p'); }
    NoneMapped(v, d, p, p');
  }

  /** One page freed: the entry cleared, the frame put on the list. */
  lemma FreedStep(u: View, v: View, v1: View, w: View, d: nat, lo: int, p: int, f: nat)
    requires Freed(u, v, d, lo, p) && lo <= p && 0 <= p < VPAGES && d < |u.pages|
    requires Only(v, v1, d) && Outside(v, v1, d, p, p + 1) && HeldPages(v, v1) && !Present(Pte(v1.pages, d, p))
    requires f < |v.role| && v.role[f] == User(d, p) && v1.role == v.role[f := Held(d)]
    requires forall g {:trigger v.role[g]} :: 0 <= g < |v.role| && v.role[g] == User(d, p) ==> g == f
    requires Only(v1, w, d) && Outside(v1, w, d, 0, 0) && |w.role| == |v1.role|
             && w.role == v1.role[f := w.role[f]] && w.role[f].Free?
    requires forall g :: 0 <= g < |w.pages| && g != f ==> w.pages[g] == v1.pages[g]
    ensures Freed(u, w, d, lo, p + 1)
  {
    hide Pte, Present, Frame;
    OnlyTwice(u, v, v1, d);
    OnlyTwice(u, v1, w, d);
    OutsideTwice(u, v, v1, d, lo, p, p, p + 1, lo, p + 1);
    OutsideTwice(u, v1, w, d, lo, p + 1, 0, 0, lo, p + 1);
    forall q | 0 <= q < VPAGES && lo <= q < p + 1 ensures !Present(Pte(w.pages, d, q)) {
      assert SamePage(v1, w, d, q);
      if q != p { assert SamePage(v, v1, d, q); }
    }
  }

  // ---- Taking an address space apart ----

  /** The first k entries of d are given up with their tables, and all its user
      pages; the rest is as in u. */
  ghost predicate Dissolved(u: View, w: View, d: nat, k: nat) {
    && Only(u, w, d) && HeldPages(u, w) && d < |w.role| && u.role[d] == Dir(0) && w.role[d] == Dir(k)
    && forall f {:trigger w.role[f]} :: 0 <= f < |u.role| && f != d ==>
         if UserIn(u.role[f], d, 0, UPAGES) || (u.role[f].Table? && u.role[f].d == d && u.role[f].i < k)
         then w.role[f].Free? else w.role[f] == u.role[f]
  }

  lemma DropStep(v: View, d: nat, k: nat)
    requires Valid(v) && d < |v.role| && k < NPTENTRIES && v.role[d] == Dir(k) && NoUsers(v.role, d)
    ensures Present(v.pages[d][k]) ==> Frame(v.pages[d][k]) < |v.role| && v.role[Frame(v.pages[d][k])] == Table(d, k)
    ensures var w := v.(role := Dropped(v.pages, v.role, d, k));
            Valid(w) && NoUsers(w.role, d) && Only(v, w, d)
  {
    hide TablesOk, UsersOk, Frame, Present, P2V;
    DropTable(v.pages, v.role, d, k);
    var u := v;
    if Present(v.pages[d][k]) {
      var t := Frame(v.pages[d][k]);
      KeepList(v, t, v.pages[t], Held(d));
      assert v.pages[t := v.pages[t]] == v.pages;
      u := v.(role := v.role[t := Held(d)]);
    }
    KeepList(u, d, u.pages[d], Dir(k + 1));
    assert u.pages[d := u.pages[d]] == u.pages;
  }

  /** After deallocuvm(d, KERNBASE, 0). */
  lemma NoneLeft(u: View, v: View, d: nat)
    requires Valid(u) && Valid(v) && Freed(u, v, d, 0, UPAGES) && d < |u.role| && u.role[d] == v.role[d] == Dir(0)
    ensures NoUsers(v.role, d) && Dissolved(u, v, d, 0)
  {
    hide ListOk, Pte, Present, Frame;
  }

  /** Entry k of d leads to the one frame that is its table k. */
  lemma OnlyTable(v: View, d: nat, k: nat)
    requires Valid(v) && d < |v.role| && k < NPTENTRIES
    ensures forall f {:trigger v.role[f]} :: 0 <= f < |v.role| && v.role[f] == Table(d, k) ==>
              Present(v.pages[d][k]) && f == Frame(v.pages[d][k])
  {
    hide ListOk, UsersOk;
  }

  lemma DissolveStep(u: View, v: View, w: View, d: nat, k: nat)
    requires Valid(v) && Dissolved(u, v, d, k) && k < NPTENTRIES && d < |v.pages|
    requires Present(v.pages[d][k]) ==> Frame(v.pages[d][k]) < |v.role| && v.role[Frame(v.pages[d][k])] == Table(d, k)
    requires Only(v, w, d) && HeldPages(v, w)
    requires var r := v.role[d := Dir(k + 1)];
             var t := Frame(v.pages[d][k]);
             if Present(v.pages[d][k]) then w.role[t].Free? && w.role == r[t := w.role[t]] else w.role == r
    ensures Dissolved(u, w, d, k + 1)
  {
    hide TablesOk, ListOk, UsersOk, Frame, Present;
    OnlyTable(v, d, k);
    OnlyTwice(u, v, w, d);
    forall g | 0 <= g < |u.role| && u.role[g].Held? ensures w.pages[g] == u.pages[g] {
      assert v.role[g] == u.role[g] && v.pages[g] == u.pages[g];
    }
  }

  // ---- The kernel half ----

  const PTE_W := 2

  datatype Kmap = Kmap(virt: nat, phys: nat, size: nat, perm: nat)

  /** kmap[], for a kernel whose data segment starts at data. */
  function KernelMap(data: nat): (k: seq<Kmap>)
    requires KERNLINK < data < KERNBASE + PHYSTOP
    ensures |k| == 4
  {
    [Kmap(KERNBASE, 0, EXTMEM, PTE_W),
     Kmap(KERNLINK, EXTMEM, data - KERNLINK, 0),
     Kmap(data, data - KERNBASE, KERNBASE + PHYSTOP - data, PTE_W),
     Kmap(DEVSPACE, DEVSPACE, UINT_RANGE - DEVSPACE, PTE_W)]
  }

  predicate GoodKmap(k: Kmap) {
    && KERNBASE <= k.virt && k.virt % PGSIZE == 0 && k.phys % PGSIZE == 0 && 0 < k.size
    && k.virt + k.size <= UINT_RANGE && k.phys + k.size <= UINT_RANGE && k.perm < PGSIZE
  }

  predicate InKmap(k: Kmap, p: nat)
    requires GoodKmap(k)
  {
    Vpn(k.virt) <= p <= Vpn(k.virt + k.size - 1)
  }

  /** The table is usable, and no page is in two of its rows. */
  ghost predicate GoodMap(kmap: seq<Kmap>) {
    && (forall i {:trigger kmap[i]} :: 0 <= i < |kmap| ==> GoodKmap(kmap[i]))
    && (forall i, j, p {:trigger InKmap(kmap[i], p), InKmap(kmap[j], p)} ::
          0 <= i < j < |kmap| && p >= 0 ==> !(InKmap(kmap[i], p) && InKmap(kmap[j], p)))
  }

  lemma KernelRowsGood(data: nat)
    requires KERNLINK < data < KERNBASE + PHYSTOP && data % PGSIZE == 0
    ensures forall i :: 0 <= i < 4 ==> GoodKmap(KernelMap(data)[i]) && KernelMap(data)[i].size % PGSIZE == 0
  {
  }

  /** Each row ends where a later one starts, or before. */
  lemma KernelRowsRise(data: nat)
    requires KERNLINK < data < KERNBASE + PHYSTOP
    ensures var kmap := KernelMap(data);
            forall i, j :: 0 <= i < j < 4 ==> kmap[i].virt + kmap[i].size <= kmap[j].virt
  {
  }

  lemma KernelMapGood(data: nat)
    requires KERNLINK < data < KERNBASE + PHYSTOP && data % PGSIZE == 0
    ensures GoodMap(KernelMap(data))
  {
    hide InKmap, GoodKmap;
    var kmap := KernelMap(data);
    KernelRowsGood(data);
    KernelRowsRise(data);
    forall i, j, p | 0 <= i < j < |kmap| && p >= 0 ensures !(InKmap(kmap[i], p) && InKmap(kmap[j], p)) {
      RowsApart(kmap[i], kmap[j], p);
    }
  }

  lemma RowsApart(a: Kmap, b: Kmap, p: nat)
    requires GoodKmap(a) && GoodKmap(b) && a.virt + a.size <= b.virt
    ensures !(InKmap(a, p) && InKmap(b, p))
  {
  }

  lemma KmapEntry(k: Kmap, p: nat)
    requires GoodKmap(k) && InKmap(k, p)
    ensures k.phys / PGSIZE + p - Vpn(k.virt) < VPAGES
  {
  }

  /** The entry that the first n rows of the table give to page p. */
  function KernelPte(kmap: seq<Kmap>, n: nat, p: nat): uint32
    requires n <= |kmap| && forall i {:trigger kmap[i]} :: 0 <= i < |kmap| ==> GoodKmap(kmap[i])
  {
    if n == 0 then 0
    else if InKmap(kmap[n - 1], p) then
      KmapEntry(kmap[n - 1], p);
      Entry(kmap[n - 1].phys / PGSIZE + p - Vpn(kmap[n - 1].virt), kmap[n - 1].perm)
    else KernelPte(kmap, n - 1, p)
  }

  lemma {:induction false} NotYet(kmap: seq<Kmap>, n: nat, m: nat, p: nat)
    requires GoodMap(kmap) && n <= m < |kmap| && InKmap(kmap[m], p)
    ensures KernelPte(kmap, n, p) == 0
  {
    if n > 0 {
      assert !InKmap(kmap[n - 1], p);
      NotYet(kmap, n - 1, m, p);
    }
  }

  lemma {:induction false} UserHalfEmpty(kmap: seq<Kmap>, n: nat, p: nat)
    requires GoodMap(kmap) && n <= |kmap| && p < UPAGES
    ensures KernelPte(kmap, n, p) == 0
  {
    if n > 0 { UserHalfEmpty(kmap, n - 1, p); }
  }

  /** The directory entries that row k of the table needs. */
  lemma RowTables(data: nat, k: nat)
    requires KERNLINK < data < KERNBASE + PHYSTOP && data % PGSIZE == 0 && k < 4
    ensures GoodKmap(KernelMap(data)[k])
    ensures var row := KernelMap(data)[k];
            forall i :: Pdx(Vpn(row.virt)) <= i <= Pdx(Vpn(row.virt + row.size - 1)) ==> KernelTable(i)
  {
    var row := KernelMap(data)[k];
    var a, b := row.virt, row.virt + row.size - 1;
    assert a / PGSIZE / NPTENTRIES == a / 0x40_0000 && b / PGSIZE / NPTENTRIES == b / 0x40_0000;
  }

  /** The row that a page of the kernel half is in. */
  lemma {:induction false} RowEntry(kmap: seq<Kmap>, n: nat, k: nat, p: nat)
    requires GoodMap(kmap) && k < n <= |kmap| && InKmap(kmap[k], p)
    ensures Present(KernelPte(kmap, n, p))
  {
    hide InKmap, Present, Entry;
    if n - 1 > k && !InKmap(kmap[n - 1], p) { RowEntry(kmap, n - 1, k, p); }
  }

  lemma {:induction false} RowPte(kmap: seq<Kmap>, n: nat, k: nat, p: nat)
    requires GoodMap(kmap) && k < n <= |kmap| && InKmap(kmap[k], p)
             && kmap[k].phys / PGSIZE + p - Vpn(kmap[k].virt) < VPAGES
    ensures KernelPte(kmap, n, p) == Entry(kmap[k].phys / PGSIZE + p - Vpn(kmap[k].virt), kmap[k].perm)
  {
    hide InKmap, Present, Entry;
    if n - 1 > k { RowPte(kmap, n - 1, k, p); }
  }

  lemma {:induction false} NoRow(kmap: seq<Kmap>, n: nat, p: nat)
    requires GoodMap(kmap) && n <= |kmap| && forall i :: 0 <= i < n ==> !InKmap(kmap[i], p)
    ensures KernelPte(kmap, n, p) == 0
  {
    hide InKmap;
    if n > 0 { NoRow(kmap, n - 1, p); }
  }

  lemma TableRow(data: nat, i: nat) returns (k: nat)
    requires KERNLINK < data < KERNBASE + PHYSTOP && data % PGSIZE == 0 && KernelTable(i)
    ensures k < 4 && GoodKmap(KernelMap(data)[k]) && InKmap(KernelMap(data)[k], i * NPTENTRIES)
  {
    var a := i * NPTENTRIES * PGSIZE;
    k := if a < KERNLINK then 0 else if a < data then 1 else if a < KERNBASE + PHYSTOP then 2 else 3;
  }

  /** Every entry of d is the one the first n rows of kmap give it. */
  ghost predicate KernelHalf(pages: seq<Page>, d: nat, kmap: seq<Kmap>, n: nat)
    requires n <= |kmap| && forall i {:trigger kmap[i]} :: 0 <= i < |kmap| ==> GoodKmap(kmap[i])
  {
    d < |pages| && forall p {:trigger Pte(pages, d, p)} :: 0 <= p < VPAGES ==> Pte(pages, d, p) == KernelPte(kmap, n, p)
  }

  /** What the kernel expects at page p of every address space: all memory below
      PHYSTOP from KERNBASE up, frame by frame, writable except for its own text and
      constants; the devices at their own addresses; nothing a user can reach. */
  predicate KernelEntry(w: uint32, p: nat, data: nat) {
    if UPAGES <= p < UPAGES + PHYSTOP / PGSIZE then
      && Present(w) && Frame(w) == p - UPAGES && !UserAllowed(w)
      && (Writable(w) <==> !(KERNLINK <= p * PGSIZE < data))
    else if p * PGSIZE >= DEVSPACE then
      Present(w) && Frame(w) == p && !UserAllowed(w) && Writable(w)
    else
      !Present(w)
  }

  /** Pages n and up of d are the kernel's. */
  ghost predicate KernelAbove(pages: seq<Page>, d: nat, n: nat, data: nat) {
    d < |pages| && forall p {:trigger Pte(pages, d, p)} :: n <= p < VPAGES ==> KernelEntry(Pte(pages, d, p), p, data)
  }

  /** The entry of a row of the table, by its first address, its frame and its flags. */
  lemma RowGives(k: Kmap, p: nat)
    requires GoodKmap(k) && k.size % PGSIZE == 0
    ensures InKmap(k, p) <==> k.virt <= p * PGSIZE < k.virt + k.size
    ensures InKmap(k, p) ==> (k.phys / PGSIZE + p - Vpn(k.virt)) * PGSIZE == k.phys + p * PGSIZE - k.virt
  {
  }

  lemma PermBits(f: nat, perm: nat)
    requires f < VPAGES && (perm == 0 || perm == PTE_W)
    ensures !UserAllowed(Entry(f, perm)) && (Writable(Entry(f, perm)) <==> perm == PTE_W)
  {
    hide Entry;
  }

  lemma MemoryEntry(w: uint32, p: nat, data: nat, virt: nat, phys: nat)
    requires KERNBASE <= p * PGSIZE < KERNBASE + PHYSTOP && phys == virt - KERNBASE
    requires Frame(w) * PGSIZE == phys + p * PGSIZE - virt && Present(w) && !UserAllowed(w)
    requires Writable(w) <==> !(KERNLINK <= p * PGSIZE < data)
    ensures KernelEntry(w, p, data)
  {
    hide Frame, Writable, UserAllowed, Present;
  }

  lemma DeviceEntry(w: uint32, p: nat, data: nat, virt: nat)
    requires DEVSPACE <= p * PGSIZE && Frame(w) * PGSIZE == virt + p * PGSIZE - virt
    requires Present(w) && !UserAllowed(w) && Writable(w)
    ensures KernelEntry(w, p, data)
  {
    hide Frame, Writable, UserAllowed, Present;
  }

  /** A page of a row gets what the kernel expects of it. */
  lemma RowMaps(data: nat, i: nat, p: nat)
    requires KERNLINK < data < KERNBASE + PHYSTOP && data % PGSIZE == 0 && p < VPAGES && i < 4
    requires GoodKmap(KernelMap(data)[i]) && InKmap(KernelMap(data)[i], p)
    ensures var k := KernelMap(data)[i];
            var f := k.phys / PGSIZE + p - Vpn(k.virt);
            f < VPAGES && KernelEntry(Entry(f, k.perm), p, data)
  {
    hide InKmap, Writable, UserAllowed, Entry, Vpn, KernelEntry, Frame, Present;
    var k := KernelMap(data)[i];
    KernelRowsGood(data);
    RowGives(k, p);
    KmapEntry(k, p);
    var f := k.phys / PGSIZE + p - Vpn(k.virt);
    PermBits(f, k.perm);
    if i < 3 {
      MemoryEntry(Entry(f, k.perm), p, data, k.virt, k.phys);
    } else {
      DeviceEntry(Entry(f, k.perm), p, data, k.virt);
    }
  }

  /** A page of no row is one the kernel expects nothing of. */
  lemma RowsCover(data: nat, p: nat)
    requires KERNLINK < data < KERNBASE + PHYSTOP && data % PGSIZE == 0 && p < VPAGES && GoodMap(KernelMap(data))
    requires forall i :: 0 <= i < 4 ==> !InKmap(KernelMap(data)[i], p)
    ensures KernelEntry(0, p, data)
  {
    hide InKmap, GoodKmap;
    var kmap := KernelMap(data);
    KernelRowsGood(data);
    RowGives(kmap[0], p);
    RowGives(kmap[1], p);
    RowGives(kmap[2], p);
    RowGives(kmap[3], p);
    assert !InKmap(kmap[0], p) && !InKmap(kmap[1], p) && !InKmap(kmap[2], p) && !InKmap(kmap[3], p);
  }

  /** The four rows of kmap[] together give every page what the kernel expects. */
  lemma KernelMapMaps(data: nat, p: nat)
    requires KERNLINK < data < KERNBASE + PHYSTOP && data % PGSIZE == 0 && p < VPAGES && GoodMap(KernelMap(data))
    ensures KernelEntry(KernelPte(KernelMap(data), 4, p), p, data)
  {
    hide InKmap, KernelEntry, KernelMap, Entry, GoodKmap, KernelPte, Vpn;
    var kmap := KernelMap(data);
    if i :| 0 <= i < 4 && InKmap(kmap[i], p) {
      RowMaps(data, i, p);
      RowPte(kmap, 4, i, p);
    } else {
      RowsCover(data, p);
      NoRow(kmap, 4, p);
    }
  }

  lemma PresentZero()
    ensures !Present(0)
  {
  }

  lemma KernelHalfMaps(pages: seq<Page>, d: nat, data: nat)
    requires KERNLINK < data < KERNBASE + PHYSTOP && data % PGSIZE == 0 && GoodMap(KernelMap(data))
    requires KernelHalf(pages, d, KernelMap(data), 4)
    ensures KernelAbove(pages, d, 0, data)
  {
    hide KernelPte, KernelMap, KernelEntry, Pte;
    forall p | 0 <= p < VPAGES ensures KernelEntry(Pte(pages, d, p), p, data) {
      KernelMapMaps(data, p);
    }
  }

  lemma KernelHalfStep(u: View, w: View, d: nat, kmap: seq<Kmap>, n: nat)
    requires GoodMap(kmap) && n < |kmap| && KernelHalf(u.pages, d, kmap, n)
    requires MapsRange(u, w, d, Vpn(kmap[n].virt), Vpn(kmap[n].virt + kmap[n].size - 1) + 1,
                       kmap[n].phys / PGSIZE, kmap[n].perm)
    ensures KernelHalf(w.pages, d, kmap, n + 1)
  {
    hide Pte, Entry, Only, Vpn;
    forall p | 0 <= p < VPAGES ensures Pte(w.pages, d, p) == KernelPte(kmap, n + 1, p) {
      if !InKmap(kmap[n], p) { assert SamePage(u, w, d, p); }
    }
  }

  /** A page that has an entry has a table. */
  lemma TablesThere(pages: seq<Page>, d: nat, data: nat)
    requires KERNLINK < data < KERNBASE + PHYSTOP && data % PGSIZE == 0 && GoodMap(KernelMap(data))
    requires KernelHalf(pages, d, KernelMap(data), 4)
    ensures d < |pages| && forall i :: 0 <= i < NPTENTRIES && KernelTable(i) ==> Present(pages[d][i])
  {
    hide KernelPte, KernelMap, InKmap;
    forall i | 0 <= i < NPTENTRIES && KernelTable(i) ensures Present(pages[d][i]) {
      var k := TableRow(data, i);
      RowEntry(KernelMap(data), 4, k, i * NPTENTRIES);
      assert Pte(pages, d, i * NPTENTRIES) == KernelPte(KernelMap(data), 4, i * NPTENTRIES);
      assert i * NPTENTRIES / NPTENTRIES == i;
    }
  }

  // ---- Making an address space, or failing to ----

  /** Every frame of the address space d of u is free in w, and all other frames
      are in the role they were in. */
  ghost predicate Returned(u: View, w: View, d: nat) {
    && Only(u, w, d) && HeldPages(u, w)
    && forall f {:trigger w.role[f]} :: 0 <= f < |u.role| ==>
         if f == d || (u.role[f].Table? && u.role[f].d == d) || (u.role[f].User? && u.role[f].d == d)
         then w.role[f].Free? else w.role[f] == u.role[f]
  }

  /** From u to w, frame d and frames for it were taken from the free list. */
  ghost predicate SetUp(u: View, w: View, d: nat) {
    && Only(u, w, d) && HeldPages(u, w)
    && d < |u.role| && u.role[d].Free? && w.role[d] == Dir(0)
    && forall g {:trigger w.role[g]} :: 0 <= g < |u.role| && g != d ==> RoleBuilt(u.role[g], w.role[g], d)
  }

  predicate RoleBuilt(r: Role, r': Role, d: nat) {
    r' == r || (r.Free? && (r'.Free? || (r'.Table? && r'.d == d) || (r'.User? && r'.d == d)))
  }

  /** What was free is free, and everything else is as it was. */
  ghost predicate Undone(u: View, w: View) {
    && |w.role| == |u.role| == |w.pages| == |u.pages|
    && forall f {:trigger w.role[f]} {:trigger w.pages[f]} :: 0 <= f < |u.role| ==>
         if u.role[f].Free? then w.role[f].Free? else w.role[f] == u.role[f] && w.pages[f] == u.pages[f]
  }

  /** A zeroed frame becomes a directory. */
  lemma MakeDir(u: View, v: View, d: nat)
    requires Valid(u) && Valid(v) && d < |u.role| && u.role[d].Free?
    requires v.pages == u.pages && v.role == u.role[d := Other]
    ensures var w := v.(pages := v.pages[d := ZeroPage()], role := v.role[d := Dir(0)]);
            Valid(w) && SetUp(u, w, d) && forall p {:trigger Pte(w.pages, d, p)} :: 0 <= p < VPAGES ==>
              Pte(w.pages, d, p) == 0
  {
    hide TablesOk, UsersOk, P2V, ZeroPage, Pte;
    KeepList(v, d, ZeroPage(), Dir(0));
    LeafWrite(v.pages, v.role, d, ZeroPage());
    NewDir(v.pages[d := ZeroPage()], v.role, d);
  }

  lemma SetUpMore(u: View, v: View, w: View, d: nat, lo: nat, hi: nat, f: nat, perm: nat)
    requires SetUp(u, v, d) && MapsRange(v, w, d, lo, hi, f, perm)
    ensures SetUp(u, w, d)
  {
    hide Pte, Only, Entry;
    OnlyTwice(u, v, w, d);
    OnlyDir(v, w, d);
    forall g | 0 <= g < |u.role| && g != d ensures RoleBuilt(u.role[g], w.role[g], d) {
      assert RoleBuilt(u.role[g], v.role[g], d);
    }
  }

  lemma OnlyDir(v: View, w: View, d: nat)
    requires Only(v, w, d)
    ensures |w.role| == |v.role| == |w.pages| == |v.pages|
  {
  }

  /** Taking the new address space apart again leaves no trace. */
  lemma SetUpUndone(u: View, v: View, w: View, d: nat)
    requires Valid(u) && SetUp(u, v, d) && Returned(v, w, d)
    ensures Undone(u, w)
  {
    hide Pte, ListOk, Frame, Present;
    forall g | 0 <= g < |u.role|
      ensures if u.role[g].Free? then w.role[g].Free? else w.role[g] == u.role[g] && w.pages[g] == u.pages[g]
    {
      if g != d { assert RoleBuilt(u.role[g], v.role[g], d); }
    }
  }

  // ---- Growing an address space ----

  const USER_RW := 6     // PTE_W | PTE_U

  /** What new pages hold and allow: zeros for the process to read and write, or what
      the same page of s held and allowed in an earlier state. */
  datatype Source = Zeros | CopyOf(s: nat, from: View)

  ghost function PageFrom(src: Source, q: nat): Page {
    if src.Zeros? || src.s >= |src.from.pages| || q >= VPAGES then ZeroPage()
    else
      var f := Frame(Pte(src.from.pages, src.s, q));
      if f < |src.from.pages| then src.from.pages[f] else ZeroPage()
  }

  ghost function PermFrom(src: Source, q: nat): (perm: nat)
    ensures perm < PGSIZE
  {
    if src.Zeros? || src.s >= |src.from.pages| || q >= VPAGES then USER_RW
    else Flags(Pte(src.from.pages, src.s, q))
  }

  /** From u to w, pages lo .. p - 1 of d became pages off the free list, filled from
      src; frame h, unless that is -1, was taken off it too and is held for d. */
  ghost predicate Alloced(u: View, w: View, d: nat, lo: int, p: int, h: int, src: Source) {
    && Only(u, w, d) && HeldPages(u, w) && Outside(u, w, d, lo, p)
    && (forall q {:trigger Pte(w.pages, d, q)} :: 0 <= q < VPAGES && lo <= q < p ==> FilledAt(w, d, q, src))
    && (forall g {:trigger w.role[g]} :: 0 <= g < |u.role| ==> RoleAlloced(u.role[g], w.role[g], g, d, lo, p, h))
  }

  /** A frame's role before and after: the same, or taken off the free list. */
  predicate RoleAlloced(r: Role, r': Role, g: int, d: nat, lo: int, p: int, h: int) {
    r' == r || (r.Free? && ((r'.Table? && r'.d == d) || UserIn(r', d, lo, p) || (g == h && r' == Held(d))))
  }

  /** Page q of d holds and allows what src says. */
  ghost predicate FilledAt(w: View, d: nat, q: nat, src: Source)
    requires d < |w.pages| && q < VPAGES
  {
    var e := Pte(w.pages, d, q);
    Present(e) && Flags(e) == WithP(PermFrom(src, q)) && Frame(e) < |w.pages| && w.pages[Frame(e)] == PageFrom(src, q)
  }

  /** Pages lo .. hi - 1 of d are zeroed pages that the process may read and write. */
  ghost predicate NewPages(w: View, d: nat, lo: int, hi: int) {
    d < |w.pages| && forall q {:trigger Pte(w.pages, d, q)} :: 0 <= q < VPAGES && lo <= q < hi ==>
      var e := Pte(w.pages, d, q);
      && Present(e) && Writable(e) && UserAllowed(e)
      && Frame(e) < |w.pages| && forall k :: 0 <= k < NPTENTRIES ==> w.pages[Frame(e)][k] == 0
  }

  lemma AllocedNew(u: View, w: View, d: nat, lo: int, hi: int)
    requires Alloced(u, w, d, lo, hi, -1, Zeros) && d < |w.pages|
    ensures NewPages(w, d, lo, hi)
  {
    hide Pte, Only, Outside;
    forall q | 0 <= q < VPAGES && lo <= q < hi ensures FilledAt(w, d, q, Zeros) {
      var e := Pte(w.pages, d, q);
    }
  }

  lemma AllocedNone(v: View, d: nat, lo: int, src: Source)
    requires Valid(v) && d < |v.role| && v.role[d] == Dir(0)
    ensures Alloced(v, v, d, lo, lo, -1, src)
  {
    hide Pte, TablesOk, UsersOk;
    SameSpace(v, v, d);
    OutsideWider(v, v, d, 0, 0, lo, lo);
  }

  /** A step that changes no page of d keeps what is done. */
  lemma AllocedStays(u: View, v: View, w: View, d: nat, lo: int, p: int, h: int, h': int, src: Source)
    requires Alloced(u, v, d, lo, p, h, src) && 0 <= lo <= p <= UPAGES
    requires Only(v, w, d) && Outside(v, w, d, 0, 0) && |v.role| == |u.role| && |w.pages| == |v.pages|
    requires forall g {:trigger w.pages[g]} :: 0 <= g < |u.role| && u.role[g].Held? ==> w.pages[g] == v.pages[g]
    requires forall g {:trigger w.role[g]} :: 0 <= g < |v.role| ==>
               || (w.role[g] == v.role[g] && (g == h ==> h' == h || h == -1))
               || (v.role[g].Free? && w.role[g].Table? && w.role[g].d == d)
               || (v.role[g].Free? && g == h' && w.role[g] == Held(d))
    ensures Alloced(u, w, d, lo, p, h', src)
  {
    hide Pte, Present, Frame, Only, PageFrom, PermFrom;
    OnlyTwice(u, v, w, d);
    OutsideTwice(u, v, w, d, lo, p, 0, 0, lo, p);
    forall q | 0 <= q < VPAGES && lo <= q < p ensures FilledAt(w, d, q, src) {
      assert SamePage(v, w, d, q);
      assert FilledAt(v, d, q, src);
    }
    forall g | 0 <= g < |u.role| && u.role[g].Held? ensures w.pages[g] == u.pages[g] {
      assert RoleAlloced(u.role[g], v.role[g], g, d, lo, p, h);
    }
    forall g | 0 <= g < |u.role| ensures RoleAlloced(u.role[g], w.role[g], g, d, lo, p, h') {
      assert RoleAlloced(u.role[g], v.role[g], g, d, lo, p, h);
    }
  }

  /** The held frame, filled, becomes page p. */
  lemma AllocedStep(u: View, v: View, w: View, d: nat, lo: int, p: nat, f: nat, src: Source)
    requires Alloced(u, v, d, lo, p, f, src) && 0 <= lo <= p < UPAGES && f < |v.role| && |v.role| == |u.role|
    requires v.role[f] == Held(d) && v.pages[f] == PageFrom(src, p) && MapsPage(v, w, d, p, f, PermFrom(src, p))
    requires u.role[f].Free?
    ensures Alloced(u, w, d, lo, p + 1, -1, src)
  {
    hide Pte, Only, PageFrom, PermFrom, Entry;
    OnlyTwice(u, v, w, d);
    OnlyDir(v, w, d);
    OutsideTwice(u, v, w, d, lo, p, p, p + 1, lo, p + 1);
    forall q | 0 <= q < VPAGES && lo <= q < p + 1 ensures FilledAt(w, d, q, src) {
      if q < p {
        assert SamePage(v, w, d, q);
        assert FilledAt(v, d, q, src);
      }
    }
    forall g | 0 <= g < |u.role| && u.role[g].Held? ensures w.pages[g] == u.pages[g] {
      assert RoleAlloced(u.role[g], v.role[g], g, d, lo, p, f);
    }
    forall g | 0 <= g < |u.role| ensures RoleAlloced(u.role[g], w.role[g], g, d, lo, p + 1, -1) {
      assert RoleAlloced(u.role[g], v.role[g], g, d, lo, p, f);
    }
  }

  /** Every page of d is as in u, or mapped in neither; frames are where they were,
      but for tables of d that have stayed, and frame h held for d. */
  ghost predicate Backed(u: View, w: View, d: nat, h: int) {
    && Only(u, w, d) && HeldPages(u, w) && d < |u.pages|
    && (forall p {:trigger Pte(w.pages, d, p)} :: 0 <= p < VPAGES ==>
          SamePage(u, w, d, p) || (!Present(Pte(u.pages, d, p)) && !Present(Pte(w.pages, d, p))))
    && (forall g {:trigger w.role[g]} :: 0 <= g < |u.role| ==> RoleBacked(u.role[g], w.role[g], g, d, h))
  }

  predicate RoleBacked(r: Role, r': Role, g: int, d: nat, h: int) {
    r' == r || (r.Free? && (r'.Free? || (r'.Table? && r'.d == d) || (g == h && r' == Held(d))))
  }

  /** None of the pages lo .. hi - 1 of d is mapped. */
  predicate Clear(pages: seq<Page>, d: nat, lo: int, hi: int) {
    d < |pages| && forall q {:trigger Pte(pages, d, q)} :: lo <= q < hi && 0 <= q < VPAGES ==>
      !Present(Pte(pages, d, q))
  }

  lemma ClearNone(pages: seq<Page>, d: nat, lo: int)
    requires d < |pages|
    ensures Clear(pages, d, lo, lo)
  {
  }

  lemma ClearMore(pages: seq<Page>, d: nat, lo: nat, p: nat, hi: nat)
    requires d < |pages| && lo <= p < hi <= VPAGES && Clear(pages, d, lo, p)
    ensures Clear(pages, d, lo, p + 1) <==> !Present(Pte(pages, d, p))
    ensures Clear(pages, d, lo, hi) ==> !Present(Pte(pages, d, p))
  {
    hide Pte, Present;
  }

  /** deallocuvm takes back what allocuvm had done. */
  lemma AllocedBack(u: View, v: View, w: View, d: nat, lo: int, p: int, hi: int, h: int, src: Source)
    requires Alloced(u, v, d, lo, p, h, src) && Freed(v, w, d, lo, hi) && 0 <= lo <= p <= hi <= UPAGES
             && |v.role| == |u.role|
    requires Valid(u) && d < |u.role| && u.role[d] == Dir(0)
    requires Clear(u.pages, d, lo, hi)
    ensures Backed(u, w, d, h)
  {
    hide Pte, Only, Present, Frame, ListOk, TablesOk, UsersOk;
    NoneMapped(u, d, lo, hi);
    OnlyDir(v, w, d);
    forall g | 0 <= g < |u.role| ensures RoleBacked(u.role[g], w.role[g], g, d, h) {
      assert RoleAlloced(u.role[g], v.role[g], g, d, lo, p, h);
      assert !UserIn(u.role[g], d, lo, hi);
    }
    OnlyTwice(u, v, w, d);
    forall q | 0 <= q < VPAGES
      ensures SamePage(u, w, d, q) || (!Present(Pte(u.pages, d, q)) && !Present(Pte(w.pages, d, q)))
    {
      if !(lo <= q < hi) {
        assert SamePage(u, v, d, q) && SamePage(v, w, d, q);
      }
    }
    forall g | 0 <= g < |u.role| && u.role[g].Held? ensures w.pages[g] == u.pages[g] {
      assert RoleAlloced(u.role[g], v.role[g], g, d, lo, p, h);
    }
  }

  /** And the held frame goes back too. */
  lemma BackedFully(u: View, v: View, w: View, d: nat, h: nat)
    requires Backed(u, v, d, h) && h < |v.role| == |u.role| && v.role[h] == Held(d) && u.role[h].Free?
    requires Only(v, w, d) && Outside(v, w, d, 0, 0) && |w.role| == |v.role| && w.role == v.role[h := w.role[h]]
             && w.role[h].Free?
    requires forall g :: 0 <= g < |w.pages| && g != h ==> w.pages[g] == v.pages[g]
    ensures Backed(u, w, d, -1)
  {
    hide Pte, Only, Present, Frame;
    OnlyTwice(u, v, w, d);
    forall q | 0 <= q < VPAGES
      ensures SamePage(u, w, d, q) || (!Present(Pte(u.pages, d, q)) && !Present(Pte(w.pages, d, q)))
    {
      assert SamePage(v, w, d, q);
    }
    forall g | 0 <= g < |u.role| && u.role[g].Held? ensures w.pages[g] == u.pages[g] {
      assert g != h;
    }
  }

  lemma BackedAfter(u: View, v: View, x: View, w: View, d: nat, lo: int, p: int, hi: int, h: nat)
    requires Alloced(u, v, d, lo, p, h, Zeros) && Freed(v, x, d, lo, hi) && 0 <= lo <= p <= hi <= UPAGES
    requires Valid(u) && d < |u.role| && u.role[d] == Dir(0) && Clear(u.pages, d, lo, hi)
    requires |v.role| == |u.role| == |x.role| && h < |x.role| && x.role[h] == Held(d) && u.role[h].Free?
    requires Only(x, w, d) && Outside(x, w, d, 0, 0) && |w.role| == |x.role|
    requires w.role == x.role[h := w.role[h]] && w.role[h].Free?
    requires forall g :: 0 <= g < |w.pages| && g != h ==> w.pages[g] == x.pages[g]
    ensures Backed(u, w, d, -1)
  {
    hide Valid, Alloced, Freed, Backed, Only, Outside, Clear;
    AllocedBack(u, v, x, d, lo, p, hi, h, Zeros);
    BackedFully(u, x, w, d, h);
  }

  lemma MapsAbsent(u: View, w: View, d: nat, p: nat, f: nat, perm: nat)
    requires MapsPage(u, w, d, p, f, perm)
    ensures d < |u.pages| && p < VPAGES && !Present(Pte(u.pages, d, p))
  {
  }

  // ---- Every frame has one place ----

  /** Page p of the address space d is mapped, and to which frame. */
  predicate IsUser(v: View, d: int, p: int) {
    0 <= d < |v.role| && d < |v.pages| && 0 <= p < UPAGES && v.role[d] == Dir(0) && Present(Pte(v.pages, d, p))
  }

  function UserAt(v: View, d: int, p: int): nat
    requires IsUser(v, d, p)
  {
    Frame(Pte(v.pages, d, p))
  }

  /** Entry i of the directory d is in force and has a table, and in which frame. */
  predicate IsTable(v: View, d: int, i: int) {
    && 0 <= d < |v.role| && d < |v.pages| && 0 <= i < NPTENTRIES
    && v.role[d].Dir? && v.role[d].from <= i && Present(v.pages[d][i])
  }

  function TableFrame(v: View, d: int, i: int): nat
    requires IsTable(v, d, i)
  {
    Frame(v.pages[d][i])
  }

  // The five places a frame can be in, through the free list and the entries.

  ghost predicate OnFreeList(v: View, f: nat) {
    exists k :: 0 <= k < |v.free| && v.free[k] == f
  }

  predicate IsDirectory(v: View, f: nat) {
    f < |v.role| && v.role[f].Dir?
  }

  ghost predicate BehindEntry(v: View, f: nat) {
    exists d, i :: IsTable(v, d, i) && TableFrame(v, d, i) == f
  }

  ghost predicate UserPageOf(v: View, f: nat) {
    exists d, p :: IsUser(v, d, p) && UserAt(v, d, p) == f
  }

  /** Kernel stacks, pipes, and frames on their way in or out of an address space. */
  predicate InOtherUse(v: View, f: nat) {
    f < |v.role| && (v.role[f].Other? || v.role[f].Held?)
  }

  function Count(b: bool): nat {
    if b then 1 else 0
  }

  /** In how many places frame f is. */
  ghost function Places(v: View, f: nat): nat {
    Count(OnFreeList(v, f)) + Count(IsDirectory(v, f)) + Count(BehindEntry(v, f)) + Count(UserPageOf(v, f))
    + Count(InOtherUse(v, f))
  }

  lemma FreePlace(v: View, f: nat)
    requires ListOk(v) && f < |v.role|
    ensures OnFreeList(v, f) <==> v.role[f].Free?
  {
    if v.role[f].Free? { assert v.free[v.role[f].pos] == f; }
  }

  lemma TablePlace(v: View, f: nat)
    requires TablesOk(v.pages, v.role) && f < |v.role|
    ensures BehindEntry(v, f) <==> v.role[f].Table?
  {
    if v.role[f].Table? { assert IsTable(v, v.role[f].d, v.role[f].i); }
  }

  lemma UserPlace(v: View, f: nat)
    requires UsersOk(v.pages, v.role) && f < |v.role|
    ensures UserPageOf(v, f) <==> v.role[f].User?
  {
    hide Pte;
    if v.role[f].User? { assert IsUser(v, v.role[f].d, v.role[f].v); }
  }

  /** Every frame that is ours to give is in exactly one place: on the free list, a
      directory, the table behind an entry, a user page, or in other use; a reserved
      one is in none. */
  lemma Partition(v: View, f: nat)
    requires Valid(v) && f < |v.role|
    ensures Places(v, f) == if v.role[f] == Reserved then 0 else 1
  {
    hide ListOk, TablesOk, UsersOk, OnFreeList, BehindEntry, UserPageOf;
    FreePlace(v, f);
    TablePlace(v, f);
    UserPlace(v, f);
  }

  /** And in that place once: at one position of the list, behind one entry of one
      directory, as one page of one address space. */
  lemma PlacedOnce(v: View)
    requires Valid(v)
    ensures forall k, l :: 0 <= k < l < |v.free| ==> v.free[k] != v.free[l]
    ensures forall d, i, e, j :: IsTable(v, d, i) && IsTable(v, e, j) && TableFrame(v, d, i) == TableFrame(v, e, j) ==>
              d == e && i == j
    ensures forall d, p, e, q :: IsUser(v, d, p) && IsUser(v, e, q) && UserAt(v, d, p) == UserAt(v, e, q) ==>
              d == e && p == q
  {
    hide Pte;
  }

  /** The page at the head of the list, and the link in it. */
  lemma HeadOfList(v: View)
    requires ListOk(v) && v.free != []
    ensures var n := |v.free| - 1;
            && v.free[n] < |v.pages| == |v.role| && v.role[v.free[n]] == Free(n)
            && Head(v.free) == P2V(v.free[n]) && (Head(v.free) - KERNBASE) / PGSIZE == v.free[n]
            && v.pages[v.free[n]][0] == Head(v.free[..n])
  {
    var n := |v.free| - 1;
    assert v.pages[v.free[n]][0] == if n == 0 then 0 else P2V(v.free[n - 1]);
  }

  lemma HeadAddress(free: seq<nat>)
    ensures Head(free) == 0 <==> free == []
  {
  }

  // ---- A page freed twice ----

  /** The address n links down the list from a. */
  function Follow(pages: seq<Page>, a: nat, n: nat): nat {
    if n == 0 then a
    else
      var b := Follow(pages, a, n - 1);
      if b < KERNBASE || FrameAt(b) >= |pages| then 0 else pages[FrameAt(b)][0]
  }

  lemma FollowOne(pages: seq<Page>, a: nat, n: nat)
    ensures Follow(pages, a, n + 1) ==
            var b := Follow(pages, a, n); if b < KERNBASE || FrameAt(b) >= |pages| then 0 else pages[FrameAt(b)][0]
  {
  }

  lemma FrameNumber(f: nat)
    ensures P2V(f) >= KERNBASE && FrameAt(P2V(f)) == f
  {
  }

  /** From the freed page the old list follows, down to where it was already. */
  lemma {:induction false} FollowsList(v: View, j: nat, k: nat, p: Page)
    requires ListOk(v) && j < |v.free| && 1 <= k <= |v.free| - j && p[0] == Head(v.free)
    ensures Follow(v.pages[v.free[j] := p], P2V(v.free[j]), k) == P2V(v.free[|v.free| - k])
  {
    hide P2V, FrameAt;
    var pages := v.pages[v.free[j] := p];
    FrameNumber(v.free[j]);
    FollowOne(pages, P2V(v.free[j]), k - 1);
    if k > 1 {
      FollowsList(v, j, k - 1, p);
      FrameNumber(v.free[|v.free| - k + 1]);
      assert v.pages[v.free[|v.free| - k + 1]][0] == P2V(v.free[|v.free| - k]);
    }
  }

  /** So freeing a page that is on the list bends the list into a circle. */
  lemma DoubleFree(v: View, j: nat)
    requires ListOk(v) && j < |v.free| && Head(v.free) < UINT_RANGE
    ensures Follow(v.pages[v.free[j] := JunkPage(Head(v.free))], P2V(v.free[j]), |v.free| - j) == P2V(v.free[j])
  {
    hide ListOk, P2V, Follow;
    FollowsList(v, j, |v.free| - j, JunkPage(Head(v.free)));
  }

  // ---- Copying an address space ----

  /** What happens to d leaves another address space alone. */
  lemma SpaceKept(u: View, w: View, s: nat, d: nat)
    requires Valid(u) && Only(u, w, d) && s < |u.role| && u.role[s] == Dir(0) && s != d
    requires d < |u.role| && u.role[d].Free?
    ensures w.role[s] == Dir(0) && Outside(u, w, s, 0, 0)
  {
    hide ListOk, Frame, Present;
    forall p | 0 <= p < VPAGES ensures SamePage(u, w, s, p) {
      var e := u.pages[s][Pdx(p)];
      assert w.pages[s] == u.pages[s];
      if Present(e) { assert u.role[Frame(e)] == Table(s, Pdx(p)); }
      if p < UPAGES { UserFrame(u, s, p); }
    }
  }

  /** No frame is a user page of two address spaces, or two pages of one. */
  lemma SpacesDisjoint(v: View, d: nat, e: nat, p: nat, q: nat)
    requires Valid(v) && d < |v.role| && e < |v.role| && v.role[d] == v.role[e] == Dir(0) && p < UPAGES && q < UPAGES
    requires Present(Pte(v.pages, d, p)) && Present(Pte(v.pages, e, q)) && (d != e || p != q)
    ensures Frame(Pte(v.pages, d, p)) != Frame(Pte(v.pages, e, q))
  {
    UserFrame(v, d, p);
    UserFrame(v, e, q);
  }

  lemma AllocedSetUp(u: View, v: View, w: View, d: nat, p: int, h: int, src: Source)
    requires SetUp(u, v, d) && Alloced(v, w, d, 0, p, h, src) && w.role[d] == Dir(0)
    ensures Only(u, w, d) && HeldPages(u, w) && |u.role| == |w.role|
    ensures forall g {:trigger w.role[g]} :: 0 <= g < |u.role| && g != d && g != h ==>
              RoleBuilt(u.role[g], w.role[g], d)
    ensures h == -1 ==> SetUp(u, w, d)
  {
    hide Pte, Only, PageFrom, PermFrom;
    OnlyTwice(u, v, w, d);
    OnlyDir(u, w, d);
    forall g | 0 <= g < |u.role| && g != d && g != h ensures RoleBuilt(u.role[g], w.role[g], d) {
      assert RoleBuilt(u.role[g], v.role[g], d) && RoleAlloced(v.role[g], w.role[g], g, d, 0, p, h);
    }
    forall g | 0 <= g < |u.role| && u.role[g].Held? ensures w.pages[g] == u.pages[g] {
      assert RoleBuilt(u.role[g], v.role[g], d) && RoleAlloced(v.role[g], w.role[g], g, d, 0, p, h);
    }
  }

  /** The frame held for the copy given back. */
  lemma SetUpDrop(u: View, v: View, w: View, d: nat, h: nat)
    requires Only(u, v, d) && HeldPages(u, v) && d < |u.role| && u.role[d].Free? && v.role[d] == Dir(0)
    requires forall g {:trigger v.role[g]} :: 0 <= g < |u.role| && g != d && g != h ==>
               RoleBuilt(u.role[g], v.role[g], d)
    requires h < |v.role| && v.role[h] == Held(d) && u.role[h].Free?
    requires Only(v, w, d) && w.role == v.role[h := w.role[h]] && w.role[h].Free?
    requires forall g :: 0 <= g < |w.pages| && g != h ==> w.pages[g] == v.pages[g]
    ensures SetUp(u, w, d)
  {
    OnlyTwice(u, v, w, d);
    forall g | 0 <= g < |u.role| && g != d ensures RoleBuilt(u.role[g], w.role[g], d) {
      if g != h { assert RoleBuilt(u.role[g], v.role[g], d); }
    }
  }

  datatype CopyResult = Copied(d: nat) | OutOfMemory | Missing

  /** w is u with a new address space d whose first n pages are copies of those of s,
      byte for byte and flag for flag, and whose other pages are the kernel's. */
  ghost predicate CopyMade(u: View, w: View, s: nat, d: nat, n: nat, data: nat) {
    && SetUp(u, w, d) && s < |u.pages| && d < |w.pages| && KernelAbove(w.pages, d, n, data)
    && (forall p {:trigger Pte(w.pages, d, p)} :: 0 <= p < VPAGES && p < n ==>
          Present(Pte(u.pages, s, p)) && FilledAt(w, d, p, CopyOf(s, u)))
  }

  lemma CopyDone(u: View, v: View, w: View, s: nat, d: nat, n: nat, data: nat)
    requires SetUp(u, v, d) && Alloced(v, w, d, 0, n, -1, CopyOf(s, u)) && w.role[d] == Dir(0) && s < |u.pages|
    requires KernelAbove(v.pages, d, 0, data) && n <= UPAGES
    requires forall q {:trigger Pte(u.pages, s, q)} :: 0 <= q < n ==> Present(Pte(u.pages, s, q))
    ensures CopyMade(u, w, s, d, n, data)
  {
    hide Pte, Only, PageFrom, PermFrom, SetUp, KernelEntry;
    AllocedSetUp(u, v, w, d, n, -1, CopyOf(s, u));
    forall p | n <= p < VPAGES ensures KernelEntry(Pte(w.pages, d, p), p, data) {
      assert SamePage(v, w, d, p);
    }
    forall p | 0 <= p < n ensures Present(Pte(u.pages, s, p)) && FilledAt(w, d, p, CopyOf(s, u)) {
    }
  }

  // ---- Steps of the operations ----

  lemma SetUpFacts(u: View, w: View, d: nat)
    requires SetUp(u, w, d)
    ensures |u.role| == |w.role| == |u.pages| == |w.pages| && d < |u.role| && u.role[d].Free?
            && w.role[d] == Dir(0) && Only(u, w, d)
  {
  }

  /** What copyuvm copies is what was there. */
  lemma SourcePage(u: View, v: View, s: nat, p: nat)
    requires Valid(u) && s < |u.pages| && s < |v.pages| && s < |u.role| && u.role[s] == Dir(0) && p < UPAGES
    requires SamePage(u, v, s, p) && Present(Pte(v.pages, s, p))
    ensures var e := Pte(v.pages, s, p);
            Frame(e) < |v.pages| && v.pages[Frame(e)] == PageFrom(CopyOf(s, u), p)
            && Flags(e) == PermFrom(CopyOf(s, u), p)
  {
    hide Pte, Valid;
  }

  lemma UserSlotEmpty(pages: seq<Page>, d: nat, kmap: seq<Kmap>, p: nat)
    requires GoodMap(kmap) && |kmap| == 4 && KernelHalf(pages, d, kmap, 4) && p < UPAGES
    ensures d < |pages| && !Present(Pte(pages, d, p))
  {
    hide Pte;
    UserHalfEmpty(kmap, 4, p);
  }

  /** A frame free after setupkvm was free before. */
  lemma WasFree(u: View, v: View, d: nat, f: nat)
    requires SetUp(u, v, d) && f < |v.role| && v.role[f].Free?
    ensures f < |u.role| && u.role[f].Free? && f != d
  {
    if f != d { assert RoleBuilt(u.role[f], v.role[f], d); }
  }

  lemma HeldStill(v: View, w: View, d: nat, lo: int, hi: int, f: nat)
    requires Freed(v, w, d, lo, hi) && f < |v.role| && v.role[f] == Held(d)
    ensures |w.role| == |v.role| && w.role[f] == Held(d)
  {
  }

  lemma AllocedUnchanged(u: View, w: View, d: nat, lo: int, p: int, h: int, src: Source)
    requires Alloced(u, w, d, lo, p, h, src)
    ensures |u.role| == |w.role| == |u.pages| == |w.pages|
    ensures forall g {:trigger u.role[g]} :: 0 <= g < |u.role| && u.role[g].Held? ==> w.role[g] == u.role[g]
  {
    forall g | 0 <= g < |u.role| && u.role[g].Held? ensures w.role[g] == u.role[g] {
      assert RoleAlloced(u.role[g], w.role[g], g, d, lo, p, h);
    }
  }

  /** A frame free now was free at the start. */
  lemma AllocedFree(u: View, w: View, d: nat, lo: int, p: int, f: nat, src: Source)
    requires Alloced(u, w, d, lo, p, -1, src) && f < |w.role| && w.role[f].Free?
    ensures f < |u.role| && u.role[f].Free?
  {
    assert RoleAlloced(u.role[f], w.role[f], f, d, lo, p, -1);
  }

  /** The next page has not been touched. */
  lemma AllocedRest(u: View, w: View, d: nat, lo: int, p: nat, h: int, src: Source)
    requires Alloced(u, w, d, lo, p, h, src) && p < VPAGES
    ensures d < |u.pages| == |w.pages| && Pte(w.pages, d, p) == Pte(u.pages, d, p)
  {
    assert SamePage(u, w, d, p);
  }

  /** No page of row n is mapped by the rows before it. */
  lemma NoRemap(pages: seq<Page>, d: nat, kmap: seq<Kmap>, n: nat, p: nat)
    requires GoodMap(kmap) && n < |kmap| && KernelHalf(pages, d, kmap, n)
    requires Vpn(kmap[n].virt) <= p <= Vpn(kmap[n].virt + kmap[n].size - 1) + 1
    ensures p < VPAGES && Present(Pte(pages, d, p)) ==> p == Vpn(kmap[n].virt + kmap[n].size - 1) + 1
  {
    hide Vpn, Pte;
    if p <= Vpn(kmap[n].virt + kmap[n].size - 1) {
      NotYet(kmap, n, n, p);
    }
  }

  lemma LastFrame(v: View, d: nat)
    requires Valid(v) && d < |v.role| && v.role[d] == Dir(NPTENTRIES)
    ensures var w := v.(role := v.role[d := Held(d)]); Valid(w) && Only(v, w, d)
  {
    hide TablesOk, UsersOk, P2V;
    DropDir(v.pages, v.role, d);
    KeepList(v, d, v.pages[d], Held(d));
    assert v.pages[d := v.pages[d]] == v.pages;
  }

  lemma AllReturned(u: View, v: View, w: View, d: nat)
    requires Valid(u) && Dissolved(u, v, d, NPTENTRIES) && Only(u, w, d) && HeldPages(u, w)
    requires d < |w.role| == |v.role| && w.role == v.role[d := w.role[d]] && w.role[d].Free?
    ensures Returned(u, w, d)
  {
    hide ListOk, Pte, Frame, Present;
  }

  lemma RangeBounds(va: nat, size: nat, pa: nat)
    requires KERNBASE <= va && 0 < size && va + size <= UINT_RANGE && pa % PGSIZE == 0
    requires pa + size <= if va % PGSIZE == 0 then UINT_RANGE else UINT_RANGE - PGSIZE
    ensures UPAGES <= Vpn(va) <= Vpn(va + size - 1) < VPAGES
    ensures pa / PGSIZE + Vpn(va + size - 1) - Vpn(va) < VPAGES
  {
  }

  lemma PageOfAny(p: nat)
    requires p < VPAGES
    ensures p * PGSIZE < UINT_RANGE && Vpn(p * PGSIZE) == p
  {
  }

  lemma PageOf(a: nat, p: nat)
    requires a == p * PGSIZE && p < UPAGES
    ensures a < UINT_RANGE && Vpn(a) == p && p < (Pdx(p) + 1) * NPTENTRIES
  {
  }

  lemma PagesBound(a: nat, b: nat)
    requires a <= b <= KERNBASE
    ensures PagesFor(a) <= PagesFor(b) <= UPAGES
  {
  }

  /** Page p starts below size exactly if it is one of the pages size takes. */
  lemma PageBelow(p: nat, size: nat)
    ensures p * PGSIZE < size <==> p < PagesFor(size)
  {
  }

  function Min(a: int, b: int): int {
    if a <= b then a else b
  }

  /** Pages that n bytes take; PGROUNDUP(n) is that many pages. */
  function PagesFor(n: nat): nat {
    (n + PGSIZE - 1) / PGSIZE
  }

  /** Where a table is absent so are all its entries. */
  lemma AbsentTable(pages: seq<Page>, d: nat, p: nat)
    requires TableAbsent(pages, d, p)
    ensures forall q {:trigger Pte(pages, d, q)} :: p <= q < (Pdx(p) + 1) * NPTENTRIES ==>
              q < VPAGES && !Present(Pte(pages, d, q))
  {
  }

  /** Only one frame has the role of page p. */
  lemma OnlyFrame(v: View, d: nat, p: nat)
    requires Valid(v) && d < |v.role| && p < UPAGES
    ensures forall g {:trigger v.role[g]} :: 0 <= g < |v.role| && v.role[g] == User(d, p) ==>
              g == Frame(Pte(v.pages, d, p))
  {
    hide TablesOk, Pte;
  }

  lemma FreedShape(u: View, v: View, d: nat, lo: int, p: int)
    requires Freed(u, v, d, lo, p)
    ensures |u.pages| == |v.pages| && d < |u.pages|
  {
  }

  lemma TableWord(pages: seq<Page>, role: seq<Role>, d: nat, v: nat, t: int)
    requires TableAt(pages, role, d, v, t)
    ensures HasTable(pages, role, d, v) && 0 <= t < |pages| && d < |pages| && v < VPAGES
            && pages[t][v % NPTENTRIES] == Pte(pages, d, v)
  {
  }

  /** The directory d is the same but for entries lo .. hi. */
  predicate DirSame(pages: seq<Page>, pages': seq<Page>, d: nat, lo: nat, hi: nat) {
    && d < |pages| && d < |pages'|
    && forall i {:trigger pages'[d][i]} :: 0 <= i < NPTENTRIES && !(lo <= i <= hi) ==> pages'[d][i] == pages[d][i]
  }

  /** Entries are stored in tables, not in the directory. */
  lemma StoreKeepsDir(v: View, d: nat, p: nat, e: uint32)
    requires HasTable(v.pages, v.role, d, p)
    ensures d < |v.pages| && p < VPAGES && Frame(v.pages[d][p / NPTENTRIES]) < |v.pages|
    ensures WithPte(v.pages, d, p, e)[d] == v.pages[d]
  {
    hide Pte;
    StorePte(v.pages, v.role, d, p, e);
  }

  lemma PdxBetween(a: nat, p: nat, b: nat)
    requires a <= p <= b < VPAGES
    ensures Pdx(a) <= Pdx(p) <= Pdx(b)
  {
  }

  lemma DirKept(w: View, d: nat, p: nat)
    requires HasTable(w.pages, w.role, d, p)
    ensures |w.pages| == |w.role| && d < |w.role| && w.role[d] == Dir(0)
  {
  }

  ghost function BootRoles(n: nat, end: nat): (r: seq<Role>)
    ensures |r| == n && forall f {:trigger r[f]} :: 0 <= f < n ==> r[f] == if end <= P2V(f) then Other else Reserved
  {
    seq(n, f requires 0 <= f < n => if end <= P2V(f) then Other else Reserved)
  }

  lemma BootValid(memory: seq<Page>, end: nat)
    requires |memory| <= MAXFRAMES
    ensures Valid(View(memory, BootRoles(|memory|, end), []))
  {
    hide BootRoles, Pte, P2V;
  }

  lemma RoundedUp(v: nat)
    requires KERNBASE <= v
    ensures UPAGES <= PagesFor(v) && v <= PagesFor(v) * PGSIZE
  {
  }

  lemma WholePage(f: nat, p: nat, vend: nat)
    requires p == (f + UPAGES) * PGSIZE && p + PGSIZE <= vend <= KERNBASE + PHYSTOP
    ensures FrameAt(p) == f && f < vend / PGSIZE - UPAGES
            && forall end {:trigger KernelPage(p, end)} :: 0 <= end <= p ==> KernelPage(p, end)
  {
  }

  lemma LastPage(f: nat, p: nat, vend: nat)
    requires p == (f + UPAGES) * PGSIZE && p + PGSIZE > vend
    ensures vend / PGSIZE - UPAGES <= f && (p <= vend ==> f == vend / PGSIZE - UPAGES)
  {
  }

  lemma TableThere(v: View, d: nat, p: nat)
    requires Valid(v) && d < |v.role| && v.role[d] == Dir(0) && p < VPAGES && Present(v.pages[d][Pdx(p)])
    ensures HasTable(v.pages, v.role, d, p)
  {
  }

  lemma NoTable(pages: seq<Page>, d: nat, v: nat)
    requires d < |pages| && v < VPAGES && !Present(pages[d][v / NPTENTRIES])
    ensures Pte(pages, d, v) == 0
  {
  }

  lemma JunkHead(next: uint32)
    ensures JunkPage(next)[0] == next
  {
  }

  lemma FrameAddress(f: nat)
    requires f < MAXFRAMES
    ensures FrameAt(P2V(f)) == f && forall end {:trigger KernelPage(P2V(f), end)} :: 0 <= end <= P2V(f) ==>
              KernelPage(P2V(f), end)
  {
  }

  // ---- The operations ----

  predicate WasPresent(pages: seq<Page>, d: nat, p: nat) {
    d < |pages| && p < VPAGES && Present(pages[d][Pdx(p)])
  }

  /** The directory entry of page p leaves it to the page's own entry who may write it. */
  predicate OpenToAll(pages: seq<Page>, d: nat, p: nat) {
    d < |pages| && p < VPAGES && Writable(pages[d][Pdx(p)]) && UserAllowed(pages[d][Pdx(p)])
  }

  class Memory {
    const end: nat             // the first address past the kernel image
    var pages: seq<Page>
    var freelist: nat
    ghost var role: seq<Role>
    ghost var free: seq<nat>
    ghost var misses: nat      // calls of kalloc that found the list empty

    ghost function Now(): View
      reads this
    {
      View(pages, role, free)
    }

    /** Besides the invariant: the head of the list, and the frames that are ours to
        give are those from the end of the kernel image to the top of memory. */
    ghost predicate Ok()
      reads this
    {
      && Valid(Now()) && freelist == Head(free) && |pages| <= MAXFRAMES
      && forall f {:trigger role[f]} :: 0 <= f < |role| ==>
           (role[f] != Reserved ==> 0 < f) && (role[f] != Reserved <==> end <= P2V(f))
    }

    /** Memory at boot: the frames past the kernel image are nobody's yet. */
    constructor (memory: seq<Page>, end: nat)
      requires |memory| <= MAXFRAMES && KERNBASE < end
      ensures Ok() && |pages| == |role| == |memory| && this.end == end && free == []
      ensures role == BootRoles(|memory|, end)
    {
      this.end := end;
      pages := memory;
      freelist := 0;
      role := BootRoles(|memory|, end);
      free := [];
      misses := 0;
      new;
      hide Valid, BootRoles;
      BootValid(memory, end);
    }

    /** freerange: every whole page between the two addresses goes on the free list. */
    method Freerange(vstart: nat, vend: nat)
      requires Ok() && |pages| == |role| && KERNBASE <= vstart && end <= vstart && vend <= KERNBASE + |role| * PGSIZE
      requires forall f :: PagesFor(vstart) - UPAGES <= f < vend / PGSIZE - UPAGES && 0 <= f < |role| ==> role[f].Other?
      modifies this`pages, this`freelist, this`role, this`free
      ensures Ok() && |pages| == |role| == |old(role)|
      ensures forall f {:trigger role[f]} :: 0 <= f < |role| ==>
                if PagesFor(vstart) - UPAGES <= f < vend / PGSIZE - UPAGES then role[f].Free?
                else role[f] == old(role)[f]
    {
      hide Valid, PagesFor;
      ghost var u, lo := Now(), PagesFor(vstart) - UPAGES;
      var p := PagesFor(vstart) * PGSIZE;
      ghost var f := lo;
      RoundedUp(vstart);
      while p + PGSIZE <= vend
        invariant Ok() && |pages| == |role| == |u.role| && p == (f + UPAGES) * PGSIZE && 0 <= lo <= f
        invariant forall g {:trigger role[g]} :: 0 <= g < |role| ==>
                    if lo <= g < f then role[g].Free? else role[g] == u.role[g]
        invariant f == lo || p <= vend
      {
        WholePage(f, p, vend);
        var ok := Kfree(p);
        p, f := p + PGSIZE, f + 1;
      }
      LastPage(f, p, vend);
    }

    method Kalloc(ghost r: Role) returns (f: int)
      requires Ok() && (r.Other? || r.Held?)
      modifies this`freelist, this`role, this`free, this`misses
      ensures Ok()
      ensures f == -1 <==> old(free) == []
      ensures f == -1 ==> Now() == old(Now())
      ensures f != -1 ==> 0 <= f < |pages| && f == old(free)[|old(free)| - 1] && old(role)[f].Free?
      ensures f != -1 ==> Now() == View(pages, old(role)[f := r], old(free)[..|old(free)| - 1])
      ensures misses == old(misses) + (if f == -1 then 1 else 0)
    {
      hide TablesOk, UsersOk, ListOk, P2V;
      HeadAddress(free);
      FrameSizes(Now());
      if freelist == 0 {
        misses := misses + 1;
        return -1;
      }
      PopList(Now(), r);
      HeadOfList(Now());
      f := (freelist - KERNBASE) / PGSIZE;
      PlainRole(pages, role, f, r);
      freelist := pages[f][0];
      role := role[f := r];
      free := free[..|free| - 1];
    }

    /** A panic unless v is a page between the kernel image and the top of memory.
        Otherwise the page is overwritten and linked in, whatever it was; and if it was
        in use, and in no address space, the list stays a list. */
    method Kfree(v: nat) returns (ok: bool)
      requires Ok() && (KernelPage(v, end) ==> FrameAt(v) < |pages|)
      modifies this`pages, this`freelist, this`role, this`free
      ensures ok <==> KernelPage(v, end)
      ensures !ok ==> Ok() && Now() == old(Now())
      ensures ok ==>
                && FrameAt(v) < |old(pages)| == |old(role)| && Head(old(free)) < UINT_RANGE
                && pages == old(pages)[FrameAt(v) := JunkPage(Head(old(free)))] && freelist == v
      ensures ok && InOtherUse(old(Now()), FrameAt(v)) ==>
                && Ok() && role == old(role)[FrameAt(v) := Free(|old(free)|)] && free == old(free) + [FrameAt(v)]
      ensures ok && !InOtherUse(old(Now()), FrameAt(v)) ==> role == old(role) && free == old(free)
    {
      hide TablesOk, UsersOk;
      if !KernelPage(v, end) { return false; }
      var f := FrameAt(v);
      AddressOf(v, end);
      HeadFits();
      ghost var use := InOtherUse(Now(), f);
      if use {
        PushList(Now(), f, JunkPage(freelist));
        LeafWrite(pages, role, f, JunkPage(freelist));
        PlainRole(pages[f := JunkPage(freelist)], role, f, Free(|free|));
      }
      pages := pages[f := JunkPage(freelist)];
      if use {
        role := role[f := Free(|free|)];
        free := free + [f];
      }
      freelist := v;
      ok := true;
    }

    lemma HeadFits()
      requires Ok()
      ensures Head(free) < UINT_RANGE
    {
      hide TablesOk, UsersOk;
    }

    /** kalloc on behalf of d. */
    method NewFrame(ghost d: nat) returns (f: int)
      requires Ok() && d < |role| && role[d] == Dir(0)
      modifies this`freelist, this`role, this`free, this`misses
      ensures Ok() && Only(old(Now()), Now(), d) && Outside(old(Now()), Now(), d, 0, 0) && HeldKept(old(Now()), Now())
      ensures |role| == |old(role)| && role[d] == Dir(0)
      ensures f == -1 ==> old(free) == [] && Now() == old(Now())
      ensures f != -1 ==> 0 <= f < |pages| && old(role)[f].Free? && Now() == View(pages, old(role)[f := Held(d)], free)
      ensures misses == old(misses) + (if f == -1 then 1 else 0)
    {
      hide TablesOk, UsersOk, Pte;
      if free != [] { TakeFrame(Now(), d); }
      SameSpace(Now(), Now(), d);
      f := Kalloc(Held(d));
    }

    /** kfree of a frame held for d: it cannot panic. */
    method DropFrame(ghost d: nat, f: nat)
      requires Ok() && d < |role| && f < |role| && role[f] == Held(d)
      modifies this`pages, this`freelist, this`role, this`free
      ensures Ok() && Only(old(Now()), Now(), d) && (old(role)[d] == Dir(0) ==> Outside(old(Now()), Now(), d, 0, 0))
      ensures |pages| == |old(pages)| && role == old(role)[f := Free(|old(free)|)]
      ensures forall g :: 0 <= g < |pages| && g != f ==> pages[g] == old(pages)[g]
    {
      hide TablesOk, UsersOk, ListOk, Pte, JunkPage;
      HeadFits();
      JunkHead(Head(free));
      GiveFrame(Now(), d, f, JunkPage(Head(free)));
      FrameAddress(f);
      var ok := Kfree(P2V(f));
    }

    /** The table of virtual address va, or -1: absent and not to be made, or no
        memory.  A new table is empty, so no entry changes. */
    method Walkpgdir(d: nat, va: nat, alloc: bool) returns (t: int)
      requires Ok() && d < |pages| == |role| && role[d] == Dir(0) && va < UINT_RANGE
      modifies this
      ensures Ok() && |pages| == |role| == |old(pages)| && role[d] == Dir(0) && Walked(old(Now()), Now(), d)
      ensures !alloc ==> Now() == old(Now())
      ensures t == -1 ==> Now() == old(Now()) && TableAbsent(pages, d, Vpn(va)) && (alloc ==> free == [])
      ensures t != -1 ==> TableAt(pages, role, d, Vpn(va), t)
      ensures misses == old(misses) + (if alloc && t == -1 then 1 else 0)
      ensures DirSame(old(pages), pages, d, Pdx(Vpn(va)), Pdx(Vpn(va)))
      ensures t == -1 || WasPresent(old(pages), d, Vpn(va)) || OpenToAll(pages, d, Vpn(va))
    {
      hide UsersOk, TablesOk, ListOk, Outside, Pte, HasTable, Frame, Entry, ZeroPage, P2V, Only;
      ghost var v := Now();
      WalkedNot(v, d);
      if !Present(pages[d][Pdx(Vpn(va))]) { NoTable(pages, d, Vpn(va)); }
      var pde := pages[d][Pdx(Vpn(va))];
      if Present(pde) {
        TableThere(v, d, Vpn(va));
        t := Frame(pde);
      } else if !alloc {
        t := -1;
      } else {
        var f := NewFrame(d);
        if f == -1 { return -1; }
        ghost var v1 := Now();
        FillFrame(v1, d, f, ZeroPage());
        pages := pages[f := ZeroPage()];
        ghost var v2 := Now();
        InstallTable(v2, d, Pdx(Vpn(va)), f);
        pages := pages[d := pages[d][Pdx(Vpn(va)) := Entry(f, 7)]];
        role := role[f := Table(d, Pdx(Vpn(va)))];
        t := f;
        OnlyTwice(v, v1, v2, d);
        OnlyTwice(v, v2, Now(), d);
        OutsideTwice(v, v1, v2, d, 0, 0, 0, 0, 0, 0);
        OutsideTwice(v, v2, Now(), d, 0, 0, 0, 0, 0, 0);
        TableThere(Now(), d, Vpn(va));
      }
    }

    /** One turn of mappages' loop. */
    method MapPage(d: nat, va: nat, f: nat, perm: nat) returns (r: MapResult)
      requires Ok() && d < |pages| == |role| && role[d] == Dir(0) && va < UINT_RANGE && f < VPAGES && perm < PGSIZE
      requires Vpn(va) < UPAGES ==> f < |role| && role[f] == Held(d)
      modifies this
      ensures Ok() && |pages| == |role| == |old(pages)| && role[d] == Dir(0)
      ensures r == NoMemory ==> Walked(old(Now()), Now(), d) && free == []
      ensures r == Remap ==> Walked(old(Now()), Now(), d) && Present(Pte(old(pages), d, Vpn(va)))
      ensures r == Mapped ==> MapsPage(old(Now()), Now(), d, Vpn(va), f, perm)
      ensures misses == old(misses) + (if r == NoMemory then 1 else 0)
      ensures DirSame(old(pages), pages, d, Pdx(Vpn(va)), Pdx(Vpn(va)))
    {
      hide Valid, Pte, Outside, MapsPage, Only, Entry, Frame, Present, HasTable, WithPte, P2V, Walked, TableAt;
      ghost var u := Now();
      var t := Walkpgdir(d, va, true);
      if t == -1 { return NoMemory; }
      ghost var v := Now();
      var p := Vpn(va);
      TableWord(pages, role, d, p, t);
      TableFound(v, d, p);
      WalkedPte(u, v, d, p);
      if Present(pages[t][p % NPTENTRIES]) { return Remap; }
      WalkThenStore(u, v, d, p, f, perm);
      StoreKeepsDir(v, d, p, Entry(f, perm));
      pages := WithPte(pages, d, p, Entry(f, perm));
      role := if p < UPAGES then role[f := User(d, p)] else role;
      DirKept(Now(), d, p);
      r := Mapped;
    }

    /** mappages in the kernel half: entries for consecutive frames, in tables made as
        needed, up to the first page already mapped or the end of memory. */
    method MapKernelPages(d: nat, va: nat, size: nat, pa: nat, perm: nat) returns (r: MapResult, ghost hi: nat)
      requires Ok() && d < |pages| == |role| && role[d] == Dir(0) && perm < PGSIZE
      requires KERNBASE <= va && 0 < size && va + size <= UINT_RANGE && pa % PGSIZE == 0
      requires pa + size <= if va % PGSIZE == 0 then UINT_RANGE else UINT_RANGE - PGSIZE
      modifies this
      ensures Ok() && |pages| == |role| == |old(pages)| && role[d] == Dir(0)
      ensures MapsRange(old(Now()), Now(), d, Vpn(va), hi, pa / PGSIZE, perm) && Vpn(va) <= hi <= Vpn(va + size - 1) + 1
      ensures r == Mapped ==> hi == Vpn(va + size - 1) + 1
      ensures r == Remap ==> hi <= Vpn(va + size - 1) && Present(Pte(old(pages), d, hi))
      ensures r == NoMemory ==> free == []
      ensures misses == old(misses) + (if r == NoMemory then 1 else 0)
      ensures DirSame(old(pages), pages, d, Pdx(Vpn(va)), Pdx(Vpn(va + size - 1)))
    {
      hide Valid, Pte, MapsRange, MapsPage, Walked, Present, P2V;
      var first, last := Vpn(va), Vpn(va + size - 1);
      RangeBounds(va, size, pa);
      ghost var u, f0 := Now(), pa / PGSIZE;
      RangeNone(u, d, first, f0, perm);
      var p, f := first, pa / PGSIZE;
      while true
        invariant Ok() && |pages| == |role| == |u.pages| && role[d] == Dir(0)
        invariant first <= p <= last && f == f0 + p - first
        invariant MapsRange(u, Now(), d, first, p, f0, perm) && misses == old(misses)
        invariant DirSame(u.pages, pages, d, Pdx(first), Pdx(last))
        decreases last - p
      {
        ghost var v := Now();
        PageOfAny(p);
        RangeRest(u, v, d, first, p, f0, perm);
        PdxBetween(first, p, last);
        r := MapPage(d, p * PGSIZE, f, perm);
        hi := p;
        if r != Mapped {
          RangeWalked(u, v, Now(), d, first, p, f0, perm);
          return;
        }
        RangeStep(u, v, Now(), d, first, p, f0, perm);
        hi := p + 1;
        if p == last { return; }
        p, f := p + 1, f + 1;
      }
    }

    /** deallocuvm's work on a page that is there.  The page goes to the list once
        its entry is cleared; the two writes are to different pages. */
    method FreePage(ghost u: View, d: nat, ghost lo: int, p: nat)
      requires Ok() && d < |pages| == |role| && HasTable(pages, role, d, p) && p < UPAGES && Present(Pte(pages, d, p))
      requires Freed(u, Now(), d, lo, p) && lo <= p
      modifies this`pages, this`freelist, this`role, this`free
      ensures Ok() && |pages| == |role| == |old(pages)| && role[d] == Dir(0) && Freed(u, Now(), d, lo, p + 1)
    {
      hide Valid, Pte, Freed, Only, Outside, Frame, HasTable, WithPte, HeldPages;
      ghost var v := Now();
      TableFound(v, d, p);
      UnmapsUser(v, d, p);
      OnlyFrame(v, d, p);
      FreedShape(u, v, d, lo, p);
      var f := Frame(Pte(pages, d, p));
      pages := WithPte(pages, d, p, 0);
      role := role[f := Held(d)];
      ghost var v1 := Now();
      TableFound(v1, d, p);
      DropFrame(d, f);
      FreedStep(u, v, v1, Now(), d, lo, p, f);
    }

    /** One turn of deallocuvm's loop, at page p: the page freed, or nothing there to
        free, or the rest of an absent table stepped over. */
    method DeallocTurn(ghost u: View, d: nat, ghost lo: int, a: nat, ghost p: nat, ghost hi: nat)
      returns (a': nat, ghost p': nat)
      requires Ok() && d < |pages| == |role| && role[d] == Dir(0) && a == p * PGSIZE && lo <= p < hi <= UPAGES
      requires Freed(u, Now(), d, lo, p)
      modifies this
      ensures Ok() && |pages| == |role| == |old(pages)| && role[d] == Dir(0) && a' == p' * PGSIZE && p' > p
      ensures Freed(u, Now(), d, lo, Min(p', hi))
      ensures misses == old(misses)
    {
      hide Valid, Pte, Freed, Frame, Present, HasTable, TableAt, Walked, Pdx, Vpn;
      PageOf(a, p);
      var q := Vpn(a);
      ghost var v := Now();
      var t := Walkpgdir(d, a, false);
      if t == -1 {
        AbsentTable(pages, d, q);
        FreedSkip(u, v, d, lo, p, Min((Pdx(q) + 1) * NPTENTRIES, hi));
        p' := (Pdx(q) + 1) * NPTENTRIES;
        a' := (Pdx(q) + 1) * NPTENTRIES * PGSIZE - PGSIZE;
        a' := a' + PGSIZE;
        return;
      }
      TableWord(pages, role, d, q, t);
      if Present(pages[t][q % NPTENTRIES]) {
        FreePage(u, d, lo, q);
      } else {
        FreedSkip(u, v, d, lo, p, p + 1);
      }
      p' := p + 1;
      a' := a + PGSIZE;
    }

    /** The user pages from newsz up to oldsz go to the free list, and no others;
        stepping over an absent table misses none. */
    method Deallocuvm(d: nat, oldsz: nat, newsz: nat) returns (r: nat)
      requires Ok() && d < |pages| == |role| && role[d] == Dir(0) && oldsz <= KERNBASE
      modifies this
      ensures Ok() && |pages| == |role| == |old(pages)| && role[d] == Dir(0)
      ensures newsz >= oldsz ==> r == oldsz && Now() == old(Now())
      ensures newsz < oldsz ==> r == newsz && Freed(old(Now()), Now(), d, PagesFor(newsz), PagesFor(oldsz))
      ensures misses == old(misses)
    {
      hide Valid, Freed, PagesFor, P2V;
      if newsz >= oldsz { return oldsz; }
      ghost var u, lo, hi := Now(), PagesFor(newsz), PagesFor(oldsz);
      FreedNone(u, d, lo);
      PagesBound(newsz, oldsz);
      ghost var p: nat := lo;
      var a := PagesFor(newsz) * PGSIZE;
      while a < oldsz
        invariant Ok() && |pages| == |role| == |u.pages| && role[d] == Dir(0)
        invariant a == p * PGSIZE && lo <= p && Freed(u, Now(), d, lo, Min(p, hi)) && misses == old(misses)
        decreases KERNBASE - a
      {
        PageBelow(p, oldsz);
        a, p := DeallocTurn(u, d, lo, a, p, hi);
      }
      PageBelow(p, oldsz);
      r := newsz;
    }

    /** Directory, tables and user pages of d all go to the free list; nothing else
        changes hands. */
    method Freevm(d: nat)
      requires Ok() && d < |pages| == |role| && role[d] == Dir(0)
      modifies this
      ensures Ok() && |pages| == |role| == |old(pages)| && Returned(old(Now()), Now(), d)
      ensures misses == old(misses)
    {
      hide Valid, Freed, P2V, Frame, Present, Only;
      ghost var u := Now();
      var sz := Deallocuvm(d, KERNBASE, 0);
      NoneLeft(u, Now(), d);
      var i := 0;
      while i < NPTENTRIES
        invariant 0 <= i <= NPTENTRIES && Ok() && |pages| == |role| == |u.pages| == |u.role|
        invariant Dissolved(u, Now(), d, i) && NoUsers(role, d) && misses == old(misses)
      {
        FreeTable(u, d, i);
        i := i + 1;
      }
      ghost var v := Now();
      LastFrame(v, d);
      role := role[d := Held(d)];
      ghost var v1 := Now();
      DropFrame(d, d);
      OnlyTwice(u, v, v1, d);
      OnlyTwice(u, v1, Now(), d);
      AllReturned(u, v, Now(), d);
    }

    /** One turn of freevm's loop over the directory. */
    method FreeTable(ghost u: View, d: nat, i: nat)
      requires Ok() && d < |pages| == |role| && i < NPTENTRIES && Dissolved(u, Now(), d, i) && NoUsers(role, d)
      modifies this`pages, this`freelist, this`role, this`free
      ensures Ok() && |pages| == |role| == |old(pages)|
      ensures Dissolved(u, Now(), d, i + 1) && NoUsers(role, d)
    {
      hide Valid, P2V, Frame, Present, Only;
      ghost var v := Now();
      DropStep(v, d, i);
      role := Dropped(pages, role, d, i);
      ghost var v1 := Now();
      if Present(pages[d][i]) {
        DropFrame(d, Frame(pages[d][i]));
        OnlyTwice(v, v1, Now(), d);
      }
      DissolveStep(u, v, Now(), d, i);
    }

    /** A new address space with the kernel's mappings and no user pages, or nothing
        taken at all. */
    method Setupkvm(data: nat) returns (d: int)
      requires Ok() && |pages| == |role| && KERNLINK < data < KERNBASE + PHYSTOP && data % PGSIZE == 0
      modifies this
      ensures Ok() && |pages| == |role| == |old(pages)|
      ensures d == -1 ==> Undone(old(Now()), Now())
      ensures d != -1 ==> 0 <= d < |pages| && SetUp(old(Now()), Now(), d) && GoodMap(KernelMap(data))
      ensures d != -1 ==> KernelHalf(pages, d, KernelMap(data), 4) && KernelAbove(pages, d, 0, data)
      ensures misses == old(misses) + (if d == -1 then 1 else 0)
      ensures d != -1 ==> forall i :: 0 <= i < NPTENTRIES ==> (Present(pages[d][i]) <==> KernelTable(i))
    {
      hide Valid, P2V, Pte, SetUp, MapsRange, Vpn, KernelMap, InKmap, KernelAbove;
      ghost var u := Now();
      d := Kalloc(Other);
      if d == -1 { return; }
      MakeDir(u, Now(), d);
      pages := pages[d := ZeroPage()];
      role := role[d := Dir(0)];
      var kmap := KernelMap(data);
      KernelMapGood(data);
      var k := 0;
      while k < 4
        invariant 0 <= k <= 4 && Ok() && |pages| == |role| == |u.pages| && role[d] == Dir(0)
        invariant SetUp(u, Now(), d) && KernelHalf(pages, d, kmap, k) && misses == old(misses)
        invariant forall i {:trigger pages[d][i]} :: 0 <= i < NPTENTRIES && Present(pages[d][i]) ==> KernelTable(i)
      {
        ghost var v := Now();
        ghost var hi;
        var r;
        r, hi := MapKernelPages(d, kmap[k].virt, kmap[k].size, kmap[k].phys, kmap[k].perm);
        SetUpMore(u, v, Now(), d, Vpn(kmap[k].virt), hi, kmap[k].phys / PGSIZE, kmap[k].perm);
        if r == NoMemory {
          ghost var w := Now();
          Freevm(d);
          SetUpUndone(u, w, Now(), d);
          return -1;
        }
        NoRemap(v.pages, d, kmap, k, hi);
        assert r == Mapped;
        KernelHalfStep(v, Now(), d, kmap, k);
        RowTables(data, k);
        k := k + 1;
      }
      TablesThere(pages, d, data);
      KernelHalfMaps(pages, d, data);
    }

    /** One turn of allocuvm's or copyuvm's loop: a new frame, filled and mapped as
        page p; a panic if p is mapped already. */
    method AllocTurn(ghost u: View, d: nat, ghost lo: int, p: nat, content: Page, perm: nat, ghost src: Source)
      returns (r: MapResult, mem: int)
      requires Ok() && |pages| == |role| == |u.role| == |u.pages| && d < |pages| && role[d] == Dir(0)
      requires Alloced(u, Now(), d, lo, p, -1, src) && 0 <= lo <= p < UPAGES
      requires content == PageFrom(src, p) && perm == PermFrom(src, p)
      modifies this
      ensures Ok() && |pages| == |role| == |u.role| && role[d] == Dir(0)
      ensures r == Mapped ==> Alloced(u, Now(), d, lo, p + 1, -1, src) && !Present(Pte(u.pages, d, p))
      ensures r == NoMemory ==> Alloced(u, Now(), d, lo, p, mem, src) && free == []
      ensures r == NoMemory && mem != -1 ==> 0 <= mem < |role| && role[mem] == Held(d) && u.role[mem].Free?
      ensures r == Remap ==> Present(Pte(u.pages, d, p))
      ensures misses == old(misses) + (if r == NoMemory then 1 else 0)
    {
      hide Valid, P2V, Pte, Alloced, Outside, Only, MapsPage, PageFrom, PermFrom, Present;
      ghost var v := Now();
      AllocedUnchanged(u, v, d, lo, p, -1, src);
      mem := NewFrame(d);
      if mem == -1 { return NoMemory, mem; }
      ghost var v1 := Now();
      AllocedFree(u, v, d, lo, p, mem, src);
      AllocedStays(u, v, v1, d, lo, p, -1, mem, src);
      FillFrame(v1, d, mem, content);
      pages := pages[mem := content];
      ghost var v2 := Now();
      AllocedStays(u, v1, v2, d, lo, p, mem, mem, src);
      AllocedRest(u, v2, d, lo, p, mem, src);
      PageOfAny(p);
      r := MapPage(d, p * PGSIZE, mem, perm);
      if r == Mapped {
        MapsAbsent(v2, Now(), d, p, mem, perm);
        AllocedStep(u, v2, Now(), d, lo, p, mem, src);
      } else {
        AllocedUnchanged(u, v2, d, lo, p, mem, src);
        AllocedStays(u, v2, Now(), d, lo, p, mem, mem, src);
      }
    }

    /** Grow d from oldsz to newsz: the new size and zeroed pages, or 0 and d as it
        was, no user page gained or lost.  A panic if it comes to a page that is mapped
        already. */
    method Allocuvm(d: nat, oldsz: nat, newsz: nat) returns (ok: bool, r: nat)
      requires Ok() && |pages| == |role| && d < |pages| && role[d] == Dir(0)
      modifies this
      ensures Ok() && |pages| == |role| == |old(pages)| && role[d] == Dir(0)
      ensures newsz >= KERNBASE ==> ok && r == 0 && Now() == old(Now())
      ensures newsz < KERNBASE && newsz < oldsz ==> ok && r == oldsz && Now() == old(Now())
      ensures oldsz <= newsz < KERNBASE && Clear(old(pages), d, PagesFor(oldsz), PagesFor(newsz)) ==>
                ok && (if misses == old(misses)
                       then && r == newsz && NewPages(Now(), d, PagesFor(oldsz), PagesFor(newsz))
                            && Alloced(old(Now()), Now(), d, PagesFor(oldsz), PagesFor(newsz), -1, Zeros)
                       else r == 0 && Backed(old(Now()), Now(), d, -1))
      ensures oldsz <= newsz < KERNBASE && !Clear(old(pages), d, PagesFor(oldsz), PagesFor(newsz)) ==>
                !ok || (r == 0 && misses > old(misses))
    {
      hide Valid, P2V, Alloced, Freed, Backed, PagesFor, Present, Clear, NewPages;
      if newsz >= KERNBASE { return true, 0; }
      if newsz < oldsz { return true, oldsz; }
      ghost var u, lo, hi := Now(), PagesFor(oldsz), PagesFor(newsz);
      PagesBound(oldsz, newsz);
      AllocedNone(u, d, lo, Zeros);
      ClearNone(u.pages, d, lo);
      var p := PagesFor(oldsz);
      while p * PGSIZE < newsz
        invariant Ok() && |pages| == |role| == |u.role| == |u.pages| && role[d] == Dir(0)
        invariant lo <= p <= hi && Alloced(u, Now(), d, lo, p, -1, Zeros) && misses == old(misses)
        invariant Clear(u.pages, d, lo, p)
        decreases hi - p
      {
        PageBelow(p, newsz);
        var m, mem := AllocTurn(u, d, lo, p, ZeroPage(), USER_RW, Zeros);
        ClearMore(u.pages, d, lo, p, hi);
        if m == Remap { return false, 0; }
        if m == NoMemory {
          ghost var v := Now();
          var sz := Deallocuvm(d, newsz, oldsz);
          if mem != -1 {
            ghost var x := Now();
            HeldStill(v, x, d, lo, hi, mem);
            DropFrame(d, mem);
            if Clear(u.pages, d, lo, hi) { BackedAfter(u, v, x, Now(), d, lo, p, hi, mem); }
          } else if Clear(u.pages, d, lo, hi) {
            AllocedBack(u, v, Now(), d, lo, p, hi, mem, Zeros);
          }
          return true, 0;
        }
        p := p + 1;
      }
      PageBelow(p, newsz);
      AllocedNew(u, Now(), d, lo, hi);
      return true, newsz;
    }

    /** A copy of the first sz bytes of s; or nothing taken for want of memory; or a
        panic if one of their pages is missing. */
    method Copyuvm(s: nat, sz: nat, data: nat) returns (r: CopyResult)
      requires Ok() && |pages| == |role| && s < |pages| && role[s] == Dir(0) && sz <= KERNBASE
      requires KERNLINK < data < KERNBASE + PHYSTOP && data % PGSIZE == 0
      modifies this
      ensures Ok() && |pages| == |role| == |old(pages)|
      ensures r.OutOfMemory? ==> Undone(old(Now()), Now())
      ensures r.Copied? ==> CopyMade(old(Now()), Now(), s, r.d, PagesFor(sz), data)
      ensures r.Copied? ==> r.d != s && Outside(old(Now()), Now(), s, 0, 0)
      ensures r.Missing? ==> exists p :: 0 <= p < PagesFor(sz) && p < VPAGES && !Present(Pte(old(pages), s, p))
      ensures misses == old(misses) + (if r.OutOfMemory? then 1 else 0)
    {
      hide Valid, P2V, Pte, SetUp, Alloced, KernelMap, KernelHalf, Only, GoodMap, PageFrom, PermFrom, Present, Frame,
           Outside, KernelAbove;
      ghost var u, n, src := Now(), PagesFor(sz), CopyOf(s, Now());
      var d := Setupkvm(data);
      if d == -1 { return OutOfMemory; }
      ghost var v0 := Now();
      SetUpFacts(u, v0, d);
      AllocedNone(v0, d, 0, src);
      PagesBound(0, sz);
      var p := 0;
      while p * PGSIZE < sz
        invariant Ok() && |pages| == |role| == |u.pages| == |u.role| && role[d] == Dir(0)
        invariant 0 <= p <= n && Alloced(v0, Now(), d, 0, p, -1, src) && misses == old(misses)
        invariant forall q {:trigger Pte(u.pages, s, q)} :: 0 <= q < p ==> Present(Pte(u.pages, s, q))
        decreases n - p
      {
        PageBelow(p, sz);
        var ok := CopyTurn(u, v0, s, d, p, data);
        if !ok.Copied? { return ok; }
        p := p + 1;
      }
      PageBelow(p, sz);
      AllocedSetUp(u, v0, Now(), d, n, -1, src);
      SpaceKept(u, Now(), s, d);
      CopyDone(u, v0, Now(), s, d, n, data);
      return Copied(d);
    }

    /** One turn of copyuvm's loop, with everything undone if memory runs out. */
    method CopyTurn(ghost u: View, ghost v0: View, s: nat, d: nat, p: nat, ghost data: nat) returns (r: CopyResult)
      requires Ok() && |pages| == |role| == |u.pages| == |u.role| && d < |pages| && s < |pages| && role[d] == Dir(0)
      requires Valid(u) && Valid(v0) && SetUp(u, v0, d) && u.role[s] == Dir(0) && p < UPAGES
      requires KERNLINK < data < KERNBASE + PHYSTOP && GoodMap(KernelMap(data))
               && KernelHalf(v0.pages, d, KernelMap(data), 4)
      requires Alloced(v0, Now(), d, 0, p, -1, CopyOf(s, u))
      modifies this
      ensures Ok() && |pages| == |role| == |u.role|
      ensures r.Copied? ==> role[d] == Dir(0) && Present(Pte(u.pages, s, p))
      ensures r.Copied? ==> Alloced(v0, Now(), d, 0, p + 1, -1, CopyOf(s, u))
      ensures r.OutOfMemory? ==> Undone(u, Now())
      ensures r.Missing? ==> !Present(Pte(u.pages, s, p))
      ensures misses == old(misses) + (if r.OutOfMemory? then 1 else 0)
    {
      hide Valid, P2V, Pte, SetUp, Alloced, KernelMap, KernelHalf, Only, GoodMap, PageFrom, PermFrom, Present, Frame,
           TableAt, Walked, HasTable;
      ghost var v, src := Now(), CopyOf(s, u);
      SetUpFacts(u, v0, d);
      AllocedSetUp(u, v0, v, d, p, -1, src);
      SpaceKept(u, v, s, d);
      PageOfAny(p);
      var t := Walkpgdir(s, p * PGSIZE, false);
      assert SamePage(u, v, s, p);
      if t == -1 { PresentZero(); return Missing; }
      TableWord(pages, role, s, p, t);
      var pte := pages[t][p % NPTENTRIES];
      if !Present(pte) { return Missing; }
      SourcePage(u, v, s, p);
      UserSlotEmpty(v0.pages, d, KernelMap(data), p);
      AllocedUnchanged(v0, v, d, 0, p, -1, src);
      var m, mem := AllocTurn(v0, d, 0, p, pages[Frame(pte)], Flags(pte), src);
      if m == Mapped { return Copied(d); }
      ghost var x := Now();
      AllocedSetUp(u, v0, x, d, p, mem, src);
      if mem != -1 {
        WasFree(u, v0, d, mem);
        DropFrame(d, mem);
        SetUpDrop(u, x, Now(), d, mem);
      }
      ghost var y := Now();
      Freevm(d);
      SetUpUndone(u, y, Now(), d);
      return OutOfMemory;
    }
  }
}
