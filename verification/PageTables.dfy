/** Physical pages and who owns them: the free list of kalloc.c, and page
    directories, page tables and user pages of vm.c.  A page is 1024 words; a
    directory or table entry is a frame number times 4096 plus flags. */
module PageTables {
  import opened Machine

  type Page = p: seq<uint32> | |p| == NPTENTRIES witness seq(NPTENTRIES, _ => 0)

  /** What a frame is for: not ours to give, on the free list at a position counted
      from its end, in other use, on its way in or out of d, a page directory whose
      entries from some index on are in force, the page table behind entry i of d,
      or user page v of d. */
  datatype Role =
    Reserved | Free(pos: nat) | Other | Held(d: nat) | Dir(from: nat) | Table(d: nat, i: nat) | User(d: nat, v: nat)

  datatype View = View(pages: seq<Page>, role: seq<Role>, free: seq<nat>)

  function Frame(w: uint32): nat { w / PGSIZE }

  function Flags(w: uint32): nat { w % PGSIZE }

  predicate Present(w: uint32) { w % 2 == 1 }

  predicate Writable(w: uint32) { Flags(w) / 2 % 2 == 1 }

  predicate UserAllowed(w: uint32) { Flags(w) / 4 % 2 == 1 }

  /** The page of an address, and PDX of that page. */
  function Vpn(va: nat): (v: nat)
    requires va < UINT_RANGE
    ensures v < VPAGES
  {
    va / PGSIZE
  }

  function Pdx(v: nat): (i: nat)
    requires v < VPAGES
    ensures i < NPTENTRIES
  {
    v / NPTENTRIES
  }

  /** perm | PTE_P. */
  function WithP(perm: nat): (r: nat)
    requires perm < PGSIZE
    ensures r < PGSIZE && r % 2 == 1
  {
    if perm % 2 == 1 then perm else perm + 1
  }

  lemma JoinEntry(f: nat, low: nat)
    requires low < PGSIZE
    ensures (f * PGSIZE + low) / PGSIZE == f && (f * PGSIZE + low) % PGSIZE == low
    ensures (f * PGSIZE + low) % 2 == low % 2
  {
    assert f * PGSIZE == f * 2048 * 2;
  }

  /** pa | perm | PTE_P for the page-aligned pa of frame f. */
  function Entry(f: nat, perm: nat): (w: uint32)
    requires f < VPAGES && perm < PGSIZE
    ensures Frame(w) == f && Present(w) && Flags(w) == WithP(perm)
  {
    JoinEntry(f, WithP(perm));
    f * PGSIZE + WithP(perm)
  }

  function ZeroPage(): (p: Page)
    ensures forall k :: 0 <= k < NPTENTRIES ==> p[k] == 0
  {
    seq(NPTENTRIES, _ => 0)
  }

  /** The page-table entry for virtual page v, 0 where there is no table. */
  function Pte(pages: seq<Page>, d: nat, v: nat): uint32
    requires d < |pages| && v < VPAGES
  {
    var w := pages[d][v / NPTENTRIES];
    if Present(w) && Frame(w) < |pages| then pages[Frame(w)][v % NPTENTRIES] else 0
  }

  // ---- Invariant ----

  /** The kernel's address of frame f. */
  function P2V(f: nat): nat {
    KERNBASE + f * PGSIZE
  }

  /** The free list is threaded through the first words of the free frames. */
  ghost predicate ListOk(v: View) {
    && |v.pages| == |v.role|
    && (forall k {:trigger v.free[k]} :: 0 <= k < |v.free| ==>
          v.free[k] < |v.pages| && v.role[v.free[k]] == Free(k))
    && (forall k {:trigger v.pages[v.free[k]]} :: 0 <= k < |v.free| ==>
          v.pages[v.free[k]][0] == if k == 0 then 0 else P2V(v.free[k - 1]))
    && (forall f {:trigger v.role[f]} :: 0 <= f < |v.role| && v.role[f].Free? ==>
          v.role[f].pos < |v.free| && v.free[v.role[f].pos] == f)
  }

  /** Entries of directories lead to their own tables, and every table is found. */
  ghost predicate TablesOk(pages: seq<Page>, role: seq<Role>) {
    && |pages| == |role| <= VPAGES
    && (forall d, i {:trigger pages[d][i]} :: 0 <= d < |pages| && 0 <= i < NPTENTRIES ==>
          role[d].Dir? && role[d].from <= i && Present(pages[d][i]) ==>
          Frame(pages[d][i]) < |pages| && role[Frame(pages[d][i])] == Table(d, i))
    && (forall f {:trigger role[f]} :: 0 <= f < |role| && role[f].Table? ==>
          && role[f].d < |role| && role[f].i < NPTENTRIES && role[role[f].d].Dir? && role[role[f].d].from <= role[f].i
          && Present(pages[role[f].d][role[f].i]) && Frame(pages[role[f].d][role[f].i]) == f)
  }

  /** User entries lead to their own pages, and every user page is found. */
  ghost predicate UsersOk(pages: seq<Page>, role: seq<Role>) {
    && |pages| == |role|
    && (forall d, v {:trigger Pte(pages, d, v)} :: 0 <= d < |pages| && 0 <= v < UPAGES ==>
          role[d] == Dir(0) && Present(Pte(pages, d, v)) ==>
          Frame(Pte(pages, d, v)) < |pages| && role[Frame(Pte(pages, d, v))] == User(d, v))
    && (forall f {:trigger role[f]} :: 0 <= f < |role| && role[f].User? ==>
          && role[f].d < |role| && role[f].v < UPAGES && role[role[f].d] == Dir(0)
          && Present(Pte(pages, role[f].d, role[f].v)) && Frame(Pte(pages, role[f].d, role[f].v)) == f)
  }

  ghost predicate Valid(v: View) {
    ListOk(v) && TablesOk(v.pages, v.role) && UsersOk(v.pages, v.role)
  }

  // ---- Changes of role and of contents, one frame at a time ----

  predicate Plain(r: Role) {
    r.Free? || r.Other? || r.Held?
  }

  /** A frame passing between the free list and other use is no part of any
      address space. */
  lemma PlainRole(pages: seq<Page>, role: seq<Role>, f: nat, r: Role)
    requires TablesOk(pages, role) && UsersOk(pages, role) && f < |role| && Plain(role[f]) && Plain(r)
    ensures TablesOk(pages, role[f := r]) && UsersOk(pages, role[f := r])
  {
    hide Pte;
  }

  /** Nor does what is written to it, or to a user page, matter to any. */
  lemma LeafWrite(pages: seq<Page>, role: seq<Role>, f: nat, p: Page)
    requires TablesOk(pages, role) && UsersOk(pages, role) && f < |role| && !role[f].Dir? && !role[f].Table?
    ensures TablesOk(pages[f := p], role) && UsersOk(pages[f := p], role)
    ensures forall d, v {:trigger Pte(pages[f := p], d, v)} ::
              0 <= d < |pages| && 0 <= v < VPAGES && role[d] == Dir(0) ==>
              Pte(pages[f := p], d, v) == Pte(pages, d, v)
  {
    var pages' := pages[f := p];
    forall d, v | 0 <= d < |pages| && 0 <= v < VPAGES && role[d] == Dir(0)
      ensures Pte(pages', d, v) == Pte(pages, d, v)
    {
      var w := pages[d][v / NPTENTRIES];
    }
  }

  /** A zeroed frame becomes a page directory. */
  lemma NewDir(pages: seq<Page>, role: seq<Role>, f: nat)
    requires TablesOk(pages, role) && UsersOk(pages, role) && f < |role| && Plain(role[f]) && pages[f] == ZeroPage()
    ensures TablesOk(pages, role[f := Dir(0)]) && UsersOk(pages, role[f := Dir(0)])
    ensures forall v :: 0 <= v < VPAGES ==> Pte(pages, f, v) == 0
  {
  }

  /** Entries of d other than those of v, and all other address spaces. */
  ghost predicate OtherPtes(pages: seq<Page>, pages': seq<Page>, role: seq<Role>, d: nat, v: nat)
    requires |pages| == |pages'| == |role|
  {
    forall e, u {:trigger Pte(pages', e, u)} ::
      0 <= e < |pages| && 0 <= u < VPAGES && role[e] == Dir(0) && !(e == d && u == v) ==>
      Pte(pages', e, u) == Pte(pages, e, u)
  }

  /** walkpgdir installs a zeroed frame as table i of d: no entry changes. */
  lemma NewTable(pages: seq<Page>, role: seq<Role>, d: nat, i: nat, f: nat)
    requires TablesOk(pages, role) && UsersOk(pages, role) && d < |role| && role[d] == Dir(0) && i < NPTENTRIES
    requires !Present(pages[d][i]) && f < |role| && Plain(role[f]) && pages[f] == ZeroPage()
    ensures var pages', role' := pages[d := pages[d][i := Entry(f, 7)]], role[f := Table(d, i)];
            && TablesOk(pages', role') && UsersOk(pages', role')
            && forall e, u {:trigger Pte(pages', e, u)} :: 0 <= e < |pages| && 0 <= u < VPAGES && role[e] == Dir(0) ==>
                 Pte(pages', e, u) == Pte(pages, e, u)
  {
    hide Frame, Present, Entry;
    var pages', role' := pages[d := pages[d][i := Entry(f, 7)]], role[f := Table(d, i)];
    forall e, u | 0 <= e < |pages| && 0 <= u < VPAGES && role[e] == Dir(0)
      ensures Pte(pages', e, u) == Pte(pages, e, u)
    {
      assert pages[e][u / NPTENTRIES] == pages[e][u / NPTENTRIES];
    }
  }

  /** *pte = w for virtual page v of d. */
  function WithPte(pages: seq<Page>, d: nat, v: nat, w: uint32): (r: seq<Page>)
    requires d < |pages| && v < VPAGES && Frame(pages[d][v / NPTENTRIES]) < |pages|
    ensures |r| == |pages|
  {
    var t := Frame(pages[d][v / NPTENTRIES]);
    pages[t := pages[t][v % NPTENTRIES := w]]
  }

  ghost predicate HasTable(pages: seq<Page>, role: seq<Role>, d: nat, v: nat) {
    && TablesOk(pages, role) && d < |role| && role[d] == Dir(0) && v < VPAGES
    && Present(pages[d][v / NPTENTRIES]) && Frame(pages[d][v / NPTENTRIES]) < |pages|
  }

  /** Storing an entry changes that entry of that address space only. */
  lemma StorePte(pages: seq<Page>, role: seq<Role>, d: nat, v: nat, w: uint32)
    requires HasTable(pages, role, d, v)
    ensures var pages' := WithPte(pages, d, v, w);
            && HasTable(pages', role, d, v) && Pte(pages', d, v) == w && OtherPtes(pages, pages', role, d, v)
            && pages'[d] == pages[d]
  {
    hide Frame, Present;
    var pages' := WithPte(pages, d, v, w);
    var t := Frame(pages[d][v / NPTENTRIES]);
    assert role[t] == Table(d, v / NPTENTRIES);
    forall e, u | 0 <= e < |pages| && 0 <= u < VPAGES && role[e] == Dir(0) && !(e == d && u == v)
      ensures Pte(pages', e, u) == Pte(pages, e, u)
    {
      if u != v { PageIndex(u, v); }
      assert pages'[e] == pages[e];
    }
    forall e, i | 0 <= e < |pages| && 0 <= i < NPTENTRIES && role[e].Dir? ensures pages'[e][i] == pages[e][i] {
    }
  }

  lemma PageIndex(u: nat, v: nat)
    requires u != v
    ensures u / NPTENTRIES != v / NPTENTRIES || u % NPTENTRIES != v % NPTENTRIES
  {
  }

  /** Roles that are neither directory nor table do not matter to the tables. */
  lemma LeafRole(pages: seq<Page>, role: seq<Role>, f: nat, r: Role)
    requires TablesOk(pages, role) && f < |role| && !role[f].Dir? && !role[f].Table? && !r.Dir? && !r.Table?
    ensures TablesOk(pages, role[f := r])
  {
  }

  /** A frame in no address space becomes user page v of d. */
  lemma MapUser(pages: seq<Page>, role: seq<Role>, d: nat, v: nat, f: nat, perm: nat)
    requires HasTable(pages, role, d, v) && UsersOk(pages, role) && v < UPAGES && !Present(Pte(pages, d, v))
    requires f < |role| && Plain(role[f]) && perm < PGSIZE
    ensures var pages', role' := WithPte(pages, d, v, Entry(f, perm)), role[f := User(d, v)];
            HasTable(pages', role', d, v) && UsersOk(pages', role')
  {
    hide Frame, Present, Entry, Pte;
    StorePte(pages, role, d, v, Entry(f, perm));
    LeafRole(WithPte(pages, d, v, Entry(f, perm)), role, f, User(d, v));
  }

  /** User page v of d becomes a frame in no address space. */
  lemma UnmapUser(pages: seq<Page>, role: seq<Role>, d: nat, v: nat)
    requires HasTable(pages, role, d, v) && UsersOk(pages, role) && v < UPAGES && Present(Pte(pages, d, v))
    ensures var f, pages' := Frame(Pte(pages, d, v)), WithPte(pages, d, v, 0);
            && f < |role| && role[f] == User(d, v)
            && HasTable(pages', role[f := Held(d)], d, v) && UsersOk(pages', role[f := Held(d)])
  {
    hide Frame, Pte, TablesOk, WithPte;
    var f := Frame(Pte(pages, d, v));
    StorePte(pages, role, d, v, 0);
    LeafRole(WithPte(pages, d, v, 0), role, f, Held(d));
  }

  /** Entries of the kernel half lead nowhere anyone owns. */
  lemma MapKernel(pages: seq<Page>, role: seq<Role>, d: nat, v: nat, w: uint32)
    requires HasTable(pages, role, d, v) && UsersOk(pages, role) && v >= UPAGES
    ensures UsersOk(WithPte(pages, d, v, w), role)
  {
    hide Frame, Present, Pte, TablesOk, WithPte;
    StorePte(pages, role, d, v, w);
  }

  // ---- Taking an address space apart ----

  ghost predicate NoUsers(role: seq<Role>, d: nat) {
    forall f {:trigger role[f]} :: 0 <= f < |role| && role[f].User? ==> role[f].d != d
  }

  /** Entry k of d is given up, with its table if it has one. */
  ghost function Dropped(pages: seq<Page>, role: seq<Role>, d: nat, k: nat): (r: seq<Role>)
    requires |pages| == |role| && d < |role| && k < NPTENTRIES
    ensures |r| == |role|
  {
    var w := pages[d][k];
    (if Present(w) && Frame(w) < |role| then role[Frame(w) := Held(d)] else role)[d := Dir(k + 1)]
  }

  lemma DropTable(pages: seq<Page>, role: seq<Role>, d: nat, k: nat)
    requires TablesOk(pages, role) && UsersOk(pages, role) && d < |role| && k < NPTENTRIES
    requires role[d] == Dir(k) && NoUsers(role, d)
    ensures Present(pages[d][k]) ==> Frame(pages[d][k]) < |role| && role[Frame(pages[d][k])] == Table(d, k)
    ensures var role' := Dropped(pages, role, d, k);
            TablesOk(pages, role') && UsersOk(pages, role') && NoUsers(role', d)
  {
    hide Frame, Present, Pte;
  }

  lemma DropDir(pages: seq<Page>, role: seq<Role>, d: nat)
    requires TablesOk(pages, role) && UsersOk(pages, role) && d < |role| && role[d] == Dir(NPTENTRIES)
    ensures TablesOk(pages, role[d := Held(d)]) && UsersOk(pages, role[d := Held(d)])
  {
    hide Frame, Present, Pte;
  }

  // ---- The free list ----

  lemma PopList(v: View, r: Role)
    requires ListOk(v) && v.free != [] && !r.Free?
    ensures var n := |v.free| - 1;
            v.free[n] < |v.role| && ListOk(View(v.pages, v.role[v.free[n] := r], v.free[..n]))
  {
  }

  lemma PushList(v: View, f: nat, p: Page)
    requires ListOk(v) && f < |v.role| && !v.role[f].Free?
    requires p[0] == if v.free == [] then 0 else P2V(v.free[|v.free| - 1])
    ensures ListOk(View(v.pages[f := p], v.role[f := Free(|v.free|)], v.free + [f]))
  {
    hide P2V;
  }

  /** A frame that is not free, and stays so, is no business of the list. */
  lemma KeepList(v: View, f: nat, p: Page, r: Role)
    requires ListOk(v) && f < |v.role| && !v.role[f].Free? && !r.Free?
    ensures ListOk(v.(pages := v.pages[f := p], role := v.role[f := r]))
  {
    hide P2V;
  }
}
