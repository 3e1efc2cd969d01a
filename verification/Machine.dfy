/** What several parts of the system agree on: the widths of C's types, the limits
    of param.h, the memory layout of memlayout.h and mmu.h, and C strings. */
module Machine {

  const UINT_RANGE := 0x1_0000_0000

  type byte = x: int | 0 <= x < 256
  type uint16 = x: int | 0 <= x < 0x1_0000
  type uint32 = x: int | 0 <= x < UINT_RANGE

  // ---- param.h ----

  const MAXOPBLOCKS := 10    // blocks any file system operation may write
  const LOGSIZE := 30        // data blocks in the on-disk log
  const NBUF := 30           // buffers in the cache
  const MAXARG := 32         // arguments of exec
  const ROOTDEV := 1

  // ---- mmu.h and memlayout.h ----

  const PGSIZE := 4096
  const NPTENTRIES := 1024
  const EXTMEM := 0x10_0000
  const PHYSTOP := 0xE00_0000
  const KERNBASE := 0x8000_0000
  const KERNLINK := 0x8010_0000
  const DEVSPACE := 0xFE00_0000
  const UPAGES := 0x8_0000   // user pages of an address space: those below KERNBASE
  const VPAGES := 0x10_0000

  /** Has entry i of a page directory a table in the kernel half of every address
      space?  Those for memory up to PHYSTOP and for the devices have. */
  predicate KernelTable(i: nat) {
    512 <= i < 568 || 1016 <= i < NPTENTRIES
  }

  /** In addresses: i is the entry of a, ten bits above its 22 low ones. */
  lemma KernelTableAt(a: nat)
    requires KERNBASE <= a < UINT_RANGE
    ensures KernelTable(a / PGSIZE / NPTENTRIES) <==> a < KERNBASE + PHYSTOP || DEVSPACE <= a
  {
    assert a / PGSIZE / NPTENTRIES == a / 0x40_0000;
  }

  /** The C string at position a: up to the NUL, or the end of what is there. */
  function CString<T(==)>(mem: seq<T>, a: nat, nul: T): seq<T>
    decreases |mem| - a
  {
    if a >= |mem| || mem[a] == nul then [] else [mem[a]] + CString(mem, a + 1, nul)
  }
}
