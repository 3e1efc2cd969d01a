/** The user-level allocator of umalloc.c: a circular free list in address order,
    kept across malloc, free and morecore.  Addresses and sizes are counted in
    headers; address 0 is the static header base, below everything sbrk returns. */
module Umalloc {
  import opened Machine

  /** What a unit of memory is: not this allocator's, part of a free block, or part
      of the allocated block whose header is at b. */
  datatype Tag = Foreign | FreeUnit | UsedUnit(b: nat)

  /** Header fields by address, what each unit is, and the free list from base on. */
  datatype Heap = Heap(ptr: seq<nat>, size: seq<nat>, tag: seq<Tag>, list: seq<nat>)

  const BASE := 0

  /** The k-th free block, and base again after the last. */
  function At(list: seq<nat>, k: int): nat {
    if 0 <= k < |list| then list[k] else BASE
  }

  /** The list starts at base and is in address order, and no two blocks touch,
      except perhaps the one at seam and the next. */
  ghost predicate OrderedBut(size: seq<nat>, list: seq<nat>, seam: int) {
    && |list| > 0 && list[0] == BASE && |size| > 0 && size[BASE] == 0
    && (forall k {:trigger list[k]} :: 0 < k < |list| ==>
          0 < list[k] && list[k] < |size| && 0 < size[list[k]] && list[k] + size[list[k]] <= |size|)
    && (forall j, k {:trigger list[j], list[k]} :: 0 < j < k < |list| ==>
          list[j] + size[list[j]] <= list[k] && (list[j] + size[list[j]] == list[k] ==> j == seam && k == seam + 1))
  }

  const NOWHERE := -1

  ghost predicate Ordered(size: seq<nat>, list: seq<nat>) {
    OrderedBut(size, list, NOWHERE)
  }

  ghost predicate Chained(ptr: seq<nat>, list: seq<nat>) {
    && (forall k {:trigger list[k]} :: 0 <= k < |list| ==> list[k] < |ptr|)
    && (forall k {:trigger ptr[list[k]]} :: 0 <= k < |list| ==> ptr[list[k]] == At(list, k + 1))
  }

  predicate InBlock(size: seq<nat>, b: nat, u: int) {
    b < |size| && b <= u < b + size[b]
  }

  /** Unit u lies in a block of the list. */
  ghost predicate InFree(size: seq<nat>, list: seq<nat>, u: int) {
    exists k :: 0 < k < |list| && InBlock(size, list[k], u)
  }

  /** Free units are those of listed blocks. */
  ghost predicate FreeOk(size: seq<nat>, list: seq<nat>, tag: seq<Tag>) {
    forall u {:trigger tag[u]} :: 0 <= u < |tag| ==> (tag[u] == FreeUnit <==> InFree(size, list, u))
  }

  /** Used units come in whole blocks, each with its header. */
  ghost predicate UsedOk(size: seq<nat>, tag: seq<Tag>) {
    && |size| == |tag|
    && (forall u {:trigger tag[u]} :: 0 <= u < |tag| && tag[u].UsedUnit? ==>
          0 < tag[u].b && InBlock(size, tag[u].b, u) && tag[u].b + size[tag[u].b] <= |tag|)
    && (forall u, v {:trigger tag[u], tag[v]} :: 0 <= u < |tag| && 0 <= v < |tag| && tag[u].UsedUnit? ==>
          InBlock(size, tag[u].b, v) ==> tag[v] == tag[u])
  }

  ghost predicate Tagged(h: Heap) {
    |h.ptr| == |h.size| == |h.tag| && FreeOk(h.size, h.list, h.tag) && UsedOk(h.size, h.tag)
  }

  ghost predicate Valid(h: Heap) {
    Tagged(h) && Ordered(h.size, h.list) && Chained(h.ptr, h.list)
  }

  /** Units lo .. hi - 1 given a new tag. */
  ghost function Retag(tag: seq<Tag>, lo: nat, hi: nat, t: Tag): (r: seq<Tag>)
    ensures |r| == |tag| && forall u {:trigger r[u]} :: 0 <= u < |tag| ==> r[u] == if lo <= u < hi then t else tag[u]
  {
    seq(|tag|, u requires 0 <= u < |tag| => if lo <= u < hi then t else tag[u])
  }

  ghost function Without(list: seq<nat>, j: nat): (r: seq<nat>)
    requires j < |list|
    ensures |r| == |list| - 1
    ensures forall k {:trigger r[k]} :: 0 <= k < |r| ==> r[k] == if k < j then list[k] else list[k + 1]
  {
    list[..j] + list[j + 1..]
  }

  lemma FreeWithout(size: seq<nat>, list: seq<nat>, j: nat, u: int)
    requires Ordered(size, list) && 0 < j < |list|
    ensures InFree(size, Without(list, j), u) <==> InFree(size, list, u) && !InBlock(size, list[j], u)
  {
    hide Without, InBlock, OrderedBut;
    var r := Without(list, j);
    if InFree(size, list, u) && !InBlock(size, list[j], u) {
      var k :| 0 < k < |list| && InBlock(size, list[k], u);
      assert InBlock(size, r[if k < j then k else k - 1], u);
    }
    if InFree(size, r, u) {
      var k :| 0 < k < |r| && InBlock(size, r[k], u);
      var k' := if k < j then k else k + 1;
      assert r[k] == list[k'];
      BlocksApart(size, list, k', j, u);
    }
  }

  lemma BlocksApart(size: seq<nat>, list: seq<nat>, j: nat, k: nat, u: int)
    requires Ordered(size, list) && 0 < j < |list| && 0 < k < |list| && j != k
    ensures !(InBlock(size, list[j], u) && InBlock(size, list[k], u))
  {
  }

  // ---- malloc ----

  /** The block at position j, taken whole. */
  ghost function TakenWhole(h: Heap, j: nat): Heap
    requires 0 < j < |h.list| && h.list[j - 1] < |h.ptr| && h.list[j] < |h.ptr| && h.list[j] < |h.size|
  {
    var p := h.list[j];
    Heap(h.ptr[h.list[j - 1] := h.ptr[p]], h.size, Retag(h.tag, p, p + h.size[p], UsedUnit(p)), Without(h.list, j))
  }

  lemma WholeOrdered(size: seq<nat>, list: seq<nat>, j: nat)
    requires Ordered(size, list) && 0 < j < |list|
    ensures Ordered(size, Without(list, j))
  {
    hide Without;
  }

  lemma WholeChained(h: Heap, j: nat)
    requires Ordered(h.size, h.list) && Chained(h.ptr, h.list) && 0 < j < |h.list| && h.list[j] < |h.size|
    ensures Chained(TakenWhole(h, j).ptr, Without(h.list, j))
  {
    hide Without;
    var list, ptr := Without(h.list, j), h.ptr[h.list[j - 1] := h.ptr[h.list[j]]];
    forall k | 0 <= k < |list| ensures ptr[list[k]] == At(list, k + 1) {
      var k' := if k < j then k else k + 1;
      Rising(h.size, h.list, k', j - 1);
      assert h.ptr[h.list[k']] == At(h.list, k' + 1);
      assert h.ptr[h.list[j]] == At(h.list, j + 1);
    }
  }

  /** Different positions, different blocks. */
  lemma Rising(size: seq<nat>, list: seq<nat>, j: nat, k: nat)
    requires Ordered(size, list) && j < |list| && k < |list|
    ensures list[j] == list[k] <==> j == k
    ensures j < k ==> list[j] < list[k]
  {
  }

  /** A stretch of free units becomes a used block. */
  lemma UsedMore(size: seq<nat>, size': seq<nat>, tag: seq<Tag>, p: nat)
    requires UsedOk(size, tag) && |size'| == |size| && 0 < p < |size'| && 0 < size'[p] && p + size'[p] <= |tag|
    requires forall u {:trigger tag[u]} :: p <= u < p + size'[p] ==> !tag[u].UsedUnit?
    requires forall u {:trigger tag[u]} :: 0 <= u < |tag| && tag[u].UsedUnit? && tag[u].b < |size| ==>
               size'[tag[u].b] == size[tag[u].b]
    ensures UsedOk(size', Retag(tag, p, p + size'[p], UsedUnit(p)))
  {
    hide Retag;
    var tag' := Retag(tag, p, p + size'[p], UsedUnit(p));
    forall u | 0 <= u < |tag| && tag'[u].UsedUnit?
      ensures 0 < tag'[u].b && InBlock(size', tag'[u].b, u) && tag'[u].b + size'[tag'[u].b] <= |tag|
    {
      if !(p <= u < p + size'[p]) { assert InBlock(size, tag[u].b, u); }
    }
    forall u, v | 0 <= u < |tag| && 0 <= v < |tag| && tag'[u].UsedUnit? && InBlock(size', tag'[u].b, v)
      ensures tag'[v] == tag'[u]
    {
      if !(p <= u < p + size'[p]) {
        assert InBlock(size, tag[u].b, v);
        assert tag[v] == tag[u];
      }
    }
  }

  lemma TakeWhole(h: Heap, j: nat)
    requires Valid(h) && 0 < j < |h.list|
    ensures Valid(TakenWhole(h, j))
  {
    hide Without, Retag, InFree, UsedOk, Chained;
    WholeOrdered(h.size, h.list, j);
    WholeChained(h, j);
    var h', p := TakenWhole(h, j), h.list[j];
    FreeUnits(h, j);
    forall u | 0 <= u < |h.tag| ensures h'.tag[u] == FreeUnit <==> InFree(h'.size, h'.list, u) {
      FreeWithout(h.size, h.list, j, u);
    }
    UsedMore(h.size, h.size, h.tag, p);
  }

  /** The units of a listed block are tagged free. */
  lemma FreeUnits(h: Heap, j: nat)
    requires Valid(h) && 0 < j < |h.list|
    ensures forall u {:trigger h.tag[u]} :: h.list[j] <= u < h.list[j] + h.size[h.list[j]] ==>
              u < |h.tag| && h.tag[u] == FreeUnit
  {
    forall u | h.list[j] <= u < h.list[j] + h.size[h.list[j]] ensures u < |h.tag| && h.tag[u] == FreeUnit {
      assert InBlock(h.size, h.list[j], u);
      assert InFree(h.size, h.list, u);
    }
  }

  /** The last n units of the block at position j, made a block of their own. */
  ghost function TakenTail(h: Heap, j: nat, n: nat): Heap
    requires 0 < j < |h.list| && h.list[j] < |h.size| && 0 < n < h.size[h.list[j]]
             && h.list[j] + h.size[h.list[j]] <= |h.size|
  {
    var p := h.list[j];
    var b := p + h.size[p] - n;
    h.(size := h.size[p := h.size[p] - n][b := n], tag := Retag(h.tag, b, b + n, UsedUnit(b)))
  }

  /** No listed block starts inside another. */
  lemma NoneInside(size: seq<nat>, list: seq<nat>, j: nat, b: nat)
    requires Ordered(size, list) && 0 < j < |list| && list[j] < b < list[j] + size[list[j]]
    ensures forall k {:trigger list[k]} :: 0 <= k < |list| ==> list[k] != b
  {
    forall k | 0 <= k < |list| ensures list[k] != b {
      if k < j { Rising(size, list, k, j); }
      if k > j { Rising(size, list, j, k); }
    }
  }

  lemma FreeTail(size: seq<nat>, list: seq<nat>, j: nat, n: nat, u: int)
    requires Ordered(size, list) && 0 < j < |list| && 0 < n < size[list[j]]
    ensures var p := list[j];
            var b := p + size[p] - n;
            InFree(size[p := size[p] - n][b := n], list, u) <==> InFree(size, list, u) && !(b <= u < b + n)
  {
    var p := list[j];
    var b := p + size[p] - n;
    var size' := size[p := size[p] - n][b := n];
    NoneInside(size, list, j, b);
    if InFree(size, list, u) && !(b <= u < b + n) {
      var k :| 0 < k < |list| && InBlock(size, list[k], u);
      Rising(size, list, j, k);
      assert InBlock(size', list[k], u);
    }
    if InFree(size', list, u) {
      var k :| 0 < k < |list| && InBlock(size', list[k], u);
      Rising(size, list, j, k);
      assert InBlock(size, list[k], u);
    }
  }

  lemma TailOrdered(size: seq<nat>, list: seq<nat>, j: nat, n: nat)
    requires Ordered(size, list) && 0 < j < |list| && 0 < n < size[list[j]]
    ensures var p := list[j]; Ordered(size[p := size[p] - n][p + size[p] - n := n], list)
  {
    NoneInside(size, list, j, list[j] + size[list[j]] - n);
    forall k | 0 <= k < |list| && k != j ensures list[k] != list[j] {
      Rising(size, list, k, j);
    }
  }

  /** The header of a used unit is itself used. */
  lemma HeaderUsed(size: seq<nat>, tag: seq<Tag>, u: nat)
    requires UsedOk(size, tag) && u < |tag| && tag[u].UsedUnit?
    ensures tag[u].b < |tag| && tag[tag[u].b] == tag[u]
  {
    assert InBlock(size, tag[u].b, tag[u].b);
  }

  lemma TakeTail(h: Heap, j: nat, n: nat)
    requires Valid(h) && 0 < j < |h.list| && 0 < n < h.size[h.list[j]]
    ensures Valid(TakenTail(h, j, n))
  {
    hide Retag, InFree, UsedOk, Chained;
    var h', p := TakenTail(h, j, n), h.list[j];
    var b := p + h.size[p] - n;
    TailOrdered(h.size, h.list, j, n);
    FreeUnits(h, j);
    forall u | 0 <= u < |h.tag| ensures h'.tag[u] == FreeUnit <==> InFree(h'.size, h'.list, u) {
      FreeTail(h.size, h.list, j, n, u);
    }
    forall u | 0 <= u < |h.tag| && h.tag[u].UsedUnit?
      ensures h.tag[u].b < |h.size| && h'.size[h.tag[u].b] == h.size[h.tag[u].b]
    {
      HeaderUsed(h.size, h.tag, u);
    }
    UsedMore(h.size, h'.size, h.tag, b);
  }

  // ---- free ----

  /** Everything but that the block at seam may touch the next. */
  ghost predicate Nearly(h: Heap, seam: int) {
    Tagged(h) && OrderedBut(h.size, h.list, seam) && Chained(h.ptr, h.list)
  }

  ghost function With(list: seq<nat>, i: nat, b: nat): (r: seq<nat>)
    requires i < |list|
    ensures |r| == |list| + 1
    ensures forall k {:trigger r[k]} :: 0 <= k < |r| ==>
              r[k] == if k <= i then list[k] else if k == i + 1 then b else list[k - 1]
  {
    list[..i + 1] + [b] + list[i + 1..]
  }

  /** b is a used block, and i the position of the last free block below it. */
  ghost predicate Fits(h: Heap, b: nat, i: nat) {
    && b < |h.tag| && h.tag[b] == UsedUnit(b) && i < |h.list| && h.list[i] < b
    && (i + 1 < |h.list| ==> b < h.list[i + 1])
  }

  /** A used block is apart from its free neighbours. */
  lemma Neighbours(h: Heap, b: nat, i: nat)
    requires Valid(h) && Fits(h, b, i)
    ensures 0 < b && 0 < h.size[b] && b + h.size[b] <= |h.size|
    ensures i > 0 ==> h.list[i] + h.size[h.list[i]] <= b
    ensures i + 1 < |h.list| ==> b + h.size[b] <= h.list[i + 1]
  {
    hide InFree, Chained;
    if i > 0 { FreeUnits(h, i); }
    if i + 1 < |h.list| {
      FreeUnits(h, i + 1);
      assert h.tag[h.list[i + 1]] == FreeUnit;
      assert !InBlock(h.size, b, h.list[i + 1]);
    }
  }

  /** A used block becomes a stretch of free units; its own header may grow. */
  lemma UsedLess(size: seq<nat>, size': seq<nat>, tag: seq<Tag>, b: nat)
    requires UsedOk(size, tag) && b < |tag| && tag[b] == UsedUnit(b) && |size'| == |size|
             && size' == size[b := size'[b]]
    ensures UsedOk(size', Retag(tag, b, b + size[b], FreeUnit))
  {
    hide Retag;
    var tag' := Retag(tag, b, b + size[b], FreeUnit);
    forall u | 0 <= u < |tag| && tag'[u].UsedUnit?
      ensures tag'[u] == tag[u] && tag[u].b != b && 0 < tag[u].b
      ensures InBlock(size', tag[u].b, u) && tag[u].b + size'[tag[u].b] <= |tag|
    {
      assert InBlock(size, tag[u].b, u);
    }
    forall u, v | 0 <= u < |tag| && 0 <= v < |tag| && tag'[u].UsedUnit? && InBlock(size', tag'[u].b, v)
      ensures tag'[v] == tag'[u]
    {
      assert InBlock(size, tag[u].b, v);
      assert tag[v] == tag[u];
      assert tag[b] == UsedUnit(b);
    }
  }

  /** b put in the list after position i, with nothing merged. */
  ghost function Inserted(h: Heap, b: nat, i: nat): Heap
    requires i < |h.list| && h.list[i] < |h.ptr| && b < |h.ptr| && b < |h.size|
  {
    Heap(h.ptr[b := At(h.list, i + 1)][h.list[i] := b], h.size,
         Retag(h.tag, b, b + h.size[b], FreeUnit), With(h.list, i, b))
  }

  lemma FreeWith(size: seq<nat>, list: seq<nat>, i: nat, b: nat, u: int)
    requires i < |list| && b < |size|
    ensures InFree(size, With(list, i, b), u) <==> InFree(size, list, u) || InBlock(size, b, u)
  {
    hide With;
    var r := With(list, i, b);
    if InBlock(size, b, u) { assert InBlock(size, r[i + 1], u); }
    if InFree(size, list, u) {
      var k :| 0 < k < |list| && InBlock(size, list[k], u);
      assert InBlock(size, r[if k <= i then k else k + 1], u);
    }
    if InFree(size, r, u) {
      var k :| 0 < k < |r| && InBlock(size, r[k], u);
      if k != i + 1 { assert InBlock(size, list[if k <= i then k else k - 1], u); }
    }
  }

  lemma InsertOrdered(h: Heap, b: nat, i: nat)
    requires Valid(h) && Fits(h, b, i) && (i + 1 < |h.list| ==> b + h.size[b] != h.list[i + 1])
    ensures OrderedBut(h.size, With(h.list, i, b), i)
  {
    hide With, Tagged, Chained;
    Neighbours(h, b, i);
    var r := With(h.list, i, b);
    forall j, k | 0 < j < k < |r|
      ensures r[j] + h.size[r[j]] <= r[k] && (r[j] + h.size[r[j]] == r[k] ==> j == i && k == i + 1)
    {
      if j < i { Rising(h.size, h.list, j, i); }
      if k > i + 2 { Rising(h.size, h.list, i + 1, k - 1); }
    }
  }

  lemma InsertChained(h: Heap, b: nat, i: nat)
    requires Valid(h) && Fits(h, b, i)
    ensures Chained(h.ptr[b := At(h.list, i + 1)][h.list[i] := b], With(h.list, i, b))
  {
    hide With, FreeOk, UsedOk, InFree;
    NotListed(h, b);
    var r, ptr := With(h.list, i, b), h.ptr[b := At(h.list, i + 1)][h.list[i] := b];
    forall k | 0 <= k < |r| ensures ptr[r[k]] == At(r, k + 1) {
      if k != i + 1 {
        var k' := if k <= i then k else k - 1;
        Rising(h.size, h.list, k', i);
        assert h.ptr[h.list[k']] == At(h.list, k' + 1);
      }
    }
  }

  /** A used block is not in the list. */
  lemma NotListed(h: Heap, b: nat)
    requires Valid(h) && b < |h.tag| && h.tag[b] == UsedUnit(b)
    ensures 0 < b && forall k {:trigger h.list[k]} :: 0 <= k < |h.list| ==> h.list[k] != b
  {
    hide InFree, Chained;
    forall k | 0 <= k < |h.list| ensures h.list[k] != b {
      if k > 0 { FreeUnits(h, k); }
    }
  }

  lemma Insert(h: Heap, b: nat, i: nat)
    requires Valid(h) && Fits(h, b, i) && (i + 1 < |h.list| ==> b + h.size[b] != h.list[i + 1])
    ensures Nearly(Inserted(h, b, i), i)
  {
    hide With, Retag, InFree, UsedOk, Chained, OrderedBut;
    Neighbours(h, b, i);
    InsertOrdered(h, b, i);
    InsertChained(h, b, i);
    UsedLess(h.size, h.size, h.tag, b);
    var h' := Inserted(h, b, i);
    forall u | 0 <= u < |h.tag| ensures h'.tag[u] == FreeUnit <==> InFree(h'.size, h'.list, u) {
      FreeWith(h.size, h.list, i, b, u);
    }
  }

  /** b put in the list in place of the block after it, which it takes in. */
  ghost function Absorbed(h: Heap, b: nat, i: nat): Heap
    requires i + 1 < |h.list| && h.list[i] < |h.ptr| && b < |h.ptr| && b < |h.size|
    requires h.list[i + 1] < |h.ptr| && h.list[i + 1] < |h.size|
  {
    var x := h.list[i + 1];
    Heap(h.ptr[b := h.ptr[x]][h.list[i] := b], h.size[b := h.size[b] + h.size[x]],
         Retag(h.tag, b, b + h.size[b], FreeUnit), h.list[i + 1 := b])
  }

  lemma FreeAbsorb(size: seq<nat>, list: seq<nat>, i: nat, b: nat, u: int)
    requires i + 1 < |list| && b < |size| && list[i + 1] < |size| && b + size[b] == list[i + 1]
    requires forall k :: 0 <= k < |list| ==> list[k] != b
    ensures InFree(size[b := size[b] + size[list[i + 1]]], list[i + 1 := b], u)
            <==> InFree(size, list, u) || InBlock(size, b, u)
  {
    var x := list[i + 1];
    var size', r := size[b := size[b] + size[x]], list[i + 1 := b];
    if InBlock(size, b, u) { assert InBlock(size', r[i + 1], u); }
    if InFree(size, list, u) {
      var k :| 0 < k < |list| && InBlock(size, list[k], u);
      assert InBlock(size', r[k], u);
    }
    if InFree(size', r, u) {
      var k :| 0 < k < |r| && InBlock(size', r[k], u);
      assert InBlock(size, list[k], u) || InBlock(size, b, u);
    }
  }

  lemma AbsorbOrdered(h: Heap, b: nat, i: nat)
    requires Valid(h) && Fits(h, b, i) && i + 1 < |h.list| && b + h.size[b] == h.list[i + 1]
    ensures OrderedBut(h.size[b := h.size[b] + h.size[h.list[i + 1]]], h.list[i + 1 := b], i)
  {
    hide Tagged, Chained;
    Neighbours(h, b, i);
    NotListed(h, b);
    var size', r := h.size[b := h.size[b] + h.size[h.list[i + 1]]], h.list[i + 1 := b];
    forall j, k | 0 < j < k < |r|
      ensures r[j] + size'[r[j]] <= r[k] && (r[j] + size'[r[j]] == r[k] ==> j == i && k == i + 1)
    {
      if j < i { Rising(h.size, h.list, j, i); }
      if k > i + 1 { Rising(h.size, h.list, i + 1, k); }
    }
  }

  lemma AbsorbChained(h: Heap, b: nat, i: nat)
    requires Valid(h) && Fits(h, b, i) && i + 1 < |h.list|
    ensures Chained(h.ptr[b := h.ptr[h.list[i + 1]]][h.list[i] := b], h.list[i + 1 := b])
  {
    hide FreeOk, UsedOk, InFree;
    NotListed(h, b);
    var r, ptr := h.list[i + 1 := b], h.ptr[b := h.ptr[h.list[i + 1]]][h.list[i] := b];
    forall k | 0 <= k < |r| ensures ptr[r[k]] == At(r, k + 1) {
      Rising(h.size, h.list, k, i);
      assert h.ptr[h.list[k]] == At(h.list, k + 1);
    }
  }

  lemma ListedInRange(h: Heap, k: nat)
    requires Valid(h) && k < |h.list|
    ensures h.list[k] < |h.ptr| == |h.size|
  {
    hide FreeOk, UsedOk, OrderedBut;
  }

  lemma Absorb(h: Heap, b: nat, i: nat)
    requires Valid(h) && Fits(h, b, i) && i + 1 < |h.list| && b + h.size[b] == h.list[i + 1]
    ensures Nearly(Absorbed(h, b, i), i)
  {
    hide Retag, InFree, UsedOk, Chained, OrderedBut;
    Neighbours(h, b, i);
    NotListed(h, b);
    AbsorbOrdered(h, b, i);
    AbsorbChained(h, b, i);
    ListedInRange(h, i + 1);
    var h' := Absorbed(h, b, i);
    UsedLess(h.size, h'.size, h.tag, b);
    forall u | 0 <= u < |h.tag| ensures h'.tag[u] == FreeUnit <==> InFree(h'.size, h'.list, u) {
      FreeAbsorb(h.size, h.list, i, b, u);
    }
  }

  /** The block at position i takes in the one after it, which it touches. */
  ghost function Joined(h: Heap, i: nat): Heap
    requires i + 1 < |h.list| && h.list[i] < |h.ptr| == |h.size| && h.list[i + 1] < |h.ptr|
  {
    var p, b := h.list[i], h.list[i + 1];
    h.(ptr := h.ptr[p := h.ptr[b]], size := h.size[p := h.size[p] + h.size[b]], list := Without(h.list, i + 1))
  }

  lemma FreeJoined(size: seq<nat>, list: seq<nat>, i: nat, u: int)
    requires OrderedBut(size, list, i) && 0 < i && i + 1 < |list| && list[i] + size[list[i]] == list[i + 1]
    ensures InFree(size[list[i] := size[list[i]] + size[list[i + 1]]], Without(list, i + 1), u)
            <==> InFree(size, list, u)
  {
    hide Without, OrderedBut;
    var p, b := list[i], list[i + 1];
    JoinDistinct(size, list, i);
    var size', r := size[p := size[p] + size[b]], Without(list, i + 1);
    if InFree(size, list, u) {
      var k :| 0 < k < |list| && InBlock(size, list[k], u);
      assert InBlock(size', r[if k <= i then k else k - 1], u);
    }
    if InFree(size', r, u) {
      var k :| 0 < k < |r| && InBlock(size', r[k], u);
      if k != i {
        assert InBlock(size, list[if k < i then k else k + 1], u);
      } else {
        assert InBlock(size, list[i], u) || InBlock(size, list[i + 1], u);
      }
    }
  }

  lemma JoinDistinct(size: seq<nat>, list: seq<nat>, i: nat)
    requires OrderedBut(size, list, i) && 0 < i && i + 1 < |list|
    ensures list[i] < |size| && list[i + 1] < |size| && forall k {:trigger list[k]} :: 0 <= k < |list| && k != i ==>
              list[k] != list[i]
  {
    forall k | 0 <= k < |list| && k != i ensures list[k] != list[i] {
      assert k < i ==> list[k] < list[i];
      assert k > i ==> list[i] < list[k];
    }
  }

  lemma JoinOrdered(size: seq<nat>, list: seq<nat>, i: nat)
    requires OrderedBut(size, list, i) && 0 < i && i + 1 < |list| && list[i] + size[list[i]] == list[i + 1]
    ensures Ordered(size[list[i] := size[list[i]] + size[list[i + 1]]], Without(list, i + 1))
  {
    hide Without;
    var p, b := list[i], list[i + 1];
    var size', r := size[p := size[p] + size[b]], Without(list, i + 1);
    forall j, k | 0 < j < k < |r| ensures r[j] + size'[r[j]] < r[k] {
      var j', k' := if j <= i then j else j + 1, if k <= i then k else k + 1;
      assert list[j'] + size[list[j']] <= list[k'];
      if j == i { assert list[i + 1] + size[list[i + 1]] < list[k']; }
    }
  }

  lemma JoinChained(h: Heap, i: nat)
    requires Nearly(h, i) && 0 < i && i + 1 < |h.list|
    ensures Chained(h.ptr[h.list[i] := h.ptr[h.list[i + 1]]], Without(h.list, i + 1))
  {
    hide Without, FreeOk, UsedOk;
    var r, ptr := Without(h.list, i + 1), h.ptr[h.list[i] := h.ptr[h.list[i + 1]]];
    forall k | 0 <= k < |r| ensures ptr[r[k]] == At(r, k + 1) {
      var k' := if k <= i then k else k + 1;
      assert k' < i ==> h.list[k'] < h.list[i];
      assert k' > i ==> h.list[i] < h.list[k'];
      assert h.ptr[h.list[k']] == At(h.list, k' + 1);
      assert h.ptr[h.list[i + 1]] == At(h.list, i + 2);
    }
  }

  /** No used block has its header in a listed one. */
  lemma HeadersKept(h: Heap, seam: int, j: nat)
    requires Nearly(h, seam) && 0 < j < |h.list|
    ensures forall u {:trigger h.tag[u]} :: 0 <= u < |h.tag| && h.tag[u].UsedUnit? ==>
              h.tag[u].b < |h.tag| && h.tag[u].b != h.list[j]
  {
    hide Chained;
    assert InBlock(h.size, h.list[j], h.list[j]);
    assert InFree(h.size, h.list, h.list[j]);
    assert h.tag[h.list[j]] == FreeUnit;
    forall u | 0 <= u < |h.tag| && h.tag[u].UsedUnit? ensures h.tag[u].b < |h.tag| && h.tag[u].b != h.list[j] {
      HeaderUsed(h.size, h.tag, u);
    }
  }

  lemma UsedSame(size: seq<nat>, size': seq<nat>, tag: seq<Tag>)
    requires UsedOk(size, tag) && |size'| == |size|
    requires forall u {:trigger tag[u]} :: 0 <= u < |tag| && tag[u].UsedUnit? && tag[u].b < |size| ==>
               size'[tag[u].b] == size[tag[u].b]
    ensures UsedOk(size', tag)
  {
  }

  lemma Join(h: Heap, i: nat)
    requires Nearly(h, i) && 0 < i && i + 1 < |h.list| && h.list[i] + h.size[h.list[i]] == h.list[i + 1]
    ensures Valid(Joined(h, i))
  {
    hide Without, InFree, UsedOk, Chained;
    JoinOrdered(h.size, h.list, i);
    JoinChained(h, i);
    HeadersKept(h, i, i);
    var h' := Joined(h, i);
    UsedSame(h.size, h'.size, h.tag);
    forall u | 0 <= u < |h.tag| ensures h'.tag[u] == FreeUnit <==> InFree(h'.size, h'.list, u) {
      FreeJoined(h.size, h.list, i, u);
    }
  }

  /** With nothing to join, the list is in order already. */
  lemma Apart(h: Heap, i: nat)
    requires Nearly(h, i) && i + 1 < |h.list| && h.list[i] + h.size[h.list[i]] != h.list[i + 1]
    ensures Valid(h)
  {
    hide InFree, UsedOk, FreeOk, Chained;
  }

  // ---- Growing ----

  /** gap units that are someone else's, then a used block of n units. */
  ghost function Grown(h: Heap, gap: nat, n: nat): Heap {
    var a := |h.size| + gap;
    Heap(h.ptr + seq(gap + n, _ => 0), h.size + seq(gap + n, k => if k == gap then n else 0),
         h.tag + seq(gap, _ => Foreign) + seq(n, _ => UsedUnit(a)), h.list)
  }

  lemma FreeGrown(h: Heap, gap: nat, n: nat, u: int)
    requires Valid(h)
    ensures InFree(Grown(h, gap, n).size, h.list, u) <==> InFree(h.size, h.list, u)
    ensures InFree(h.size, h.list, u) ==> 0 <= u < |h.size|
  {
    hide FreeOk, UsedOk, Chained;
    var size := Grown(h, gap, n).size;
    if InFree(h.size, h.list, u) {
      var k :| 0 < k < |h.list| && InBlock(h.size, h.list[k], u);
      assert InBlock(size, h.list[k], u);
    }
    if InFree(size, h.list, u) {
      var k :| 0 < k < |h.list| && InBlock(size, h.list[k], u);
      assert InBlock(h.size, h.list[k], u);
    }
  }

  lemma GrowOrdered(h: Heap, gap: nat, n: nat)
    requires Valid(h)
    ensures Ordered(Grown(h, gap, n).size, h.list) && Chained(Grown(h, gap, n).ptr, h.list)
  {
    hide FreeOk, UsedOk;
  }

  lemma GrowUsed(h: Heap, gap: nat, n: nat)
    requires Valid(h) && 0 < n
    ensures UsedOk(Grown(h, gap, n).size, Grown(h, gap, n).tag)
  {
    hide FreeOk, Chained;
    var h', a := Grown(h, gap, n), |h.size| + gap;
    forall u | 0 <= u < |h'.tag| && h'.tag[u].UsedUnit?
      ensures 0 < h'.tag[u].b && InBlock(h'.size, h'.tag[u].b, u) && h'.tag[u].b + h'.size[h'.tag[u].b] <= |h'.tag|
    {
      if u < |h.tag| { assert InBlock(h.size, h.tag[u].b, u); }
    }
  }

  lemma Grow(h: Heap, gap: nat, n: nat)
    requires Valid(h) && 0 < n
    ensures Valid(Grown(h, gap, n)) && Grown(h, gap, n).tag[|h.size| + gap] == UsedUnit(|h.size| + gap)
  {
    hide InFree, UsedOk, Chained, OrderedBut;
    GrowOrdered(h, gap, n);
    GrowUsed(h, gap, n);
    var h' := Grown(h, gap, n);
    forall u | 0 <= u < |h'.tag| ensures h'.tag[u] == FreeUnit <==> InFree(h'.size, h'.list, u) {
      FreeGrown(h, gap, n, u);
    }
  }

  // ---- The list walks ----

  /** Where a used block belongs in the list. */
  lemma FindSlot(h: Heap, b: nat) returns (i: nat)
    requires Valid(h) && b < |h.tag| && h.tag[b] == UsedUnit(b)
    ensures Fits(h, b, i)
  {
    hide FreeOk, UsedOk, Chained;
    NotListed(h, b);
    i := 0;
    while i + 1 < |h.list| && h.list[i + 1] < b
      invariant i < |h.list| && h.list[i] < b
    {
      i := i + 1;
    }
  }

  /** There is only one such place. */
  lemma OneSlot(h: Heap, b: nat, i: nat, k: nat)
    requires Valid(h) && Fits(h, b, i) && k < |h.list| && h.list[k] < b && (k + 1 < |h.list| ==> b < h.list[k + 1])
    ensures i == k
  {
    hide FreeOk, UsedOk, Chained;
    if i < k { Rising(h.size, h.list, i + 1, k); }
    if k < i { Rising(h.size, h.list, k + 1, i); }
  }

  /** Links from position k to position i, going around. */
  function Distance(k: nat, i: nat, n: nat): int {
    if k <= i then i - k else i - k + n
  }

  /** Memory that is allocated before and after is not written to. */
  ghost predicate Untouched(h: Heap, h': Heap) {
    && |h.ptr| == |h.size| == |h.tag| && |h'.ptr| == |h'.size| == |h'.tag| && |h.tag| <= |h'.tag|
    && forall u {:trigger h'.ptr[u]} {:trigger h'.size[u]} ::
         0 <= u < |h.tag| && h.tag[u].UsedUnit? && h'.tag[u].UsedUnit? ==>
         h'.ptr[u] == h.ptr[u] && h'.size[u] == h.size[u]
  }

  /** Stored at a used block's own header and at listed blocks only. */
  lemma FreeUntouched(h: Heap, h1: Heap, b: nat, i: nat)
    requires Valid(h) && Fits(h, b, i)
    requires h1 == if i + 1 < |h.list| && b + h.size[b] == h.list[i + 1] then Absorbed(h, b, i) else Inserted(h, b, i)
    ensures Untouched(h, h1)
  {
    hide With, Retag, InFree, FreeOk, OrderedBut, Chained;
    Neighbours(h, b, i);
    if i > 0 { FreeUnits(h, i); }
    assert h1.tag[b] == FreeUnit;
    BaseForeign(h);
    ListedTag(h, i);
  }

  lemma BaseForeign(h: Heap)
    requires Valid(h)
    ensures |h.tag| > 0 && !h.tag[BASE].UsedUnit?
  {
    hide FreeOk, Chained, InFree;
  }

  lemma ListedTag(h: Heap, k: nat)
    requires Valid(h) && k < |h.list|
    ensures h.list[k] < |h.tag| && !h.tag[h.list[k]].UsedUnit?
  {
    hide Chained, InFree;
    if k > 0 { FreeUnits(h, k); } else { BaseForeign(h); }
  }

  lemma JoinUntouched(h: Heap, i: nat)
    requires Nearly(h, i) && 0 < i && i + 1 < |h.list|
    ensures h.list[i] < |h.ptr| && h.list[i + 1] < |h.ptr| && Untouched(h, Joined(h, i))
  {
    hide Without, InFree, FreeOk, UsedOk;
    assert InBlock(h.size, h.list[i], h.list[i]);
    InFreeAt(h, i);
  }

  lemma InFreeAt(h: Heap, i: nat)
    requires Nearly(h, i) && 0 < i && i < |h.list|
    ensures h.list[i] < |h.tag| && h.tag[h.list[i]] == FreeUnit
  {
    hide UsedOk;
    assert InBlock(h.size, h.list[i], h.list[i]);
    assert InFree(h.size, h.list, h.list[i]);
  }

  const HEADER := 8      // bytes in a unit

  /** Units that nbytes take, with the header: computed in 32 bits, where the sum can
      wrap around. */
  function Units(nbytes: uint32): (n: nat)
    ensures n >= 1
  {
    (nbytes + HEADER - 1) % UINT_RANGE / HEADER + 1
  }

  /** What sbrk is asked for: bytes, in 32 bits, read as a signed number. */
  function SbrkBytes(n: nat): int {
    var b := n * HEADER % UINT_RANGE;
    if b < UINT_RANGE / 2 then b else b - UINT_RANGE
  }

  /** The units hold nbytes past the header, with less than a unit to spare, if and
      only if the sum does not wrap; otherwise there is the header alone. */
  lemma UnitsHold(nbytes: uint32)
    ensures nbytes <= 8 * (Units(nbytes) - 1) <==> nbytes <= 0xFFFF_FFF8
    ensures nbytes <= 0xFFFF_FFF8 ==> 8 * (Units(nbytes) - 1) < nbytes + 8
    ensures nbytes > 0xFFFF_FFF8 ==> Units(nbytes) == 1
  {
  }

  /** sbrk is asked for n units if and only if they are less than 2^31 bytes. */
  lemma SbrkAsked(n: nat)
    requires n <= UINT_RANGE
    ensures SbrkBytes(n) == 8 * n <==> n < 0x1000_0000
  {
  }

  /** What its owner writes past the header of an allocated block is no concern of
      the allocator. */
  lemma OwnerWrites(h: Heap, u: nat, x: nat, y: nat)
    requires Valid(h) && u < |h.tag| && h.tag[u].UsedUnit? && u != h.tag[u].b
    ensures Valid(h.(ptr := h.ptr[u := x], size := h.size[u := y]))
  {
    hide InFree, InBlock;
    var h' := h.(ptr := h.ptr[u := x], size := h.size[u := y]);
    forall k | 0 <= k < |h.list| ensures h.list[k] != u {
      ListedTag(h, k);
    }
    forall v | 0 <= v < |h.tag| && h.tag[v].UsedUnit? ensures h.tag[v].b != u {
      HeaderUsed(h.size, h.tag, v);
    }
    forall v | 0 <= v < |h.tag| ensures InFree(h'.size, h.list, v) <==> InFree(h.size, h.list, v) {
      SameBlocks(h.size, h'.size, h.list, v);
      SameBlocks(h'.size, h.size, h.list, v);
    }
    OwnerUsed(h, u, y);
  }

  lemma SameBlocks(size: seq<nat>, size': seq<nat>, list: seq<nat>, u: int)
    requires |size'| == |size| && forall k {:trigger list[k]} :: 0 <= k < |list| && list[k] < |size| ==>
               size'[list[k]] == size[list[k]]
    ensures InFree(size, list, u) ==> InFree(size', list, u)
  {
    if InFree(size, list, u) {
      var k :| 0 < k < |list| && InBlock(size, list[k], u);
      assert InBlock(size', list[k], u);
    }
  }

  lemma OwnerUsed(h: Heap, u: nat, y: nat)
    requires UsedOk(h.size, h.tag) && u < |h.size|
    requires forall v {:trigger h.tag[v]} :: 0 <= v < |h.tag| && h.tag[v].UsedUnit? ==> h.tag[v].b != u
    ensures UsedOk(h.size[u := y], h.tag)
  {
  }

  /** The heap after malloc: the n units at b, all free before or fresh from sbrk, are
      one used block, and everything else is as it was. */
  ghost predicate MallocDone(h: Heap, h': Heap, b: nat, n: nat, sbrk: int) {
    && Untouched(h, h') && b < |h'.size| && h'.size[b] == n && b < |h'.tag| && h'.tag[b] == UsedUnit(b)
    && (var m := if n < 4096 then 4096 else n;
        var before := if sbrk < 0 then h.tag else h.tag + seq(sbrk, _ => Foreign) + seq(m, _ => FreeUnit);
        && b + n <= |before| && h'.tag == Retag(before, b, b + n, UsedUnit(b))
        && forall u {:trigger before[u]} :: b <= u < b + n ==> before[u] == FreeUnit)
  }

  /** No free block has n units. */
  ghost predicate TooSmall(h: Heap, n: nat) {
    forall k {:trigger h.list[k]} :: 0 <= k < |h.list| ==> h.list[k] < |h.size| && h.size[h.list[k]] < n
  }

  /** Positions seen by a walk that started after f and has come to j. */
  predicate Passed(f: nat, j: nat, k: nat) {
    if j > f then f < k < j else k > f || k < j
  }

  /** Block j is the first of n units or more on the way around from the one after f. */
  ghost predicate FirstFit(h: Heap, f: nat, j: nat, n: nat) {
    && j < |h.list| && h.list[j] < |h.size| && h.size[h.list[j]] >= n
    && forall k {:trigger h.list[k]} :: 0 <= k < |h.list| && Passed(f, j, k) ==>
         h.list[k] < |h.size| && h.size[h.list[k]] < n
  }

  ghost function BlockEnd(h: Heap, j: nat): nat {
    if j < |h.list| && h.list[j] < |h.size| then h.list[j] + h.size[h.list[j]] else 0
  }

  lemma FirstFits(h: Heap, f: nat, j: nat, n: nat)
    requires FirstFit(h, f, j, n)
    ensures j < |h.list| && h.list[j] < |h.size| && h.size[h.list[j]] >= n
  {
  }

  /** No free block has room for nbytes past a header; or even for a header, if that is
      all that malloc is going to look for. */
  ghost predicate NoRoom(h: Heap, nbytes: uint32) {
    forall k {:trigger h.list[k]} :: 0 <= k < |h.list| ==>
      h.list[k] < |h.size|
      && if nbytes <= 0xFFFF_FFF8 then 8 * (h.size[h.list[k]] - 1) < nbytes else h.size[h.list[k]] == 0
  }

  lemma SmallNoRoom(h: Heap, nbytes: uint32)
    requires TooSmall(h, Units(nbytes))
    ensures NoRoom(h, nbytes)
  {
    hide Units;
    UnitsHold(nbytes);
  }

  lemma MallocSize(h: Heap, h': Heap, b: nat, n: nat, sbrk: int)
    requires MallocDone(h, h', b, n, sbrk)
    ensures b < |h'.size| && h'.size[b] == n
  {
  }

  /** What comes of asking for memory. */
  datatype More = Got | Failed | Misasked

  lemma Stepping(h: Heap, k: nat)
    requires Valid(h) && k < |h.list|
    ensures h.list[k] < |h.ptr| == |h.size| && h.ptr[h.list[k]] < |h.ptr|
    ensures h.ptr[h.list[k]] == if k + 1 < |h.list| then h.list[k + 1] else h.list[0]
  {
    hide FreeOk, UsedOk;
    assert h.ptr[h.list[k]] == At(h.list, k + 1);
  }

  lemma BaseSize(h: Heap)
    requires Valid(h)
    ensures |h.list| > 0 && h.list[0] < |h.size| && h.size[h.list[0]] == 0
  {
  }

  lemma SamePlace(h: Heap, j: nat, k: nat)
    requires Valid(h) && j < |h.list| && k < |h.list| && h.list[j] == h.list[k]
    ensures j == k
  {
    Rising(h.size, h.list, j, k);
  }

  lemma TakenRange(h: Heap, j: nat)
    requires Valid(h) && 0 < j < |h.list|
    ensures h.list[j] < |h.ptr| == |h.size| == |h.tag| && h.list[j - 1] < |h.ptr|
            && h.list[j] + h.size[h.list[j]] <= |h.size|
  {
    hide FreeOk, UsedOk;
  }

  lemma PreviousKept(h: Heap, j: nat)
    requires 0 < j < |h.list|
    ensures j - 1 < |h.list| && j - 1 < |Without(h.list, j)| && Without(h.list, j)[j - 1] == h.list[j - 1]
  {
  }

  lemma UntouchedNot(h: Heap)
    requires Valid(h)
    ensures Untouched(h, h)
  {
  }

  /** The state malloc cuts its block from: as it was, or grown. */
  ghost predicate Ready(h: Heap, h1: Heap, sbrk: int, n: nat) {
    && Untouched(h, h1)
    && h1.tag == if sbrk < 0 then h.tag
                 else h.tag + seq(sbrk, _ => Foreign) + seq(if n < 4096 then 4096 else n, _ => FreeUnit)
  }

  lemma WholeDone(h: Heap, h1: Heap, j: nat, sbrk: int, n: nat)
    requires Valid(h1) && 0 < j < |h1.list| && h1.size[h1.list[j]] == n && Ready(h, h1, sbrk, n)
    ensures h1.list[j] < |h1.ptr| && h1.list[j - 1] < |h1.ptr| && MallocDone(h, TakenWhole(h1, j), h1.list[j], n, sbrk)
  {
    hide Retag, Without, InFree, FreeOk, UsedOk, Chained;
    TakenRange(h1, j);
    FreeUnits(h1, j);
    ListedTag(h1, j - 1);
    var w := TakenWhole(h1, j);
    forall u | 0 <= u < |h.tag| && h.tag[u].UsedUnit? && w.tag[u].UsedUnit?
      ensures w.ptr[u] == h.ptr[u] && w.size[u] == h.size[u]
    {
      assert h1.tag[u] == h.tag[u];
      assert h1.ptr[u] == h.ptr[u];
    }
  }

  lemma TailDone(h: Heap, h1: Heap, j: nat, sbrk: int, n: nat)
    requires Valid(h1) && 0 < j < |h1.list| && 0 < n < h1.size[h1.list[j]] && Ready(h, h1, sbrk, n)
    ensures h1.list[j] + h1.size[h1.list[j]] <= |h1.size|
    ensures MallocDone(h, TakenTail(h1, j, n), h1.list[j] + h1.size[h1.list[j]] - n, n, sbrk)
  {
    hide Retag, InFree, FreeOk, UsedOk, Chained, OrderedBut;
    TakenRange(h1, j);
    FreeUnits(h1, j);
    var w := TakenTail(h1, j, n);
    forall u | 0 <= u < |h.tag| && h.tag[u].UsedUnit? && w.tag[u].UsedUnit?
      ensures w.ptr[u] == h.ptr[u] && w.size[u] == h.size[u]
    {
      assert h1.tag[u] == h.tag[u];
      assert h1.size[u] == h.size[u];
    }
  }

  lemma ValidSizes(h: Heap)
    requires Valid(h)
    ensures |h.ptr| == |h.size| == |h.tag|
  {
  }

  lemma GrowUntouched(h: Heap, gap: nat, n: nat)
    requires |h.ptr| == |h.size| == |h.tag|
    ensures Untouched(h, Grown(h, gap, n)) && forall u :: 0 <= u < |h.tag| ==> Grown(h, gap, n).tag[u] == h.tag[u]
  {
  }

  lemma UntouchedGrown(h: Heap, h1: Heap, h2: Heap)
    requires Untouched(h, h1) && Untouched(h1, h2) && forall u :: 0 <= u < |h.tag| ==> h1.tag[u] == h.tag[u]
    ensures Untouched(h, h2)
  {
  }

  lemma GrownTags(tag: seq<Tag>, gap: nat, n: nat, hp: nat)
    requires hp == |tag| + gap
    ensures Retag(tag + seq(gap, _ => Foreign) + seq(n, _ => UsedUnit(hp)), hp, hp + n, FreeUnit)
            == tag + seq(gap, _ => Foreign) + seq(n, _ => FreeUnit)
  {
    hide Retag;
  }

  /** base, of size 0, never touches a block. */
  lemma SeamPositive(h: Heap, b: nat, i: nat)
    requires Valid(h) && Fits(h, b, i)
    ensures h.list[i] + h.size[h.list[i]] == b ==> 0 < i
  {
    hide FreeOk, UsedOk, Chained;
  }

  lemma UntouchedTwice(h: Heap, h1: Heap, h2: Heap)
    requires Untouched(h, h1) && Untouched(h1, h2) && h2.tag == h1.tag
    ensures Untouched(h, h2)
  {
  }

  lemma BaseAlone(h: Heap)
    requires |h.ptr| == |h.size| == |h.tag| == |h.list| == 1
    requires h.ptr[0] == BASE && h.size[0] == 0 && h.tag[0] == Foreign && h.list[0] == BASE
    ensures Valid(h)
  {
    hide InBlock;
    assert !InFree(h.size, h.list, 0);
  }

  /** What free's tests mean at position k of the list. */
  lemma Walking(h: Heap, bp: nat, i: nat, k: nat)
    requires Valid(h) && Fits(h, bp, i) && k < |h.list|
    ensures h.list[k] < |h.ptr| && h.ptr[h.list[k]] == At(h.list, k + 1) && h.ptr[h.list[k]] < |h.ptr|
            && h.list[0] == BASE
    ensures bp > h.list[k] && bp < h.ptr[h.list[k]] ==> k == i
    ensures h.list[k] >= h.ptr[h.list[k]] && (bp > h.list[k] || bp < h.ptr[h.list[k]]) ==> k == i
    ensures k == i ==> (bp > h.list[k] && bp < h.ptr[h.list[k]])
                       || (h.list[k] >= h.ptr[h.list[k]] && (bp > h.list[k] || bp < h.ptr[h.list[k]]))
  {
    hide FreeOk, UsedOk;
    assert h.ptr[h.list[k]] == At(h.list, k + 1);
    if k + 1 < |h.list| { Rising(h.size, h.list, k, k + 1); }
    if h.list[k] < bp && (k + 1 < |h.list| ==> bp < h.list[k + 1]) { OneSlot(h, bp, i, k); }
  }

  class Allocator {
    var ptr: seq<nat>
    var size: seq<nat>
    var freep: nat
    ghost var tag: seq<Tag>
    ghost var list: seq<nat>
    ghost var at: nat           // position of freep in the list

    ghost function Now(): Heap
      reads this
    {
      Heap(ptr, size, tag, list)
    }

    ghost predicate Ok()
      reads this
    {
      Valid(Now()) && at < |list| && list[at] == freep
    }

    /** The list as the first call of malloc makes it: base alone. */
    constructor ()
      ensures Ok() && tag == [Foreign]
    {
      hide Valid;
      ptr, size, freep := [BASE], [0], BASE;
      tag, list, at := [Foreign], [BASE], 0;
      new;
      BaseAlone(Now());
    }

    /** free's walk to the block before bp; it goes around at most once. */
    method Locate(bp: nat) returns (p: nat, ghost i: nat)
      requires Ok() && bp < |tag| && tag[bp] == UsedUnit(bp)
      ensures Fits(Now(), bp, i) && p == list[i]
    {
      hide FreeOk, UsedOk, OrderedBut;
      i := FindSlot(Now(), bp);
      p := freep;
      ghost var k := at;
      Walking(Now(), bp, i, k);
      while !(bp > p && bp < ptr[p])
        invariant 0 <= k < |list| && p == list[k] && p < |ptr|
        decreases Distance(k, i, |list|)
      {
        Walking(Now(), bp, i, k);
        if p >= ptr[p] && (bp > p || bp < ptr[p]) { break; }
        p := ptr[p];
        k := if k + 1 < |list| then k + 1 else 0;
        Walking(Now(), bp, i, k);
      }
      Walking(Now(), bp, i, k);
    }

    /** free's first test: the block takes in the free block after it, or is linked
        to it. */
    method LinkNext(bp: nat, p: nat, ghost i: nat)
      requires Valid(Now()) && Fits(Now(), bp, i) && p == list[i] && p < |ptr|
      modifies this`ptr, this`size, this`tag, this`list
      ensures |ptr| == |size| == |old(ptr)| && bp < |ptr| && p < |ptr| && bp < |old(size)|
      ensures i + 1 < |list| && list[i] == p && list[i + 1] == bp && size[bp] >= old(size)[bp]
              && size[p] == old(size)[p]
      ensures tag == Retag(old(tag), bp, bp + old(size)[bp], FreeUnit)
      ensures var h1 := Heap(ptr[p := bp], size, tag, list); Nearly(h1, i) && Untouched(old(Now()), h1)
    {
      hide FreeOk, UsedOk, OrderedBut, InFree, Retag, With, Untouched, InBlock;
      ghost var h := Now();
      Neighbours(h, bp, i);
      Walking(h, bp, i, i);
      var next := ptr[p];
      if bp + size[bp] == next {
        Absorb(h, bp, i);
        ListedInRange(h, i + 1);
        FreeUntouched(h, Absorbed(h, bp, i), bp, i);
        size := size[bp := size[bp] + size[next]];
        ptr := ptr[bp := ptr[next]];
        list := list[i + 1 := bp];
      } else {
        Insert(h, bp, i);
        FreeUntouched(h, Inserted(h, bp, i), bp, i);
        ptr := ptr[bp := next];
        list := With(list, i, bp);
      }
      tag := Retag(tag, bp, bp + h.size[bp], FreeUnit);
    }

    /** free's second test: the free block before takes it in, or is linked to it. */
    method LinkPrev(bp: nat, p: nat, ghost i: nat) returns (ghost k: nat)
      requires p < |ptr| == |size| && bp < |ptr| && i + 1 < |list| && list[i] == p && list[i + 1] == bp
      requires Nearly(Heap(ptr[p := bp], size, tag, list), i) && (p + size[p] == bp ==> 0 < i)
      modifies this`ptr, this`size, this`list
      ensures Valid(Now()) && i < |list| && list[i] == p
      ensures Untouched(Heap(old(ptr)[p := bp], old(size), tag, old(list)), Now())
      ensures 0 < k < |list| && list[k] < |size| && list[k] <= bp && bp + old(size)[bp] <= list[k] + size[list[k]]
    {
      hide FreeOk, UsedOk, OrderedBut, InFree, Without, Chained;
      ghost var h1 := Heap(ptr[p := bp], size, tag, list);
      if p + size[p] == bp {
        Join(h1, i);
        JoinUntouched(h1, i);
        JoinDistinct(h1.size, h1.list, i);
        size := size[p := size[p] + size[bp]];
        ptr := ptr[p := ptr[bp]];
        list := Without(list, i + 1);
        k := i;
        assert ptr == h1.ptr[p := h1.ptr[bp]];
      } else {
        Apart(h1, i);
        ptr := ptr[p := bp];
        k := i + 1;
      }
    }

    /** free: the block's units become free and nothing else changes; it merges with
        the free blocks it touches. */
    method Free(ap: nat) returns (ghost k: nat)
      requires Ok() && 0 < ap && ap - 1 < |tag| && tag[ap - 1] == UsedUnit(ap - 1)
      modifies this
      ensures Ok() && Untouched(old(Now()), Now())
      ensures ap - 1 < |old(size)| && tag == Retag(old(tag), ap - 1, ap - 1 + old(size)[ap - 1], FreeUnit)
      ensures 0 < k < |list| && list[k] < |size| && list[k] < ap
              && ap - 1 + old(size)[ap - 1] <= list[k] + size[list[k]]
      ensures at < |old(list)| && freep == old(list)[at] < ap - 1
              && (at + 1 < |old(list)| ==> ap - 1 < old(list)[at + 1])
    {
      hide Tagged, OrderedBut, Chained, Retag, Untouched;
      var bp := ap - 1;
      ghost var h := Now();
      var p;
      ghost var i;
      p, i := Locate(bp);
      SeamPositive(h, bp, i);
      ListedInRange(h, i);
      LinkNext(bp, p, i);
      ghost var h1 := Heap(ptr[p := bp], size, tag, list);
      k := LinkPrev(bp, p, i);
      freep, at := p, i;
      UntouchedTwice(h, h1, Now());
    }

    /** morecore: at least 4096 units from sbrk, freed onto the list.  sbrk fails if it
        is negative; otherwise the new memory starts that many units past the old.  For
        2^31 bytes or more sbrk is asked for some other amount, and the model stops. */
    method Morecore(nu: nat, sbrk: int) returns (r: More, ghost k: nat)
      requires Ok() && 0 < nu <= UINT_RANGE
      modifies this
      ensures Ok() && (r.Misasked? <==> nu >= 0x1000_0000) && (!r.Misasked? ==> (r.Got? <==> sbrk >= 0))
      ensures !r.Got? ==> Now() == old(Now()) && freep == old(freep)
      ensures r.Got? ==> Untouched(old(Now()), Now()) && 0 < k < |list| && list[k] < |size| && size[list[k]] >= nu
      ensures r.Got? ==> var n := if nu < 4096 then 4096 else nu;
                         tag == old(tag) + seq(sbrk, _ => Foreign) + seq(n, _ => FreeUnit)
    {
      hide Tagged, OrderedBut, Chained, Retag, Untouched, SbrkBytes;
      var n := if nu < 4096 then 4096 else nu;
      SbrkAsked(n);
      if SbrkBytes(n) != n * HEADER { return Misasked, 0; }
      if sbrk < 0 { return Failed, 0; }
      ghost var h := Now();
      Grow(h, sbrk, n);
      ValidSizes(h);
      GrowUntouched(h, sbrk, n);
      var hp := |size| + sbrk;
      ptr := ptr + seq(sbrk + n, _ => 0);
      size := size + seq(sbrk + n, j => if j == sbrk then n else 0);
      tag := tag + seq(sbrk, _ => Foreign) + seq(n, _ => UsedUnit(hp));
      ghost var h1 := Now();
      assert h1 == Grown(h, sbrk, n);
      k := Free(hp + 1);
      GrownTags(h.tag, sbrk, n, hp);
      UntouchedGrown(h, h1, Now());
      r := Got;
    }

    /** malloc's walk, once around the list from freep: the first block that is large
        enough, and the one before it. */
    method Scan(n: nat) returns (found: bool, prevp: nat, p: nat, ghost j: nat)
      requires Ok() && n > 0
      ensures found ==> 0 < j < |list| && p == list[j] && prevp == list[j - 1] && FirstFit(Now(), at, j, n)
      ensures !found ==> forall k {:trigger list[k]} :: 0 <= k < |list| ==> list[k] < |size| && size[list[k]] < n
    {
      hide Tagged, OrderedBut, Chained;
      ghost var f := at;
      Stepping(Now(), f);
      prevp, p := freep, ptr[freep];
      j := if f + 1 < |list| then f + 1 else 0;
      while true
        invariant 0 <= j < |list| && p == list[j] && p < |ptr| == |size|
        invariant 0 < j ==> prevp == list[j - 1]
        invariant forall k {:trigger list[k]} :: 0 <= k < |list| && Passed(f, j, k) ==>
                    list[k] < |size| && size[list[k]] < n
        decreases if j > f then |list| - j + f + 1 else f - j
      {
        Stepping(Now(), j);
        BaseSize(Now());
        if size[p] >= n { return true, prevp, p, j; }
        if p == freep {
          SamePlace(Now(), j, f);
          return false, prevp, p, j;
        }
        prevp, p := p, ptr[p];
        j := if j + 1 < |list| then j + 1 else 0;
      }
    }

    /** malloc: a block of the size asked for, cut from units that were free, with the
        header in front; or 0, if no block is large enough and sbrk fails.  The block is
        cut from the end of the first that is large enough after freep. */
    method Malloc(nbytes: uint32, sbrk: int) returns (ok: bool, r: nat, ghost grown: bool)
      requires Ok()
      modifies this
      ensures Ok()
      ensures !ok || r == 0 ==> Now() == old(Now())
      ensures !ok <==> TooSmall(old(Now()), Units(nbytes)) && 0x7FFF_FFF0 < nbytes <= 0xFFFF_FFF8
      ensures ok && r == 0 ==> sbrk < 0
      ensures ok && grown ==> sbrk >= 0
      ensures !ok || r == 0 || grown ==> TooSmall(old(Now()), Units(nbytes))
      ensures !ok || r == 0 || grown ==> NoRoom(old(Now()), nbytes)
      ensures ok && r != 0 ==> MallocDone(old(Now()), Now(), r - 1, Units(nbytes), if grown then sbrk else -1)
      ensures ok && r != 0 && nbytes <= 0xFFFF_FFF8 ==>
                r - 1 < |size| && nbytes <= 8 * (size[r - 1] - 1) < nbytes + 8
      ensures ok && r != 0 && nbytes > 0xFFFF_FFF8 ==> r - 1 < |size| && size[r - 1] == 1
      ensures ok && r != 0 && !grown ==>
                at + 1 < |old(list)| && freep == old(list)[at]
                && FirstFit(old(Now()), old(at), at + 1, Units(nbytes))
                && r - 1 == BlockEnd(old(Now()), at + 1) - Units(nbytes)
    {
      hide Tagged, OrderedBut, Chained, Untouched, MallocDone, Units, FirstFit;
      var n := Units(nbytes);
      UnitsHold(nbytes);
      ghost var h := Now();
      grown := false;
      ghost var j, k;
      var found, prevp, p;
      found, prevp, p, j := Scan(n);
      UntouchedNot(h);
      if !found {
        SmallNoRoom(h, nbytes);
        var more;
        more, k := Morecore(n, sbrk);
        if more.Misasked? { return false, 0, false; }
        if more.Failed? { return true, 0, false; }
        grown := true;
        found, prevp, p, j := Scan(n);
        assert found;
      }
      FirstFits(Now(), at, j, n);
      r := Carve(h, n, prevp, p, j, if grown then sbrk else -1);
      MallocSize(h, Now(), r - 1, n, if grown then sbrk else -1);
      ok := true;
    }

    /** malloc's end: the whole block, or its tail. */
    method Carve(ghost h: Heap, n: nat, prevp: nat, p0: nat, ghost j: nat, ghost sbrk: int) returns (r: nat)
      requires Valid(Now()) && Ready(h, Now(), sbrk, n) && n > 0
      requires 0 < j < |list| && p0 == list[j] && prevp == list[j - 1] && p0 < |size| && size[p0] >= n
      modifies this
      ensures Ok() && r > 0 && MallocDone(h, Now(), r - 1, n, sbrk)
      ensures at == j - 1 && freep == prevp && r - 1 == p0 + old(size)[p0] - n
    {
      hide Tagged, OrderedBut, Chained, Retag, Ready, MallocDone, Without;
      ghost var h1 := Now();
      var p := p0;
      TakenRange(h1, j);
      PreviousKept(h1, j);
      if size[p] == n {
        TakeWhole(h1, j);
        WholeDone(h, h1, j, sbrk, n);
        ptr := ptr[prevp := ptr[p]];
        tag := Retag(tag, p, p + size[p], UsedUnit(p));
        list := Without(list, j);
      } else {
        TakeTail(h1, j, n);
        TailDone(h, h1, j, sbrk, n);
        size := size[p := size[p] - n];
        p := p + size[p];
        size := size[p := n];
        tag := Retag(tag, p, p + n, UsedUnit(p));
      }
      freep, at := prevp, j - 1;
      r := p + 1;
    }
  }
}
