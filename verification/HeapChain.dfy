/** The kernel heap (lib/malloc.c) as a chain of blocks.

    A block is an 8-byte header followed by its payload.  The chain tiles the heap from
    `start` up to the zero-size sentinel header that occupies the last 8 bytes before `end`.
    The sentinel is not part of `blocks`.  HeapAllocator.dfy proves that the word-level code
    computes these functions. */
module HeapChain {
  import opened Bits

  const HEADER: nat := 8
  const MIN_SIZE: nat := 4
  const MAX_SIZE: nat := 0x7FFF_FFFF
  const COALESCE_THRESHOLD: nat := 8

  datatype Block = Block(addr: nat, size: nat, used: bool) {
    function End(): nat { addr + HEADER + size }
    predicate Wf() { MIN_SIZE <= size && size % 4 == 0 }
  }

  datatype Heap = Heap(start: nat, end: nat, blocks: seq<Block>, freeBlocks: int)

  // `panic` halts the system, so an operation either returns a pointer (0 is NULL) or panics.
  datatype Outcome = Return(ptr: nat) | Panic

  // ----- operations

  function Merge(b: Block, c: Block): Block {
    b.(size := b.size + HEADER + c.size)
  }

  function MergeAt(bs: seq<Block>, k: nat): seq<Block>
    requires k + 1 < |bs|
  {
    bs[..k] + ([Merge(bs[k], bs[k + 1])] + bs[k + 2..])
  }

  /** `selective_coalesce` */
  function Coalesce(bs: seq<Block>): (r: seq<Block>)
    ensures |r| <= |bs|
    decreases |bs|
  {
    if |bs| <= 1 then bs
    else if !bs[0].used && !bs[1].used then Coalesce(MergeAt(bs, 0))
    else [bs[0]] + Coalesce(bs[1..])
  }

  function RequestSize(n: nat): nat
    requires n < TWO32
  {
    if Align4(n) < MIN_SIZE then MIN_SIZE else Align4(n)
  }

  predicate Fits(b: Block, size: nat) {
    !b.used && b.size >= size
  }

  /** Index of the lowest-address free block that fits, or `|bs|`. */
  function FirstFit(bs: seq<Block>, size: nat): (i: nat)
    ensures i <= |bs|
    ensures i < |bs| ==> Fits(bs[i], size)
    ensures forall j :: 0 <= j < i ==> !Fits(bs[j], size)
  {
    if bs == [] then 0 else if Fits(bs[0], size) then 0 else 1 + FirstFit(bs[1..], size)
  }

  predicate Splits(b: Block, size: nat)
    requires size <= b.size
  {
    b.size - size >= HEADER + MIN_SIZE
  }

  /** The allocated block and, when `split_block` splits, the free remainder behind it. */
  function Carve(b: Block, size: nat): seq<Block>
    requires size <= b.size
  {
    if Splits(b, size)
    then [Block(b.addr, size, true),
          Block(b.addr + HEADER + size, b.size - size - HEADER, false)]
    else [b.(used := true)]
  }

  function AllocateAt(h: Heap, i: nat, size: nat): (r: Heap)
    requires i < |h.blocks| && Fits(h.blocks[i], size)
  {
    var b := h.blocks[i];
    h.(blocks := h.blocks[..i] + (Carve(b, size) + h.blocks[i + 1..]),
       freeBlocks := h.freeBlocks + |Carve(b, size)| - 2)
  }

  function Coalesced(h: Heap): Heap {
    if h.freeBlocks <= COALESCE_THRESHOLD then h
    else var bs := Coalesce(h.blocks);
      h.(blocks := bs, freeBlocks := h.freeBlocks + |bs| - |h.blocks|)
  }

  /** The search and the split of `malloc` for a rounded size.  Exhaustion walks onto the
      sentinel, whose zero size fails validation. */
  function AllocateFirst(h: Heap, size: nat): (Heap, Outcome) {
    var i := FirstFit(h.blocks, size);
    if i == |h.blocks| then (h, Panic)
    else
      var h' := AllocateAt(h, i, size);
      (h', if h'.freeBlocks < 0 then Panic else Return(h.blocks[i].addr + HEADER))
  }

  /** `malloc` */
  function Malloc(h: Heap, n: nat): (Heap, Outcome)
    requires n < TWO32
  {
    if n == 0 || n > MAX_SIZE then (h, Return(0)) else AllocateFirst(Coalesced(h), RequestSize(n))
  }

  function IndexOf(bs: seq<Block>, addr: int): (i: nat)
    ensures i <= |bs|
    ensures i < |bs| ==> bs[i].addr == addr
    ensures forall j :: 0 <= j < i ==> bs[j].addr != addr
  {
    if bs == [] then 0 else if bs[0].addr == addr then 0 else 1 + IndexOf(bs[1..], addr)
  }

  /** The chain after block `i` is marked free and merged forward, then backward. */
  function MarkFree(bs: seq<Block>, i: nat): seq<Block>
    requires i < |bs|
  {
    bs[i := bs[i].(used := false)]
  }

  function MergeForward(bs: seq<Block>, i: nat): (r: seq<Block>)
    requires i < |bs|
    ensures i < |r| <= |bs|
  {
    if i + 1 < |bs| && !bs[i + 1].used then MergeAt(bs, i) else bs
  }

  function MergeBackward(bs: seq<Block>, i: nat): (r: seq<Block>)
    requires i < |bs|
    ensures |r| <= |bs|
  {
    if i > 0 && !bs[i - 1].used then MergeAt(bs, i - 1) else bs
  }

  function Released(bs: seq<Block>, i: nat): (r: seq<Block>)
    requires i < |bs|
    ensures |r| <= |bs|
  {
    MergeBackward(MergeForward(MarkFree(bs, i), i), i)
  }

  /** `free` */
  function Free(h: Heap, ptr: nat): (Heap, Outcome) {
    if ptr == 0 then (h, Return(0))
    else
      var i := IndexOf(h.blocks, ptr - HEADER);
      if i == |h.blocks| || !h.blocks[i].used then (h, Panic)
      else
        var bs := Released(h.blocks, i);
        (h.(blocks := bs, freeBlocks := h.freeBlocks + 1 + |bs| - |h.blocks|), Return(0))
  }

  // ----- the heap invariant

  /** The blocks lie end to end from `a` to `limit`. */
  ghost predicate Tiles(bs: seq<Block>, a: nat, limit: nat) {
    if bs == [] then a == limit
    else bs[0].addr == a && bs[0].Wf() && Tiles(bs[1..], bs[0].End(), limit)
  }

  ghost predicate NoAdjacentFree(bs: seq<Block>) {
    forall i :: 0 <= i < |bs| - 1 ==> bs[i].used || bs[i + 1].used
  }

  ghost function FreeCount(bs: seq<Block>): nat {
    if bs == [] then 0 else (if bs[0].used then 0 else 1) + FreeCount(bs[1..])
  }

  /** The blocks the program holds. */
  ghost function Live(bs: seq<Block>): set<Block> {
    set b | b in bs && b.used
  }

  ghost predicate ValidZone(start: nat, end: nat) {
    && start % 4 == 0 && end % 4 == 0 && 0 < start && end < TWO32
    && start + 2 * HEADER + MIN_SIZE <= end <= start + 2 * HEADER + MAX_SIZE
  }

  ghost predicate Inv(h: Heap) {
    && ValidZone(h.start, h.end)
    && Tiles(h.blocks, h.start, h.end - HEADER)
    && NoAdjacentFree(h.blocks)
    && h.freeBlocks == FreeCount(h.blocks)
  }

  // ----- tiling

  lemma {:induction false} TilesConcat(x: seq<Block>, y: seq<Block>, a: nat, m: nat, limit: nat)
    requires Tiles(x, a, m) && Tiles(y, m, limit)
    ensures Tiles(x + y, a, limit)
  {
    if x == [] {
      assert x + y == y;
    } else {
      TilesConcat(x[1..], y, x[0].End(), m, limit);
      assert (x + y)[1..] == x[1..] + y;
    }
  }

  lemma {:induction false} TilesSplit(x: seq<Block>, y: seq<Block>, a: nat, limit: nat) returns (m: nat)
    requires Tiles(x + y, a, limit)
    ensures Tiles(x, a, m) && Tiles(y, m, limit)
    ensures a <= m <= limit
    ensures y != [] ==> m == y[0].addr
  {
    if x == [] {
      assert x + y == y;
      m := a;
      TilesBound(y, a, limit);
    } else {
      assert (x + y)[1..] == x[1..] + y;
      m := TilesSplit(x[1..], y, x[0].End(), limit);
    }
  }

  lemma {:induction false} TilesBound(bs: seq<Block>, a: nat, limit: nat)
    requires Tiles(bs, a, limit)
    ensures a <= limit
  {
    if bs != [] { TilesBound(bs[1..], bs[0].End(), limit); }
  }

  /** Every block of a tiling lies inside it. */
  lemma {:induction false} TilesInside(bs: seq<Block>, a: nat, limit: nat, i: nat)
    requires Tiles(bs, a, limit) && i < |bs|
    ensures bs[i].Wf() && a <= bs[i].addr && bs[i].End() <= limit
    ensures i > 0 ==> a < bs[i].addr
    ensures a % 4 == 0 ==> bs[i].addr % 4 == 0
    ensures if i + 1 < |bs| then bs[i + 1].addr == bs[i].End() else bs[i].End() == limit
  {
    if i == 0 {
      TilesBound(bs[1..], bs[0].End(), limit);
    } else {
      TilesInside(bs[1..], bs[0].End(), limit, i - 1);
    }
  }

  /** Blocks are address-ordered and do not overlap. */
  lemma {:induction false} TilesOrdered(bs: seq<Block>, a: nat, limit: nat, i: nat, j: nat)
    requires Tiles(bs, a, limit) && i < j < |bs|
    ensures bs[i].End() <= bs[j].addr
  {
    if i == 0 {
      TilesInside(bs[1..], bs[0].End(), limit, j - 1);
    } else {
      TilesOrdered(bs[1..], bs[0].End(), limit, i - 1, j - 1);
    }
  }

  /** Replacing a run of blocks by another tiling of the same interval keeps the tiling. */
  lemma TilesReplace(x: seq<Block>, o: seq<Block>, n: seq<Block>, y: seq<Block>, a: nat, limit: nat)
    requires Tiles(x + (o + y), a, limit) && o != []
    requires Tiles(n, o[0].addr, o[|o| - 1].End())
    ensures Tiles(x + (n + y), a, limit)
  {
    var m := TilesSplit(x, o + y, a, limit);
    var m' := TilesSplit(o, y, m, limit);
    TilesInside(o, m, m', |o| - 1);
    TilesConcat(n, y, m, m', limit);
    TilesConcat(x, n + y, a, m, limit);
  }

  /** Headers and payloads add up to the tiled interval. */
  ghost function TotalSize(bs: seq<Block>): nat {
    if bs == [] then 0 else HEADER + bs[0].size + TotalSize(bs[1..])
  }

  lemma {:induction false} TilesTotal(bs: seq<Block>, a: nat, limit: nat)
    requires Tiles(bs, a, limit)
    ensures a + TotalSize(bs) == limit
  {
    if bs != [] { TilesTotal(bs[1..], bs[0].End(), limit); }
  }

  // ----- counting free blocks

  lemma {:induction false} FreeCountConcat(x: seq<Block>, y: seq<Block>)
    ensures FreeCount(x + y) == FreeCount(x) + FreeCount(y)
  {
    if x == [] {
      assert x + y == y;
    } else {
      FreeCountConcat(x[1..], y);
      assert (x + y)[1..] == x[1..] + y;
    }
  }

  lemma FreeCountReplace(x: seq<Block>, m: seq<Block>, y: seq<Block>)
    ensures FreeCount(x + (m + y)) == FreeCount(x) + FreeCount(m) + FreeCount(y)
  {
    FreeCountConcat(m, y);
    FreeCountConcat(x, m + y);
  }
}
