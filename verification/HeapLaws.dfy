/** What every run of `malloc` and `free` keeps, and what one undoes of the other. */
module HeapLaws {
  import opened Bits
  import opened HeapChain

  // ----- merging two neighbours

  lemma CutPair(bs: seq<Block>, k: nat)
    requires k + 1 < |bs|
    ensures bs == bs[..k] + (bs[k..k + 2] + bs[k + 2..])
    ensures bs[k..k + 2] == [bs[k], bs[k + 1]]
  {
  }

  lemma MergeTiles(bs: seq<Block>, k: nat, a: nat, limit: nat)
    requires k + 1 < |bs| && Tiles(bs, a, limit)
    ensures Tiles(MergeAt(bs, k), a, limit)
  {
    CutPair(bs, k);
    TilesInside(bs, a, limit, k);
    TilesInside(bs, a, limit, k + 1);
    var m := Merge(bs[k], bs[k + 1]);
    assert Tiles([m], bs[k].addr, m.End());
    hide Tiles;
    TilesReplace(bs[..k], bs[k..k + 2], [m], bs[k + 2..], a, limit);
  }

  lemma MergeFreeCount(bs: seq<Block>, k: nat)
    requires k + 1 < |bs| && !bs[k].used && !bs[k + 1].used
    ensures FreeCount(MergeAt(bs, k)) == FreeCount(bs) - 1
  {
    CutPair(bs, k);
    FreeCountReplace(bs[..k], bs[k..k + 2], bs[k + 2..]);
    FreeCountReplace(bs[..k], [Merge(bs[k], bs[k + 1])], bs[k + 2..]);
    assert FreeCount([bs[k], bs[k + 1]]) == 2;
  }

  lemma LiveConcat(x: seq<Block>, y: seq<Block>)
    ensures Live(x + y) == Live(x) + Live(y)
  {
  }

  lemma MergeLive(bs: seq<Block>, k: nat)
    requires k + 1 < |bs| && !bs[k].used && !bs[k + 1].used
    ensures Live(MergeAt(bs, k)) == Live(bs)
  {
  }

  // ----- selective_coalesce

  /** Coalescing yields the canonical chain: same tiling, same live blocks, no free neighbours,
      and the counter drops by one for every merge. */
  lemma {:induction false} CoalesceCorrect(bs: seq<Block>, a: nat, limit: nat)
    requires Tiles(bs, a, limit)
    ensures var r := Coalesce(bs);
      && Tiles(r, a, limit) && Live(r) == Live(bs) && NoAdjacentFree(r)
      && FreeCount(r) == FreeCount(bs) + |r| - |bs|
      && (bs != [] ==> r != [] && r[0].used == bs[0].used)
    decreases |bs|
  {
    if |bs| <= 1 {
    } else if !bs[0].used && !bs[1].used {
      MergeTiles(bs, 0, a, limit);
      MergeFreeCount(bs, 0);
      MergeLive(bs, 0);
      CoalesceCorrect(MergeAt(bs, 0), a, limit);
    } else {
      CoalesceCorrect(bs[1..], bs[0].End(), limit);
      LiveConcat([bs[0]], bs[1..]);
      LiveConcat([bs[0]], Coalesce(bs[1..]));
      assert bs == [bs[0]] + bs[1..];
    }
  }

  /** On a chain without free neighbours `selective_coalesce` changes nothing. */
  lemma {:induction false} CoalesceIdentity(bs: seq<Block>)
    requires NoAdjacentFree(bs)
    ensures Coalesce(bs) == bs
  {
    if |bs| > 1 {
      assert bs[0].used || bs[0 + 1].used;
      assert NoAdjacentFree(bs[1..]) by {
        forall i | 0 <= i < |bs[1..]| - 1 ensures bs[1..][i].used || bs[1..][i + 1].used {
          assert bs[i + 1].used || bs[i + 1 + 1].used;
        }
      }
      CoalesceIdentity(bs[1..]);
    }
  }

  // ----- malloc

  lemma CutOne(bs: seq<Block>, i: nat)
    requires i < |bs|
    ensures bs == bs[..i] + ([bs[i]] + bs[i + 1..])
  {
  }

  lemma CarveTiles(b: Block, size: nat)
    requires b.Wf() && size <= b.size && MIN_SIZE <= size && size % 4 == 0
    ensures Tiles(Carve(b, size), b.addr, b.End())
  {
  }

  lemma CarveFreeCount(b: Block, size: nat)
    requires size <= b.size
    ensures FreeCount(Carve(b, size)) == |Carve(b, size)| - 1
  {
    var c := Carve(b, size);
    if Splits(b, size) { assert c == [c[0]] + [c[1]]; FreeCountConcat([c[0]], [c[1]]); }
  }

  lemma AllocateKeepsInv(h: Heap, i: nat, size: nat)
    requires Inv(h) && i < |h.blocks| && Fits(h.blocks[i], size) && MIN_SIZE <= size && size % 4 == 0
    ensures Inv(AllocateAt(h, i, size))
    ensures AllocateAt(h, i, size).freeBlocks >= 0
  {
    var bs, b := h.blocks, h.blocks[i];
    var c := Carve(b, size);
    CutOne(bs, i);
    TilesInside(bs, h.start, h.end - HEADER, i);
    CarveTiles(b, size);
    TilesReplace(bs[..i], [b], c, bs[i + 1..], h.start, h.end - HEADER);
    FreeCountReplace(bs[..i], [b], bs[i + 1..]);
    FreeCountReplace(bs[..i], c, bs[i + 1..]);
    CarveFreeCount(b, size);
    AllocateNoAdjacent(bs, i, size);
  }

  lemma AllocateNoAdjacent(bs: seq<Block>, i: nat, size: nat)
    requires i < |bs| && Fits(bs[i], size) && NoAdjacentFree(bs)
    ensures NoAdjacentFree(bs[..i] + (Carve(bs[i], size) + bs[i + 1..]))
  {
  }

  /** The block `malloc` hands out. */
  ghost function Granted(b: Block, size: nat): Block
    requires size <= b.size
  {
    Carve(b, size)[0]
  }

  lemma AllocateLive(h: Heap, i: nat, size: nat)
    requires i < |h.blocks| && Fits(h.blocks[i], size)
    ensures Live(AllocateAt(h, i, size).blocks) == Live(h.blocks) + {Granted(h.blocks[i], size)}
  {
  }

  // ----- free

  lemma MarkFreeFacts(bs: seq<Block>, i: nat, a: nat, limit: nat)
    requires i < |bs| && bs[i].used && Tiles(bs, a, limit)
    ensures Tiles(MarkFree(bs, i), a, limit)
    ensures FreeCount(MarkFree(bs, i)) == FreeCount(bs) + 1
    ensures Live(MarkFree(bs, i)) == Live(bs) - {bs[i]}
  {
    var f := bs[i].(used := false);
    CutOne(bs, i);
    assert MarkFree(bs, i) == bs[..i] + ([f] + bs[i + 1..]);
    TilesInside(bs, a, limit, i);
    assert Tiles([f], f.addr, f.End());
    TilesReplace(bs[..i], [bs[i]], [f], bs[i + 1..], a, limit);
    FreeCountReplace(bs[..i], [bs[i]], bs[i + 1..]);
    FreeCountReplace(bs[..i], [f], bs[i + 1..]);
    MarkFreeLive(bs, i, a, limit);
  }

  lemma MarkFreeLive(bs: seq<Block>, i: nat, a: nat, limit: nat)
    requires i < |bs| && Tiles(bs, a, limit)
    ensures Live(MarkFree(bs, i)) == Live(bs) - {bs[i]}
  {
    var r := MarkFree(bs, i);
    forall j | 0 <= j < |bs| && j != i ensures bs[j] != bs[i] {
      if j < i { TilesOrdered(bs, a, limit, j, i); } else { TilesOrdered(bs, a, limit, i, j); }
    }
    forall b | b in Live(bs) - {bs[i]} ensures b in Live(r) {
      var j :| 0 <= j < |bs| && bs[j] == b;
      assert r[j] == b;
    }
  }

  lemma ReleasedFacts(bs: seq<Block>, i: nat, a: nat, limit: nat)
    requires i < |bs| && bs[i].used && Tiles(bs, a, limit)
    ensures var r := Released(bs, i);
      && Tiles(r, a, limit) && Live(r) == Live(bs) - {bs[i]}
      && FreeCount(r) == FreeCount(bs) + 1 + |r| - |bs|
  {
    var m := MarkFree(bs, i);
    MarkFreeFacts(bs, i, a, limit);
    var f := MergeForward(m, i);
    if f != m {
      MergeTiles(m, i, a, limit);
      MergeFreeCount(m, i);
      MergeLive(m, i);
    }
    if i > 0 && !f[i - 1].used {
      MergeTiles(f, i - 1, a, limit);
      MergeFreeCount(f, i - 1);
      MergeLive(f, i - 1);
    }
  }

  lemma ReleasedNoAdjacent(bs: seq<Block>, i: nat)
    requires i < |bs| && bs[i].used && NoAdjacentFree(bs)
    ensures NoAdjacentFree(Released(bs, i))
  {
    var f := MergeForward(MarkFree(bs, i), i);
    var d := |bs| - |f|;
    forall j | 0 <= j < |f| - 1 && j != i - 1 ensures f[j].used || f[j + 1].used {
      if j < i {
        assert bs[j].used || bs[j + 1].used;
      } else if j > i {
        assert bs[j + d].used || bs[j + d + 1].used;
      } else if d == 1 {
        assert bs[i + 1].used || bs[i + 1 + 1].used;
      }
    }
    MergeBackwardNoAdjacent(f, i);
  }

  lemma MergeBackwardNoAdjacent(f: seq<Block>, i: nat)
    requires i < |f| && !f[i].used
    requires forall j :: 0 <= j < |f| - 1 && j != i - 1 ==> f[j].used || f[j + 1].used
    ensures NoAdjacentFree(MergeBackward(f, i))
  {
  }

  // ----- the chain is determined by its live blocks

  /** The first block of a tiling is the only one at its address; all others lie behind it. */
  lemma FirstOnly(bs: seq<Block>, a: nat, limit: nat, b: Block)
    requires Tiles(bs, a, limit) && b in bs
    ensures b == bs[0] || b.addr >= bs[0].End()
  {
  }

  lemma FreeHeadsAgree(x: seq<Block>, y: seq<Block>, a: nat, limit: nat)
    requires Tiles(x, a, limit) && Tiles(y, a, limit) && x != [] && y != []
    requires NoAdjacentFree(x) && Live(x) == Live(y) && !x[0].used && !y[0].used
    ensures x[0].size >= y[0].size
  {
    if x[0].size < y[0].size {
      TilesInside(x, a, limit, 0);
      TilesInside(y, a, limit, 0);
      assert x[0].used || x[0 + 1].used;
      assert x[1] in Live(x);
      FirstOnly(y, a, limit, x[1]);
    }
  }

  lemma HeadsAgree(x: seq<Block>, y: seq<Block>, a: nat, limit: nat)
    requires Tiles(x, a, limit) && Tiles(y, a, limit) && x != [] && y != []
    requires NoAdjacentFree(x) && NoAdjacentFree(y) && Live(x) == Live(y)
    ensures x[0] == y[0]
  {
    if x[0].used {
      assert x[0] in Live(y);
      FirstOnly(y, a, limit, x[0]);
    } else if y[0].used {
      assert y[0] in Live(x);
      FirstOnly(x, a, limit, y[0]);
    } else {
      FreeHeadsAgree(x, y, a, limit);
      FreeHeadsAgree(y, x, a, limit);
    }
  }

  lemma LiveTail(x: seq<Block>, a: nat, limit: nat)
    requires Tiles(x, a, limit) && x != []
    ensures Live(x[1..]) == Live(x) - {x[0]}
  {
    assert x == [x[0]] + x[1..];
    LiveConcat([x[0]], x[1..]);
    if x[0] in x[1..] {
      var j :| 0 <= j < |x[1..]| && x[1..][j] == x[0];
      TilesOrdered(x, a, limit, 0, j + 1);
    }
  }

  lemma TailNoAdjacent(x: seq<Block>)
    requires NoAdjacentFree(x) && x != []
    ensures NoAdjacentFree(x[1..])
  {
  }

  lemma {:induction false} ChainDetermined(x: seq<Block>, y: seq<Block>, a: nat, limit: nat)
    requires Tiles(x, a, limit) && Tiles(y, a, limit)
    requires NoAdjacentFree(x) && NoAdjacentFree(y) && Live(x) == Live(y)
    ensures x == y
  {
    if x == [] {
      if y != [] { TilesInside(y, a, limit, 0); }
    } else if y == [] {
      TilesInside(x, a, limit, 0);
    } else {
      HeadsAgree(x, y, a, limit);
      LiveTail(x, a, limit);
      LiveTail(y, a, limit);
      TailNoAdjacent(x);
      TailNoAdjacent(y);
      ChainDetermined(x[1..], y[1..], x[0].End(), limit);
    }
  }

  /** Two heaps over the same zone that hold the same live blocks are the same heap, free blocks
      and counter included: the chain keeps no trace of the order of past operations. */
  lemma HeapIsItsLiveSet(g: Heap, h: Heap)
    requires Inv(g) && Inv(h) && g.start == h.start && g.end == h.end
    requires Live(g.blocks) == Live(h.blocks)
    ensures g == h
  {
    ChainDetermined(g.blocks, h.blocks, g.start, g.end - HEADER);
  }

  // ----- what malloc and free guarantee

  /** With more than 8 free blocks, `malloc` first brings any tiled chain into its canonical form. */
  lemma CoalescedCanonical(h: Heap)
    requires h.end >= HEADER && Tiles(h.blocks, h.start, h.end - HEADER) && h.freeBlocks == FreeCount(h.blocks)
    ensures var h' := Coalesced(h);
      && Tiles(h'.blocks, h.start, h.end - HEADER) && Live(h'.blocks) == Live(h.blocks)
      && h'.freeBlocks == FreeCount(h'.blocks) && (h.freeBlocks > 8 ==> NoAdjacentFree(h'.blocks))
      && (h.freeBlocks <= 8 ==> h' == h)
  {
    CoalesceCorrect(h.blocks, h.start, h.end - HEADER);
  }

  lemma CoalescedIdentity(h: Heap)
    requires Inv(h)
    ensures Coalesced(h) == h
  {
    CoalesceIdentity(h.blocks);
  }

  /** Block sizes are multiples of 4, so a block holds the rounded request exactly if it holds the request. */
  lemma RoundedFits(h: Heap, n: nat, b: Block)
    requires Inv(h) && 0 < n <= MAX_SIZE && b in h.blocks
    ensures Fits(b, RequestSize(n)) <==> !b.used && b.size >= n
    ensures n <= RequestSize(n) < n + 4 && RequestSize(n) % 4 == 0 && b.size % 4 == 0
  {
    var i :| 0 <= i < |h.blocks| && h.blocks[i] == b;
    TilesInside(h.blocks, h.start, h.end - HEADER, i);
  }

  /** `malloc` keeps the heap well-formed.  It returns NULL exactly for a size of 0 or above the
      maximum, and panics exactly when no free block is large enough. */
  lemma MallocOutcome(h: Heap, n: nat)
    requires Inv(h) && n < TWO32
    ensures var (h', r) := Malloc(h, n);
      && Inv(h') && h'.start == h.start && h'.end == h.end
      && (r == Return(0) <==> n == 0 || n > 0x7FFF_FFFF)
      && (r == Panic <==> 0 < n <= 0x7FFF_FFFF && forall b :: b in h.blocks && !b.used ==> b.size < n)
      && (r == Panic || r == Return(0) ==> h' == h)
  {
    CoalescedIdentity(h);
    if 0 < n <= MAX_SIZE {
      var i := FirstFit(h.blocks, RequestSize(n));
      if i < |h.blocks| {
        AllocateKeepsInv(h, i, RequestSize(n));
        RoundedFits(h, n, h.blocks[i]);
      } else {
        forall b | b in h.blocks && !b.used ensures b.size < n { RoundedFits(h, n, b); }
      }
    }
  }

  /** A successful `malloc` takes the lowest-address free block that is large enough and adds one live block
      to the live set.  The block is the request rounded up to a multiple of 4, or the whole free block when
      less than a header and a minimal payload would be left of it. */
  lemma MallocFirstFit(h: Heap, n: nat) returns (b: Block, g: Block)
    requires Inv(h) && n < TWO32 && Malloc(h, n).1.Return? && Malloc(h, n).1.ptr != 0
    ensures b in h.blocks && !b.used && b.size >= n
    ensures forall c :: c in h.blocks && !c.used && c.size >= n ==> b.addr <= c.addr
    ensures g.used && g.addr == b.addr && n <= g.size < n + 12 && (g.size < n + 4 || g.size == b.size)
    ensures Malloc(h, n).1.ptr == g.addr + HEADER
    ensures Live(Malloc(h, n).0.blocks) == Live(h.blocks) + {g}
    ensures g !in Live(h.blocks)
  {
    CoalescedIdentity(h);
    var size := RequestSize(n);
    var i := FirstFit(h.blocks, size);
    b := h.blocks[i];
    g := Granted(b, size);
    hide Inv, Live, Granted, RequestSize, Coalesced;
    AllocateLive(h, i, size);
    RoundedFits(h, n, b);
    GrantedSize(b, size, n);
    LowestThatHolds(h, n);
    if g in h.blocks { SameAddress(h, b, g); }
  }

  lemma GrantedSize(b: Block, size: nat, n: nat)
    requires b.size % 4 == 0 && size % 4 == 0 && n <= size < n + 4 && size <= b.size
    ensures var g := Granted(b, size);
      g.used && g.addr == b.addr && n <= g.size < n + 12 && (g.size < n + 4 || g.size == b.size)
  {
  }

  lemma LowestThatHolds(h: Heap, n: nat)
    requires Inv(h) && 0 < n <= MAX_SIZE
    ensures var i := FirstFit(h.blocks, RequestSize(n));
      i < |h.blocks| ==> forall c :: c in h.blocks && !c.used && c.size >= n ==> h.blocks[i].addr <= c.addr
  {
    FirstFitLowest(h, RequestSize(n));
    forall c | c in h.blocks && !c.used && c.size >= n ensures Fits(c, RequestSize(n)) { RoundedFits(h, n, c); }
  }

  lemma FirstFitLowest(h: Heap, size: nat)
    requires Inv(h)
    ensures var i := FirstFit(h.blocks, size);
      i < |h.blocks| ==> forall c :: c in h.blocks && Fits(c, size) ==> h.blocks[i].addr <= c.addr
  {
    var i := FirstFit(h.blocks, size);
    if i < |h.blocks| {
      forall c | c in h.blocks && Fits(c, size) ensures h.blocks[i].addr <= c.addr {
        var j :| 0 <= j < |h.blocks| && h.blocks[j] == c;
        if i < j { TilesOrdered(h.blocks, h.start, h.end - HEADER, i, j); }
      }
    }
  }

  /** No two blocks share an address. */
  lemma SameAddress(h: Heap, b: Block, c: Block)
    requires Inv(h) && b in h.blocks && c in h.blocks && b.addr == c.addr
    ensures b == c
  {
    var i :| 0 <= i < |h.blocks| && h.blocks[i] == b;
    var j :| 0 <= j < |h.blocks| && h.blocks[j] == c;
    if i < j {
      TilesOrdered(h.blocks, h.start, h.end - HEADER, i, j);
    } else if j < i {
      TilesOrdered(h.blocks, h.start, h.end - HEADER, j, i);
    }
  }

  ghost predicate IsLive(h: Heap, ptr: nat) {
    exists b :: b in h.blocks && b.used && b.addr + HEADER == ptr
  }

  /** `ptr` is NULL, or the header in front of it would be that of a block or the sentinel, or would lie
      outside the heap or off its words.  What `free` does with other pointers depends on the payload words
      they point into. */
  ghost predicate Addressed(h: Heap, ptr: nat) {
    var p := ptr - HEADER;
    ptr != 0 && h.start <= p < h.end && p % 4 == 0 ==> p == h.end - HEADER || exists b :: b in h.blocks && b.addr == p
  }

  /** Of the pointers that do not lead into a payload, `free` accepts exactly NULL and the live ones.  Freeing
      a live pointer removes its block from the live set and keeps the heap well-formed. */
  lemma FreeOutcome(h: Heap, ptr: nat)
    requires Inv(h) && Addressed(h, ptr)
    ensures var (h', r) := Free(h, ptr);
      && Inv(h') && h'.start == h.start && h'.end == h.end
      && (r == Panic <==> ptr != 0 && !IsLive(h, ptr))
      && (IsLive(h, ptr) ==>
            Live(h'.blocks) == Live(h.blocks) - set b | b in h.blocks && b.addr + HEADER == ptr)
      && (!IsLive(h, ptr) ==> h' == h)
  {
    if ptr != 0 {
      var i := IndexOf(h.blocks, ptr - HEADER);
      if i < |h.blocks| && h.blocks[i].used {
        ReleasedFacts(h.blocks, i, h.start, h.end - HEADER);
        ReleasedNoAdjacent(h.blocks, i);
        OnlyBlockAt(h, i);
      } else if b :| b in h.blocks && b.used && b.addr + HEADER == ptr {
        if i < |h.blocks| { SameAddress(h, b, h.blocks[i]); }
      }
    }
  }

  lemma OnlyBlockAt(h: Heap, i: nat)
    requires Inv(h) && i < |h.blocks|
    ensures (set b | b in h.blocks && b.addr == h.blocks[i].addr) == {h.blocks[i]}
  {
    forall b | b in h.blocks && b.addr == h.blocks[i].addr ensures b == h.blocks[i] {
      SameAddress(h, b, h.blocks[i]);
    }
  }

  lemma FreeLive(h: Heap, b: Block) returns (h': Heap)
    requires Inv(h) && b in Live(h.blocks)
    ensures Free(h, b.addr + HEADER) == (h', Return(0))
    ensures Inv(h') && h'.start == h.start && h'.end == h.end
    ensures Live(h'.blocks) == Live(h.blocks) - {b}
  {
    var i :| 0 <= i < |h.blocks| && h.blocks[i] == b;
    OnlyBlockAt(h, i);
    assert b.addr + HEADER - HEADER == b.addr;
    FreeOutcome(h, b.addr + HEADER);
    h' := Free(h, b.addr + HEADER).0;
  }

  /** `free` undoes `malloc`: chain and counter are exactly as before, split or not. */
  lemma FreeUndoesMalloc(h: Heap, n: nat)
    requires Inv(h) && n < TWO32 && Malloc(h, n).1.Return? && Malloc(h, n).1.ptr != 0
    ensures Free(Malloc(h, n).0, Malloc(h, n).1.ptr) == (h, Return(0))
  {
    MallocOutcome(h, n);
    var b, g := MallocFirstFit(h, n);
    var h' := Malloc(h, n).0;
    var h'' := FreeLive(h', g);
    HeapIsItsLiveSet(h'', h);
  }

  // ----- whole runs

  datatype Op = Alloc(n: nat) | Release(ptr: nat)

  function Apply(h: Heap, op: Op): (Heap, Outcome)
    requires op.Alloc? ==> op.n < TWO32
  {
    match op
    case Alloc(n) => Malloc(h, n)
    case Release(ptr) => Free(h, ptr)
  }

  /** The calls a correct program may make in state `h`: any 32-bit size, NULL or a live pointer. */
  ghost predicate Allowed(h: Heap, op: Op) {
    match op
    case Alloc(n) => n < TWO32
    case Release(ptr) => ptr == 0 || IsLive(h, ptr)
  }

  /** A run that stops at the first panic, with the heap it ends in. */
  ghost predicate IsRun(h: Heap, ops: seq<Op>, h': Heap, panicked: bool)
    decreases |ops|
  {
    if ops == [] then h' == h && !panicked
    else Allowed(h, ops[0]) &&
         var (h1, r) := Apply(h, ops[0]);
         if r == Panic then |ops| == 1 && h' == h1 && panicked else IsRun(h1, ops[1..], h', panicked)
  }

  function InitialHeap(start: nat, end: nat): Heap
    requires start + 2 * HEADER <= end
  {
    Heap(start, end, [Block(start, end - start - 2 * HEADER, false)], 1)
  }

  lemma InitialInv(start: nat, end: nat)
    requires ValidZone(start, end)
    ensures Inv(InitialHeap(start, end))
  {
  }

  ghost predicate Exhausted(h: Heap, n: nat)
    requires n < TWO32
  {
    0 < n <= MAX_SIZE && forall b :: b in h.blocks && !b.used ==> b.size < n
  }

  lemma StepIsSafe(h: Heap, op: Op) returns (h': Heap)
    requires Inv(h) && Allowed(h, op)
    ensures h' == Apply(h, op).0 && Inv(h') && h'.start == h.start && h'.end == h.end
    ensures Apply(h, op).1 == Panic ==> op.Alloc? && Exhausted(h', op.n)
  {
    match op {
      case Alloc(n) => MallocOutcome(h, n);
      case Release(ptr) => FreeOutcome(h, ptr);
    }
    h' := Apply(h, op).0;
  }

  /** Every run keeps the heap well-formed. */
  lemma {:induction false} RunsKeepInv(h: Heap, ops: seq<Op>, h': Heap, panicked: bool)
    requires Inv(h) && IsRun(h, ops, h', panicked)
    ensures Inv(h') && h'.start == h.start && h'.end == h.end
    decreases |ops|
  {
    if ops != [] {
      var h1 := StepIsSafe(h, ops[0]);
      if h1 != h' || |ops| > 1 { RunsKeepInv(h1, ops[1..], h', panicked); }
    }
  }

  /** A run panics only in a `malloc` for which every free block is too small: no corruption
      check ever fires. */
  lemma {:induction false} RunsPanicOnlyWhenExhausted(h: Heap, ops: seq<Op>, h': Heap)
    requires Inv(h) && IsRun(h, ops, h', true)
    ensures ops != [] && var last := ops[|ops| - 1];
      last.Alloc? && last.n < TWO32 && Exhausted(h', last.n)
    decreases |ops|
  {
    var h1 := StepIsSafe(h, ops[0]);
    if Apply(h, ops[0]).1 != Panic { RunsPanicOnlyWhenExhausted(h1, ops[1..], h'); }
  }

  /** A request for the whole of a fresh zone takes its only block, unsplit. */
  lemma WholeZone(start: nat, end: nat)
    requires ValidZone(start, end)
    ensures var n := end - start - 2 * HEADER;
      Malloc(InitialHeap(start, end), n) == (Heap(start, end, [Block(start, n, true)], 0), Return(start + HEADER))
  {
    var h, n := InitialHeap(start, end), end - start - 2 * HEADER;
    assert RequestSize(n) == n && Coalesced(h) == h && FirstFit(h.blocks, n) == 0;
    assert Carve(h.blocks[0], n) == [Block(start, n, true)];
    assert AllocateAt(h, 0, n).blocks == [Block(start, n, true)];
  }

  /** Such a run: the second request finds a 32-byte zone taken, and panics where NULL would be expected. */
  lemma ExhaustionPanics()
    ensures IsRun(InitialHeap(4096, 4128), [Alloc(16), Alloc(4)], Heap(4096, 4128, [Block(4096, 16, true)], 0), true)
  {
    WholeZone(4096, 4128);
    var h1 := Heap(4096, 4128, [Block(4096, 16, true)], 0);
    assert FirstFit(h1.blocks, 4) == 1 by { assert h1.blocks[1..] == []; }
    assert Malloc(h1, 4) == (h1, Panic);
    assert [Alloc(16), Alloc(4)][1..] == [Alloc(4)];
  }

  /** Whatever the run, once the program holds nothing the heap is the single initial free block. */
  lemma EmptyHeapIsInitial(start: nat, end: nat, ops: seq<Op>, h': Heap)
    requires ValidZone(start, end) && IsRun(InitialHeap(start, end), ops, h', false)
    requires Live(h'.blocks) == {}
    ensures h' == InitialHeap(start, end)
  {
    InitialInv(start, end);
    RunsKeepInv(InitialHeap(start, end), ops, h', false);
    HeapIsItsLiveSet(h', InitialHeap(start, end));
  }

  ghost function Elems(order: seq<Block>): set<Block> {
    if order == [] then {} else {order[0]} + Elems(order[1..])
  }

  ghost predicate Distinct(order: seq<Block>) {
    order == [] || (order[0] !in Elems(order[1..]) && Distinct(order[1..]))
  }

  /** `free` on each block of `order` in turn, up to the first panic. */
  function ReleaseAll(h: Heap, order: seq<Block>): (Heap, Outcome)
    decreases |order|
  {
    if order == [] then (h, Return(0))
    else
      var (h1, r) := Free(h, order[0].addr + HEADER);
      if r == Panic then (h1, r) else ReleaseAll(h1, order[1..])
  }

  /** Freeing any of the live blocks, in any order, never panics and removes just those. */
  lemma {:induction false} ReleaseEach(h: Heap, order: seq<Block>) returns (h': Heap)
    requires Inv(h) && Distinct(order) && Elems(order) <= Live(h.blocks)
    ensures ReleaseAll(h, order) == (h', Return(0))
    ensures Inv(h') && h'.start == h.start && h'.end == h.end
    ensures Live(h'.blocks) == Live(h.blocks) - Elems(order)
    decreases |order|
  {
    hide Inv, Free, Live;
    if order == [] {
      h' := h;
    } else {
      var b, rest := order[0], order[1..];
      assert Distinct(rest) && b !in Elems(rest) && Elems(order) == {b} + Elems(rest);
      var h1 := FreeLive(h, b);
      h' := ReleaseEach(h1, rest);
    }
  }

  /** Freeing every live block, in any order, restores the single initial free block. */
  lemma FreeAllRestores(h: Heap, order: seq<Block>)
    requires Inv(h) && Distinct(order) && Elems(order) == Live(h.blocks)
    ensures ReleaseAll(h, order) == (InitialHeap(h.start, h.end), Return(0))
  {
    var h' := ReleaseEach(h, order);
    InitialInv(h.start, h.end);
    HeapIsItsLiveSet(h', InitialHeap(h.start, h.end));
  }

  // ----- payloads

  /** Live payloads are 4-aligned, inside the heap and pairwise disjoint; headers and payloads,
      the sentinel included, add up to the heap. */
  lemma PayloadsDisjoint(h: Heap, b: Block, c: Block)
    requires Inv(h) && b in h.blocks && c in h.blocks
    ensures (b.addr + HEADER) % 4 == 0 && h.start + HEADER <= b.addr + HEADER && b.End() <= h.end - HEADER
    ensures b != c ==> b.End() <= c.addr || c.End() <= b.addr
    ensures TotalSize(h.blocks) + HEADER == h.end - h.start
  {
    var i :| 0 <= i < |h.blocks| && h.blocks[i] == b;
    var j :| 0 <= j < |h.blocks| && h.blocks[j] == c;
    TilesInside(h.blocks, h.start, h.end - HEADER, i);
    TilesTotal(h.blocks, h.start, h.end - HEADER);
    if i < j {
      TilesOrdered(h.blocks, h.start, h.end - HEADER, i, j);
    } else if j < i {
      TilesOrdered(h.blocks, h.start, h.end - HEADER, j, i);
    }
  }
}
