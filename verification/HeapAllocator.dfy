/** `mo_heap_init`, `malloc` and `free` (lib/malloc.c) on 32-bit words of memory.

    A header at byte address `p` is two words: `mem[p]` is the address of the next header (0 is
    NULL) and `mem[p + 4]` is the payload size with the used flag in its lowest bit. */
module HeapAllocator {
  import opened Bits
  import opened HeapChain
  import HeapLaws

  type Memory = map<nat, nat>

  function SizeWord(b: Block): nat {
    b.size + if b.used then 1 else 0
  }

  lemma SizeWordDecodes(b: Block)
    requires b.Wf()
    ensures SizeWord(b) % 2 == if b.used then 1 else 0
    ensures SizeWord(b) - SizeWord(b) % 2 == b.size
  {
    var q := b.size / 4;
    assert b.size == 2 * (2 * q);
    if b.used {
      assert SizeWord(b) == 2 * (2 * q) + 1;
    }
  }

  ghost predicate HeaderAt(m: Memory, b: Block) {
    b.addr in m && b.addr + 4 in m && m[b.addr] == b.End() && m[b.addr + 4] == SizeWord(b)
  }

  /** Memory holds the headers of all blocks of the chain. */
  ghost predicate Represents(m: Memory, bs: seq<Block>) {
    forall b :: b in bs ==> HeaderAt(m, b)
  }

  /** The zero-size used header that ends the chain. */
  ghost predicate SentinelAt(m: Memory, p: nat) {
    p in m && p + 4 in m && m[p] == 0 && m[p + 4] == 1
  }

  /** The two memories differ at most inside [lo, hi). */
  ghost predicate Agree(m: Memory, m': Memory, lo: nat, hi: nat) {
    && m'.Keys == m.Keys
    && forall w :: w in m && !(lo <= w < hi) ==> m'[w] == m[w]
  }

  ghost predicate PayloadKept(m: Memory, m': Memory, b: Block) {
    forall w :: w in m && b.addr + HEADER <= w < b.End() ==> w in m' && m'[w] == m[w]
  }

  ghost predicate PayloadsKept(m: Memory, m': Memory, bs: set<Block>) {
    forall b :: b in bs ==> PayloadKept(m, m', b)
  }

  // ----- framing

  lemma OutsideReplaced(x: seq<Block>, o: seq<Block>, y: seq<Block>, a: nat, limit: nat, b: Block)
    requires Tiles(x + (o + y), a, limit) && o != [] && (b in x || b in y)
    ensures a <= b.addr && b.End() <= limit
    ensures b.End() <= o[0].addr || o[|o| - 1].End() <= b.addr
  {
    var m := TilesSplit(x, o + y, a, limit);
    var m' := TilesSplit(o, y, m, limit);
    TilesInside(o, m, m', |o| - 1);
    if b in x {
      var i :| 0 <= i < |x| && x[i] == b;
      TilesInside(x, a, m, i);
    } else {
      var i :| 0 <= i < |y| && y[i] == b;
      TilesInside(y, m', limit, i);
    }
  }

  /** Writes inside the replaced run leave every other header and the sentinel alone. */
  lemma ReplaceRepresents(m: Memory, m': Memory, x: seq<Block>, o: seq<Block>, n: seq<Block>,
                          y: seq<Block>, a: nat, limit: nat)
    requires Tiles(x + (o + y), a, limit) && o != []
    requires Represents(m, x + (o + y)) && SentinelAt(m, limit)
    requires Agree(m, m', o[0].addr, o[|o| - 1].End()) && Represents(m', n)
    ensures Represents(m', x + (n + y)) && SentinelAt(m', limit)
  {
    forall b | b in x + (n + y) ensures HeaderAt(m', b) {
      if b !in n {
        assert b in x || b in y;
        OutsideReplaced(x, o, y, a, limit, b);
        assert b in x + (o + y);
        assert HeaderAt(m, b);
      }
    }
    RunInside(x, o, y, a, limit);
  }

  lemma RunInside(x: seq<Block>, o: seq<Block>, y: seq<Block>, a: nat, limit: nat)
    requires Tiles(x + (o + y), a, limit) && o != []
    ensures a <= o[0].addr && o[|o| - 1].End() <= limit
  {
    var m := TilesSplit(x, o + y, a, limit);
    var m' := TilesSplit(o, y, m, limit);
    TilesInside(o, m, m', |o| - 1);
  }

  lemma ReplaceKeepsPayloads(m: Memory, m': Memory, x: seq<Block>, o: seq<Block>, y: seq<Block>,
                             a: nat, limit: nat, live: set<Block>)
    requires Tiles(x + (o + y), a, limit) && o != []
    requires Agree(m, m', o[0].addr, o[|o| - 1].End())
    requires forall b :: b in live ==> b in x || b in y
    ensures PayloadsKept(m, m', live)
  {
    forall b | b in live ensures PayloadKept(m, m', b) {
      OutsideReplaced(x, o, y, a, limit, b);
    }
  }

  ghost predicate Mapped(words: set<nat>, start: nat, end: nat) {
    forall w :: start <= w < end && w % 4 == 0 ==> w in words
  }

  /** The words of `m` are the chain `bs` of headers over the zone, ended by the sentinel. */
  ghost predicate Chain(m: Memory, start: nat, end: nat, bs: seq<Block>) {
    && ValidZone(start, end)
    && Tiles(bs, start, end - HEADER)
    && Represents(m, bs)
    && SentinelAt(m, end - HEADER)
    && Mapped(m.Keys, start, end)
  }

  lemma ReplaceChain(m: Memory, m': Memory, start: nat, end: nat,
                     x: seq<Block>, o: seq<Block>, n: seq<Block>, y: seq<Block>)
    requires Chain(m, start, end, x + (o + y)) && o != []
    requires Agree(m, m', o[0].addr, o[|o| - 1].End()) && Represents(m', n)
    requires Tiles(n, o[0].addr, o[|o| - 1].End())
    ensures Chain(m', start, end, x + (n + y))
  {
    TilesReplace(x, o, n, y, start, end - HEADER);
    ReplaceRepresents(m, m', x, o, n, y, start, end - HEADER);
  }

  // ----- the writes of the source

  lemma HeaderOf(m: Memory, start: nat, end: nat, bs: seq<Block>, i: nat)
    requires Chain(m, start, end, bs) && i < |bs|
    ensures HeaderAt(m, bs[i]) && bs[i].Wf() && bs[i].addr % 4 == 0
    ensures start <= bs[i].addr && bs[i].End() <= end - HEADER
    ensures m[bs[i].addr] == if i + 1 < |bs| then bs[i + 1].addr else end - HEADER
  {
    assert bs[i] in bs;
    TilesInside(bs, start, end - HEADER, i);
  }

  function MergedMem(m: Memory, b: Block, c: Block): Memory {
    m[b.addr + 4 := b.size + HEADER + c.size][b.addr := c.End()]
  }

  lemma MergeWrites(m: Memory, start: nat, end: nat, bs: seq<Block>, k: nat)
    requires Chain(m, start, end, bs) && k + 1 < |bs| && !bs[k].used && !bs[k + 1].used
    ensures var m', bs' := MergedMem(m, bs[k], bs[k + 1]), MergeAt(bs, k);
      Chain(m', start, end, bs') && PayloadsKept(m, m', Live(bs'))
  {
    var b, c, x, y := bs[k], bs[k + 1], bs[..k], bs[k + 2..];
    var m' := MergedMem(m, b, c);
    HeapLaws.CutPair(bs, k);
    HeaderOf(m, start, end, bs, k);
    HeaderOf(m, start, end, bs, k + 1);
    MergeAgree(m, b, c);
    ReplaceChain(m, m', start, end, x, [b, c], [Merge(b, c)], y);
    ReplaceKeepsPayloads(m, m', x, [b, c], y, start, end - HEADER, Live(MergeAt(bs, k)));
  }

  lemma MergeAgree(m: Memory, b: Block, c: Block)
    requires HeaderAt(m, b) && b.Wf() && c.Wf() && c.addr == b.End() && !b.used
    ensures Agree(m, MergedMem(m, b, c), b.addr, c.End())
    ensures Represents(MergedMem(m, b, c), [Merge(b, c)])
    ensures Tiles([Merge(b, c)], b.addr, c.End())
  {
  }

  function MarkedMem(m: Memory, b: Block, used: bool): Memory {
    m[b.addr + 4 := SizeWord(b.(used := used))]
  }

  lemma MarkFreeWrites(m: Memory, start: nat, end: nat, bs: seq<Block>, i: nat)
    requires Chain(m, start, end, bs) && i < |bs|
    ensures var m', bs' := MarkedMem(m, bs[i], false), MarkFree(bs, i);
      Chain(m', start, end, bs') && PayloadsKept(m, m', Live(bs'))
  {
    var b, x, y := bs[i], bs[..i], bs[i + 1..];
    var m', f := MarkedMem(m, b, false), b.(used := false);
    HeapLaws.CutOne(bs, i);
    HeaderOf(m, start, end, bs, i);
    assert MarkFree(bs, i) == x + ([f] + y);
    assert Tiles([f], b.addr, b.End());
    ReplaceChain(m, m', start, end, x, [b], [f], y);
    ReplaceKeepsPayloads(m, m', x, [b], y, start, end - HEADER, Live(MarkFree(bs, i)));
  }

  /** The headers after `split_block` and MARK_USED. */
  function CarvedMem(m: Memory, b: Block, size: nat): Memory
    requires size <= b.size
  {
    if Splits(b, size) then
      var q := b.addr + HEADER + size;
      m[q := b.End()][q + 4 := b.size - size - HEADER][b.addr := q][b.addr + 4 := size]
       [b.addr + 4 := size + 1]
    else m[b.addr + 4 := b.size + 1]
  }

  lemma CarveAgree(m: Memory, b: Block, size: nat)
    requires HeaderAt(m, b) && b.Wf() && size <= b.size && MIN_SIZE <= size && size % 4 == 0
    requires Splits(b, size) ==> b.addr + HEADER + size in m && b.addr + HEADER + size + 4 in m
    ensures Agree(m, CarvedMem(m, b, size), b.addr, b.End())
    ensures Represents(CarvedMem(m, b, size), Carve(b, size))
  {
  }

  lemma RemainderMapped(words: set<nat>, start: nat, end: nat, b: Block, size: nat)
    requires Mapped(words, start, end) && start <= b.addr && b.End() <= end && b.addr % 4 == 0
    requires size <= b.size && size % 4 == 0 && Splits(b, size)
    ensures b.addr + HEADER + size in words && b.addr + HEADER + size + 4 in words
  {
    var q := b.addr + HEADER + size;
    assert q % 4 == 0 && (q + 4) % 4 == 0;
  }

  lemma CarveWrites(m: Memory, start: nat, end: nat, bs: seq<Block>, i: nat, size: nat)
    requires Chain(m, start, end, bs) && i < |bs| && Fits(bs[i], size)
    requires MIN_SIZE <= size && size % 4 == 0
    ensures var m' := CarvedMem(m, bs[i], size);
      && Chain(m', start, end, bs[..i] + (Carve(bs[i], size) + bs[i + 1..]))
      && PayloadsKept(m, m', Live(bs))
  {
    var b, x, y := bs[i], bs[..i], bs[i + 1..];
    var m' := CarvedMem(m, b, size);
    HeapLaws.CutOne(bs, i);
    HeaderOf(m, start, end, bs, i);
    if Splits(b, size) { RemainderMapped(m.Keys, start, end, b, size); }
    CarveAgree(m, b, size);
    HeapLaws.CarveTiles(b, size);
    ReplaceChain(m, m', start, end, x, [b], Carve(b, size), y);
    ReplaceKeepsPayloads(m, m', x, [b], y, start, end - HEADER, Live(bs));
  }

  // ----- the check of `free`

  /** The address the code computes for the header in front of a pointer. */
  function HeaderOf32(ptr: nat): (p: nat)
    requires ptr < TWO32
    ensures p < TWO32 && (ptr >= HEADER ==> p == ptr - HEADER) && (ptr < HEADER ==> p == ptr + TWO32 - HEADER)
  {
    (ptr + TWO32 - HEADER) % TWO32
  }

  /** The words at `p` pass for the header of a used block: used bit set, a size in range that ends inside the
      heap, and a link that is null or leads right behind it. */
  ghost predicate UsedHeaderLike(m: Memory, start: nat, end: nat, p: nat) {
    && start <= p < end && p % 4 == 0 && p in m && p + 4 in m
    && m[p + 4] % 2 == 1
    && var size := m[p + 4] - 1;
      && 0 < size <= MAX_SIZE && (p + HEADER + size) % TWO32 <= end
      && (m[p] == 0 || m[p] == (p + HEADER + size) % TWO32)
  }

  lemma HeaderAccepted(m: Memory, start: nat, end: nat, bs: seq<Block>, i: nat)
    requires Chain(m, start, end, bs) && i < |bs|
    ensures UsedHeaderLike(m, start, end, bs[i].addr) <==> bs[i].used
  {
    HeaderOf(m, start, end, bs, i);
    SizeWordDecodes(bs[i]);
  }

  /** Away from the payloads the check accepts exactly the live pointers. */
  lemma AcceptedIfLive(m: Memory, start: nat, end: nat, bs: seq<Block>, count: int, ptr: nat)
    requires Chain(m, start, end, bs) && 0 < ptr < TWO32 && HeapLaws.Addressed(Heap(start, end, bs, count), ptr)
    ensures UsedHeaderLike(m, start, end, HeaderOf32(ptr)) <==> HeapLaws.IsLive(Heap(start, end, bs, count), ptr)
  {
    var h, p := Heap(start, end, bs, count), HeaderOf32(ptr);
    if b :| b in bs && b.addr + HEADER == ptr {
      var i :| 0 <= i < |bs| && bs[i] == b;
      HeaderAccepted(m, start, end, bs, i);
      forall c | c in bs && c.addr == b.addr ensures c == b { SameBlock(bs, start, end - HEADER, b, c); }
    }
  }

  lemma SameBlock(bs: seq<Block>, a: nat, limit: nat, b: Block, c: Block)
    requires Tiles(bs, a, limit) && b in bs && c in bs && b.addr == c.addr
    ensures b == c
  {
    var i :| 0 <= i < |bs| && bs[i] == b;
    var j :| 0 <= j < |bs| && bs[j] == c;
    if i < j { TilesOrdered(bs, a, limit, i, j); } else if j < i { TilesOrdered(bs, a, limit, j, i); }
  }

  /** Where the abstract `free` finds the block, and that it is the one the code computes. */
  lemma FoundAt(m: Memory, start: nat, end: nat, bs: seq<Block>, count: int, ptr: nat) returns (i: nat)
    requires Chain(m, start, end, bs) && 0 < ptr < TWO32
    requires UsedHeaderLike(m, start, end, HeaderOf32(ptr)) ==> HeapLaws.Addressed(Heap(start, end, bs, count), ptr)
    ensures i == IndexOf(bs, ptr - HEADER)
    ensures UsedHeaderLike(m, start, end, HeaderOf32(ptr)) <==> i < |bs| && bs[i].used
    ensures i < |bs| ==> bs[i].addr == HeaderOf32(ptr)
  {
    i := IndexOf(bs, ptr - HEADER);
    if i < |bs| {
      HeaderAccepted(m, start, end, bs, i);
    } else if UsedHeaderLike(m, start, end, HeaderOf32(ptr)) {
      AcceptedIfLive(m, start, end, bs, count, ptr);
      assert false;
    }
  }

  /** A word of the heap that is no header of the chain. */
  ghost predicate Interior(bs: seq<Block>, start: nat, end: nat, p: nat) {
    start <= p < end && p % 4 == 0 && p + HEADER < TWO32 && p != end - HEADER && forall b :: b in bs ==> b.addr != p
  }

  /** The check accepts exactly the live pointers if and only if no other words of the heap look like the
      header of a used block. */
  lemma AcceptsOnlyLiveIff(m: Memory, start: nat, end: nat, bs: seq<Block>, count: int)
    requires Chain(m, start, end, bs)
    ensures (forall ptr: nat :: 0 < ptr < TWO32 ==>
        (UsedHeaderLike(m, start, end, HeaderOf32(ptr)) <==> HeapLaws.IsLive(Heap(start, end, bs, count), ptr)))
      <==> (forall p :: Interior(bs, start, end, p) ==> !UsedHeaderLike(m, start, end, p))
  {
    var h := Heap(start, end, bs, count);
    if p: nat :| Interior(bs, start, end, p) && UsedHeaderLike(m, start, end, p) {
      assert HeaderOf32(p + HEADER) == p && !HeapLaws.IsLive(h, p + HEADER);
    } else {
      forall ptr: nat | 0 < ptr < TWO32
        ensures UsedHeaderLike(m, start, end, HeaderOf32(ptr)) <==> HeapLaws.IsLive(h, ptr)
      {
        if HeapLaws.Addressed(h, ptr) {
          AcceptedIfLive(m, start, end, bs, count, ptr);
        } else {
          assert Interior(bs, start, end, HeaderOf32(ptr));
        }
      }
    }
  }

  /** A heap of one used block of 32 bytes in whose payload the program has stored 4136 and 17. */
  function ForgedMemory(): Memory {
    map[4096 := 4136, 4100 := 33, 4104 := 0, 4108 := 0, 4112 := 4136, 4116 := 17,
        4120 := 0, 4124 := 0, 4128 := 0, 4132 := 0, 4136 := 0, 4140 := 1]
  }

  /** On that heap, which one `malloc` on a fresh zone leaves, `free` accepts a pointer it never handed out. */
  lemma InteriorPointerAccepted()
    ensures Malloc(HeapLaws.InitialHeap(4096, 4144), 32) == (Heap(4096, 4144, [Block(4096, 32, true)], 0), Return(4104))
    ensures Chain(ForgedMemory(), 4096, 4144, [Block(4096, 32, true)])
    ensures UsedHeaderLike(ForgedMemory(), 4096, 4144, HeaderOf32(4120))
    ensures !HeapLaws.IsLive(Heap(4096, 4144, [Block(4096, 32, true)], 0), 4120)
  {
    var bs := [Block(4096, 32, true)];
    assert bs[1..] == [] && Tiles(bs, 4096, 4136);
    HeapLaws.WholeZone(4096, 4144);
    hide Malloc;
  }

  class Allocator {
    var mem: Memory
    var firstFree: nat
    var heapStart: nat
    var heapEnd: nat
    var freeBlocks: int
    ghost var blocks: seq<Block>

    ghost function Abs(): Heap
      reads this
    {
      Heap(heapStart, heapEnd, blocks, freeBlocks)
    }

    ghost predicate Chained()
      reads this
    {
      firstFree == heapStart && Chain(mem, heapStart, heapEnd, blocks)
    }

    ghost predicate Valid()
      reads this
    {
      Chained() && Inv(Abs())
    }

    predicate IsUsed(p: nat)
      requires p + 4 in mem
      reads this
    {
      mem[p + 4] % 2 == 1
    }

    function GetSize(p: nat): nat
      requires p + 4 in mem
      reads this
    {
      mem[p + 4] - mem[p + 4] % 2
    }

    /** IS_VALID_BLOCK */
    predicate InHeap(p: nat)
      reads this
    {
      heapStart <= p < heapEnd && p % 4 == 0
    }

    predicate ValidateBlock(p: nat)
      requires InHeap(p) ==> p in mem && p + 4 in mem
      reads this
    {
      InHeap(p) &&
      var size := GetSize(p);
      && size != 0 && size <= MAX_SIZE
      && (p + HEADER + size) % TWO32 <= heapEnd
      && (mem[p] != 0 ==> (p + HEADER + size) % TWO32 == mem[p])
    }

    /** Address of the `i`-th header; the one after the last block is the sentinel. */
    ghost function HeaderAddr(i: nat): nat
      requires i <= |blocks| && heapEnd >= HEADER
      reads this
    {
      if i < |blocks| then blocks[i].addr else heapEnd - HEADER
    }

    /** The links the code follows: from block to block and, at the sentinel, to NULL. */
    lemma Linked(i: nat)
      requires Chained() && i <= |blocks|
      ensures var p := HeaderAddr(i);
        && p != 0 && p in mem && p + 4 in mem && InHeap(p)
        && mem[p] == if i < |blocks| then HeaderAddr(i + 1) else 0
    {
      if i < |blocks| { HeaderOf(mem, heapStart, heapEnd, blocks, i); }
    }

    /** The flag and the size the code reads in a header. */
    lemma At(i: nat)
      requires Chained() && i <= |blocks|
      ensures var p := HeaderAddr(i);
        && p + 4 in mem
        && (IsUsed(p) <==> i == |blocks| || blocks[i].used)
        && (i < |blocks| ==> GetSize(p) == blocks[i].size)
    {
      if i < |blocks| {
        HeaderOf(mem, heapStart, heapEnd, blocks, i);
        SizeWordDecodes(blocks[i]);
      }
    }

    /** Validation accepts every block of the chain and rejects the sentinel. */
    lemma Validated(i: nat)
      requires Chained() && i <= |blocks|
      ensures var p := HeaderAddr(i);
        p in mem && p + 4 in mem && (ValidateBlock(p) <==> i < |blocks|)
    {
      At(i);
      if i < |blocks| { HeaderOf(mem, heapStart, heapEnd, blocks, i); }
    }

    /** Absorbs the next block, as `free` and `selective_coalesce` do in place. */
    method MergeNext(p: nat, ghost k: nat)
      requires Chained() && k + 1 < |blocks| && p == blocks[k].addr
      requires !blocks[k].used && !blocks[k + 1].used
      modifies this`mem, this`freeBlocks, this`blocks
      ensures Chained() && blocks == MergeAt(old(blocks), k) && freeBlocks == old(freeBlocks) - 1
      ensures PayloadsKept(old(mem), mem, Live(blocks))
    {
      Linked(k);
      At(k);
      At(k + 1);
      MergeWrites(mem, heapStart, heapEnd, blocks, k);
      ghost var b, c := blocks[k], blocks[k + 1];
      HeaderOf(mem, heapStart, heapEnd, blocks, k);
      HeaderOf(mem, heapStart, heapEnd, blocks, k + 1);
      var q := mem[p];
      mem := mem[p + 4 := GetSize(p) + HEADER + GetSize(q)];
      mem := mem[p := mem[q]];
      assert mem == MergedMem(old(mem), b, c);
      freeBlocks := freeBlocks - 1;
      blocks := MergeAt(blocks, k);
    }

    /** One iteration of `selective_coalesce` at block `k`: merge and stay, or move on. */
    method CoalesceAt(p: nat, ghost k: nat) returns (q: nat, ghost merged: bool)
      requires Chained() && k < |blocks| && p == HeaderAddr(k)
      modifies this`mem, this`freeBlocks, this`blocks
      ensures Chained()
      ensures merged <==> k + 1 < |old(blocks)| && !old(blocks)[k].used && !old(blocks)[k + 1].used
      ensures merged ==> blocks == MergeAt(old(blocks), k) && freeBlocks == old(freeBlocks) - 1
      ensures !merged ==> blocks == old(blocks) && freeBlocks == old(freeBlocks)
      ensures q == HeaderAddr(if merged then k else k + 1)
      ensures PayloadsKept(old(mem), mem, Live(blocks)) && Live(blocks) == Live(old(blocks))
    {
      Linked(k);
      At(k);
      At(k + 1);
      q := p;
      merged := false;
      if !IsUsed(p) && !IsUsed(mem[p]) {
        HeapLaws.MergeLive(blocks, k);
        MergeNext(p, k);
        merged := true;
      } else {
        q := mem[p];
      }
    }

    /** `selective_coalesce`: one pass that merges every free neighbour in place. */
    method SelectiveCoalesce() returns (r: Outcome)
      requires Chained()
      modifies this`mem, this`freeBlocks, this`blocks
      ensures r == Return(0) && Chained()
      ensures blocks == Coalesce(old(blocks))
      ensures freeBlocks == old(freeBlocks) + |blocks| - |old(blocks)|
      ensures PayloadsKept(old(mem), mem, Live(blocks)) && Live(blocks) == Live(old(blocks))
    {
      var p := firstFree;
      ghost var k, merged := 0, false;
      Linked(0);
      while p != 0 && mem[p] != 0
        invariant Chained() && k <= |blocks| && p == HeaderAddr(k) && p in mem
        invariant blocks[..k] + Coalesce(blocks[k..]) == Coalesce(old(blocks))
        invariant freeBlocks == old(freeBlocks) + |blocks| - |old(blocks)|
        invariant PayloadsKept(old(mem), mem, Live(blocks)) && Live(blocks) == Live(old(blocks))
        decreases |blocks| - k
      {
        Linked(k);
        Validated(k);
        if !ValidateBlock(p) {
          return Panic;
        }
        CoalesceUnfold(blocks, k);
        p, merged := CoalesceAt(p, k);
        k := if merged then k else k + 1;
        Linked(k);
      }
      Linked(k);
      if k < |blocks| { Linked(k + 1); }
      assert blocks == blocks[..k] + Coalesce(blocks[k..]);
      r := Return(0);
    }

    /** The search loop of `malloc`.  Running off the last block reaches the sentinel, where
        validation fails. */
    method Search(size: nat) returns (p: nat, r: Outcome, ghost i: nat)
      requires Chained()
      ensures i == FirstFit(blocks, size) && p == HeaderAddr(FirstFit(blocks, size))
      ensures r == if FirstFit(blocks, size) < |blocks| then Return(0) else Panic
    {
      p := firstFree;
      i := 0;
      r := Return(0);
      Linked(0);
      while p != 0
        invariant i <= |blocks| && p == HeaderAddr(i)
        invariant i + FirstFit(blocks[i..], size) == FirstFit(blocks, size)
        decreases |blocks| - i
      {
        Linked(i);
        At(i);
        Validated(i);
        if !ValidateBlock(p) {
          return p, Panic, i;
        }
        if !IsUsed(p) && GetSize(p) >= size {
          return p, r, i;
        }
        p := mem[p];
        assert blocks[i..][1..] == blocks[i + 1..];
        i := i + 1;
      }
      Linked(i);
    }

    /** `split_block` and MARK_USED. */
    method Take(p: nat, size: nat, ghost i: nat)
      requires Chained() && i < |blocks| && p == blocks[i].addr && Fits(blocks[i], size)
      requires MIN_SIZE <= size && size % 4 == 0
      modifies this`mem, this`freeBlocks, this`blocks
      ensures Chained()
      ensures blocks == old(blocks)[..i] + (Carve(old(blocks)[i], size) + old(blocks)[i + 1..])
      ensures freeBlocks == old(freeBlocks) + |blocks| - |old(blocks)|
      ensures PayloadsKept(old(mem), mem, Live(old(blocks)))
    {
      ghost var b := blocks[i];
      Linked(i);
      At(i);
      HeaderOf(mem, heapStart, heapEnd, blocks, i);
      CarveWrites(mem, heapStart, heapEnd, blocks, i, size);
      var remaining := GetSize(p) - size;
      var m := mem;
      if remaining >= HEADER + MIN_SIZE {
        var q := p + HEADER + size;
        m := m[q := m[p]];
        m := m[q + 4 := remaining - HEADER];
        m := m[p := q];
        m := m[p + 4 := size];
        freeBlocks := freeBlocks + 1;
      }
      m := m[p + 4 := m[p + 4] + 1];
      assert m == CarvedMem(mem, b, size);
      mem := m;
      blocks := blocks[..i] + (Carve(b, size) + blocks[i + 1..]);
    }

    method AllocateFirst(size: nat) returns (r: Outcome)
      requires Chained() && MIN_SIZE <= size && size % 4 == 0
      modifies this`mem, this`freeBlocks, this`blocks
      ensures Chained()
      ensures (Abs(), r) == HeapChain.AllocateFirst(old(Abs()), size)
      ensures PayloadsKept(old(mem), mem, Live(old(blocks)))
    {
      var p;
      ghost var i;
      p, r, i := Search(size);
      if r == Panic {
        return;
      }
      Take(p, size, i);
      r := if freeBlocks <= 0 then Panic else Return(p + HEADER);
      freeBlocks := freeBlocks - 1;
    }

    method Malloc(n: nat) returns (r: Outcome)
      requires Chained() && n < TWO32
      modifies this`mem, this`freeBlocks, this`blocks
      ensures Chained()
      ensures (Abs(), r) == HeapChain.Malloc(old(Abs()), n)
      ensures PayloadsKept(old(mem), mem, Live(old(blocks)))
      ensures old(Valid()) ==> Valid()
    {
      hide Inv, Chain, HeapChain.AllocateFirst, Coalesce, Align4;
      if Inv(Abs()) { HeapLaws.MallocOutcome(Abs(), n); }
      if n == 0 || n > MAX_SIZE {
        return Return(0);
      }
      var size := Align4(n);
      if size < MIN_SIZE {
        size := MIN_SIZE;
      }
      if freeBlocks > COALESCE_THRESHOLD {
        r := SelectiveCoalesce();
      }
      r := AllocateFirst(size);
    }

    /** MARK_FREE */
    method MarkFreeAt(p: nat, ghost i: nat)
      requires Chained() && i < |blocks| && p == blocks[i].addr && blocks[i].used
      modifies this`mem, this`freeBlocks, this`blocks
      ensures Chained() && blocks == MarkFree(old(blocks), i) && freeBlocks == old(freeBlocks) + 1
      ensures PayloadsKept(old(mem), mem, Live(blocks))
    {
      At(i);
      MarkFreeWrites(mem, heapStart, heapEnd, blocks, i);
      mem := mem[p + 4 := GetSize(p)];
      freeBlocks := freeBlocks + 1;
      blocks := MarkFree(blocks, i);
    }

    /** The backward search of `free`: the header before `p`, or NULL for the first block. */
    method FindPrevious(p: nat, ghost i: nat) returns (prev: nat)
      requires Chained() && i < |blocks| && p == blocks[i].addr
      ensures prev == if i == 0 then 0 else blocks[i - 1].addr
    {
      prev := 0;
      var current := firstFree;
      ghost var k := 0;
      Linked(0);
      while current != 0 && current != p
        invariant k <= i && current == blocks[k].addr
        invariant prev == if k == 0 then 0 else blocks[k - 1].addr
        decreases i - k
      {
        Linked(k);
        prev := current;
        current := mem[current];
        k := k + 1;
      }
      Linked(k);
      if k < i { TilesOrdered(blocks, heapStart, heapEnd - HEADER, k, i); }
    }

    method MergeForwardAt(p: nat, ghost i: nat)
      requires Chained() && i < |blocks| && p == blocks[i].addr && !blocks[i].used
      modifies this`mem, this`freeBlocks, this`blocks
      ensures Chained() && blocks == MergeForward(old(blocks), i)
      ensures freeBlocks == old(freeBlocks) + |blocks| - |old(blocks)|
      ensures blocks[i].addr == p && !blocks[i].used
      ensures PayloadsKept(old(mem), mem, Live(blocks))
    {
      Linked(i);
      Linked(i + 1);
      At(i + 1);
      if mem[p] != 0 && !IsUsed(mem[p]) {
        MergeNext(p, i);
      }
    }

    method MergeBackwardAt(p: nat, ghost i: nat) returns (r: Outcome)
      requires Chained() && i < |blocks| && p == blocks[i].addr && !blocks[i].used
      modifies this`mem, this`freeBlocks, this`blocks
      ensures r == Return(0) && Chained() && blocks == MergeBackward(old(blocks), i)
      ensures freeBlocks == old(freeBlocks) + |blocks| - |old(blocks)|
      ensures PayloadsKept(old(mem), mem, Live(blocks))
    {
      var prev := FindPrevious(p, i);
      if i > 0 {
        Linked(i - 1);
        At(i - 1);
        Validated(i - 1);
      }
      r := Return(0);
      if prev != 0 && !IsUsed(prev) {
        if !ValidateBlock(prev) {
          return Panic;
        }
        MergeNext(prev, i - 1);
      }
    }

    /** The two words in front of `ptr`, if they lie in the heap, can be read. */
    ghost predicate Readable(ptr: nat)
      reads this
    {
      ptr < TWO32 && (ptr != 0 && InHeap(HeaderOf32(ptr)) ==> HeaderOf32(ptr) + 4 in mem)
    }

    /** The check at the top of `free`: it passes exactly if the words in front of the pointer look like the
        header of a used block, and for a pointer that does not lead into a payload exactly if it is live. */
    method CheckBlock(ptr: nat, p: nat) returns (ok: bool)
      requires Chained() && Readable(ptr) && ptr != 0 && p == HeaderOf32(ptr)
      ensures ok <==> UsedHeaderLike(mem, heapStart, heapEnd, p)
      ensures HeapLaws.Addressed(Abs(), ptr) ==> (ok <==> HeapLaws.IsLive(Abs(), ptr))
    {
      ok := ValidateBlock(p) && IsUsed(p);
      if HeapLaws.Addressed(Abs(), ptr) { AcceptedIfLive(mem, heapStart, heapEnd, blocks, freeBlocks, ptr); }
    }

    /** `free`, for every pointer but one into a payload whose words there look like a used header. */
    method Free(ptr: nat) returns (r: Outcome)
      requires Chained() && Readable(ptr)
      requires ptr != 0 && UsedHeaderLike(mem, heapStart, heapEnd, HeaderOf32(ptr)) ==> HeapLaws.Addressed(Abs(), ptr)
      modifies this`mem, this`freeBlocks, this`blocks
      ensures Chained()
      ensures (Abs(), r) == HeapChain.Free(old(Abs()), ptr)
      ensures PayloadsKept(old(mem), mem, Live(blocks))
      ensures old(Valid()) ==> Valid()
    {
      hide Inv, Chain, Released, UsedHeaderLike, HeapLaws.Addressed, HeapLaws.IsLive;
      if ptr == 0 {
        return Return(0);
      }
      var p := HeaderOf32(ptr);
      var ok := CheckBlock(ptr, p);
      ghost var i := FoundAt(mem, heapStart, heapEnd, blocks, freeBlocks, ptr);
      if !ok {
        return Panic;
      }
      if Inv(Abs()) { HeapLaws.FreeOutcome(Abs(), ptr); }
      r := Release(p, i);
    }

    method Release(p: nat, ghost i: nat) returns (r: Outcome)
      requires Chained() && i < |blocks| && p == blocks[i].addr && blocks[i].used
      modifies this`mem, this`freeBlocks, this`blocks
      ensures r == Return(0) && Chained() && blocks == Released(old(blocks), i)
      ensures freeBlocks == old(freeBlocks) + 1 + |blocks| - |old(blocks)|
      ensures PayloadsKept(old(mem), mem, Live(blocks))
    {
      MarkFreeAt(p, i);
      ghost var m1, b1 := mem, blocks;
      MergeForwardAt(p, i);
      ghost var m2, b2 := mem, blocks;
      r := MergeBackwardAt(p, i);
      MergedLive(b1, i);
      KeptThrice(old(mem), m1, m2, mem, Live(blocks));
    }

    /** `mo_heap_init`.  A zone whose length is not a multiple of 4 is rounded up, so that the heap ends
        beyond it; one that reaches the top of the address space gets the end address 0. */
    method Init(zone: nat, len: nat)
      requires len <= TWO32 - 4 && zone + Align4(len) <= TWO32
      requires zone != 0 ==> Mapped(mem.Keys, zone, zone + Align4(len))
      modifies this
      ensures zone == 0 || len < 2 * HEADER + MIN_SIZE ==> unchanged(this)
      ensures zone != 0 && len >= 2 * HEADER + MIN_SIZE ==>
        && heapEnd == (zone + Align4(len)) % TWO32
        && (heapEnd != 0 ==> Abs() == HeapLaws.InitialHeap(zone, heapEnd) && (heapEnd <= zone + len <==> len % 4 == 0))
        && (Valid() <==> heapEnd != 0 && zone % 4 == 0 && Align4(len) <= 2 * HEADER + MAX_SIZE)
    {
      hide Align4, Inv, Chain;
      if zone == 0 || len < 2 * HEADER + MIN_SIZE {
        return;
      }
      var size := Align4(len);
      var end := zone + size - HEADER;
      InitWrites(mem, zone, size);
      mem := mem[zone := end][zone + 4 := size - 2 * HEADER];
      mem := mem[end := 0][end + 4 := 1];
      firstFree, heapStart, heapEnd := zone, zone, (end + HEADER) % TWO32;
      freeBlocks := 1;
      blocks := [Block(zone, size - 2 * HEADER, false)];
      ZoneOfChain(mem, heapStart, heapEnd, blocks);
      if heapEnd != 0 && zone % 4 == 0 && size <= 2 * HEADER + MAX_SIZE { HeapLaws.InitialInv(heapStart, heapEnd); }
    }
  }

  lemma ZoneOfChain(m: Memory, start: nat, end: nat, bs: seq<Block>)
    ensures Chain(m, start, end, bs) ==> ValidZone(start, end)
  {
  }

  lemma InitWrites(m: Memory, zone: nat, size: nat)
    requires 2 * HEADER + MIN_SIZE <= size && size % 4 == 0 && Mapped(m.Keys, zone, zone + size)
    ensures ValidZone(zone, zone + size) ==>
      var end := zone + size - HEADER;
      Chain(m[zone := end][zone + 4 := size - 2 * HEADER][end := 0][end + 4 := 1], zone, zone + size,
            [Block(zone, size - 2 * HEADER, false)])
  {
    var bs := [Block(zone, size - 2 * HEADER, false)];
    assert bs[1..] == [];
  }

  lemma MergedLive(bs: seq<Block>, i: nat)
    requires i < |bs| && !bs[i].used
    ensures Live(MergeBackward(MergeForward(bs, i), i)) == Live(bs)
    ensures Live(MergeForward(bs, i)) == Live(bs)
  {
    var f := MergeForward(bs, i);
    if f != bs { HeapLaws.MergeLive(bs, i); }
    if i > 0 && !f[i - 1].used { HeapLaws.MergeLive(f, i - 1); }
  }

  lemma KeptThrice(m: Memory, m1: Memory, m2: Memory, m3: Memory, live: set<Block>)
    requires PayloadsKept(m, m1, live) && PayloadsKept(m1, m2, live) && PayloadsKept(m2, m3, live)
    ensures PayloadsKept(m, m3, live)
  {
    forall b | b in live ensures PayloadKept(m, m3, b) {
      assert PayloadKept(m, m1, b) && PayloadKept(m1, m2, b) && PayloadKept(m2, m3, b);
    }
  }

  lemma CoalesceUnfold(bs: seq<Block>, k: nat)
    requires k < |bs|
    ensures k + 1 < |bs| && !bs[k].used && !bs[k + 1].used ==>
      bs[..k] + Coalesce(bs[k..]) == MergeAt(bs, k)[..k] + Coalesce(MergeAt(bs, k)[k..])
    ensures !(k + 1 < |bs| && !bs[k].used && !bs[k + 1].used) ==>
      bs[..k] + Coalesce(bs[k..]) == bs[..k + 1] + Coalesce(bs[k + 1..])
  {
    var t := bs[k..];
    assert t[1..] == bs[k + 1..];
    if k + 1 < |bs| && !bs[k].used && !bs[k + 1].used {
      assert MergeAt(bs, k)[..k] == bs[..k];
      assert MergeAt(bs, k)[k..] == MergeAt(t, 0);
    }
  }
}
