/** The code of kernel/timer.c: bit-mask pool, linked-list loops, lookup cache and batched firing,
    proved to compute the functions of TimerSpec. */
module TimerCode {
  import opened Bits
  import opened TimerLists
  import opened TimerSpec
  import TimerLaws

  /** The pool slots whose bit is set in `pool_free_mask`. */
  ghost function FreeSlots(mask: nat): set<nat> {
    set i | 0 <= i < POOL_SIZE && BitOf(mask, i) == 1
  }

  lemma ClearSlot(mask: nat, i: nat)
    requires i < POOL_SIZE
    ensures Pow2(POOL_SIZE) == 65536 && Pow2(i) < 65536
    ensures FreeSlots(And(mask, 65535 - Pow2(i))) == FreeSlots(mask) - {i}
  {
    hide Pow2, And, BitOf;
    Pow2Words();
    ClearBit(mask, i, 0, POOL_SIZE);
    forall j | 0 <= j < POOL_SIZE
      ensures BitOf(And(mask, 65535 - Pow2(i)), j) == if i == j then 0 else BitOf(mask, j)
    {
      ClearBit(mask, i, j, POOL_SIZE);
    }
  }

  lemma SetSlot(mask: nat, i: nat)
    requires i < POOL_SIZE
    ensures FreeSlots(Or(mask, Pow2(i))) == FreeSlots(mask) + {i}
  {
    hide Pow2, Or, BitOf;
    forall j | 0 <= j < POOL_SIZE ensures BitOf(Or(mask, Pow2(i)), j) == if i == j then 1 else BitOf(mask, j) {
      OrBit(mask, i, j);
    }
  }

  class TimerSubsystem {
    var ts: Timers
    var master: seq<Cell>
    var masterLength: int
    var active: seq<Cell>
    var activeLength: int
    var poolFreeMask: nat
    var nextNode: nat
    var cache: seq<CacheEntry>
    var cacheIndex: nat
    var nextId: nat
    var now: nat
    var stamp: nat
    var log: seq<Fire>

    ghost function Abs(): Sys
      reads this
    {
      Sys(ts, master, active, FreeSlots(poolFreeMask), nextNode, cache, cacheIndex, nextId, now, stamp, log)
    }

    /** The list lengths are exact. */
    ghost predicate Valid()
      reads this
    {
      Wf(Abs()) && masterLength == |master| && activeLength == |active|
    }

    /** `get_timer_node` */
    method GetTimerNode() returns (n: nat)
      modifies this`poolFreeMask, this`nextNode
      ensures (n, FreeSlots(poolFreeMask), nextNode) == Take(old(FreeSlots(poolFreeMask)), old(nextNode))
    {
      hide Pow2, And, BitOf;
      var i := 0;
      while i < POOL_SIZE
        invariant 0 <= i <= POOL_SIZE
        invariant LowestFree(FreeSlots(poolFreeMask), i) == LowestFree(FreeSlots(poolFreeMask), 0)
        invariant poolFreeMask == old(poolFreeMask) && nextNode == old(nextNode)
      {
        AndBit(poolFreeMask, i);
        if And(poolFreeMask, Pow2(i)) != 0 {
          ClearSlot(poolFreeMask, i);
          poolFreeMask := And(poolFreeMask, 65535 - Pow2(i));
          return i;
        }
        i := i + 1;
      }
      n := nextNode;
      nextNode := nextNode + 1;
    }

    /** `return_timer_node` */
    method ReturnTimerNode(n: nat)
      modifies this`poolFreeMask
      ensures FreeSlots(poolFreeMask) == Give(old(FreeSlots(poolFreeMask)), n)
    {
      if n < POOL_SIZE {
        SetSlot(poolFreeMask, n);
        poolFreeMask := Or(poolFreeMask, Pow2(n));
      }
    }

    /** The insertion loop shared by both sorted lists. */
    method FindInsertionPoint(cells: seq<Cell>, o: Order, key: nat) returns (i: nat)
      requires forall c :: c in cells ==> c.timer in ts
      ensures i == Position(cells, ts, o, key)
    {
      i := 0;
      while i < |cells|
        invariant 0 <= i <= |cells|
        invariant i + Position(cells[i..], ts, o, key) == Position(cells, ts, o, key)
      {
        if key < Key(ts[cells[i].timer], o) {
          return;
        }
        assert cells[i..][1..] == cells[i + 1..];
        i := i + 1;
      }
    }

    /** `timer_sorted_insert` of timer `p`, whose fields are already set. */
    method SortedInsert(p: Ptr)
      requires Valid() && p in ts
      modifies this`poolFreeMask, this`nextNode, this`ts, this`active, this`activeLength, this`stamp
      ensures Valid() && Abs() == Link(old(Abs()), p, old(ts[p]))
    {
      hide FreeSlots, Take, Position;
      var n := GetTimerNode();
      ts := ts[p := ts[p].(stamp := stamp)];
      stamp := stamp + 1;
      var i := FindInsertionPoint(active, ByDeadline, ts[p].deadline);
      InsertMembers(active, ts, ByDeadline, Cell(n, p));
      active := active[..i] + [Cell(n, p)] + active[i..];
      activeLength := activeLength + 1;
    }

    method FindData(cells: seq<Cell>, p: Ptr) returns (i: nat)
      ensures i == Find(cells, p)
    {
      i := 0;
      while i < |cells|
        invariant 0 <= i <= |cells| && i + Find(cells[i..], p) == Find(cells, p)
      {
        if cells[i].timer == p {
          return;
        }
        assert cells[i..][1..] == cells[i + 1..];
        i := i + 1;
      }
    }

    /** `timer_remove_item_by_data` on the active list. */
    method RemoveItemByData(p: Ptr)
      requires Valid()
      modifies this`active, this`activeLength, this`poolFreeMask
      ensures Valid()
      ensures Find(old(active), p) < |old(active)| ==> Abs() == Unlink(old(Abs()), Find(old(active), p))
      ensures Find(old(active), p) == |old(active)| ==> Abs() == old(Abs())
    {
      if activeLength == 0 {
        return;
      }
      var i := FindData(active, p);
      if i < |active| {
        var n := active[i].node;
        active := active[..i] + active[i + 1..];
        ReturnTimerNode(n);
        activeLength := activeLength - 1;
      }
    }

    /** `cache_timer` */
    method CacheTimer(id: nat, p: Ptr)
      requires |cache| == CACHE_SIZE && cacheIndex < CACHE_SIZE
      modifies this`cache, this`cacheIndex
      ensures Abs() == CacheAdd(old(Abs()), id, p)
    {
      cache := cache[cacheIndex := CacheEntry(id, p)];
      cacheIndex := (cacheIndex + 1) % CACHE_SIZE;
    }

    /** `cache_lookup_timer` */
    method CacheLookup(id: nat) returns (p: nat)
      ensures p == CacheFind(cache, id)
    {
      var i := 0;
      while i < |cache|
        invariant 0 <= i <= |cache| && CacheFind(cache[i..], id) == CacheFind(cache, id)
      {
        if cache[i].id == id && cache[i].timer > 0 {
          return cache[i].timer;
        }
        assert cache[i..][1..] == cache[i + 1..];
        i := i + 1;
      }
      p := 0;
    }

    method ScanMaster(id: nat) returns (i: nat)
      requires Valid()
      ensures i == ScanSorted(master, ts, id)
    {
      i := 0;
      while i < |master|
        invariant 0 <= i <= |master|
        invariant ScanSorted(master, ts, id) ==
          if ScanSorted(master[i..], ts, id) == |master[i..]| then |master| else i + ScanSorted(master[i..], ts, id)
      {
        if ts[master[i].timer].id == id {
          return;
        }
        if ts[master[i].timer].id > id {
          return |master|;
        }
        assert master[i..][1..] == master[i + 1..];
        i := i + 1;
      }
    }

    /** `timer_find_by_id_fast`; 0 is NULL. */
    method FindByIdFast(id: nat) returns (p: nat)
      requires Valid()
      modifies this`cache, this`cacheIndex
      ensures Valid() && (Abs(), p) == FindFast(old(Abs()), id)
    {
      p := CacheLookup(id);
      if p > 0 && p in ts && ts[p].id == id {
        return;
      }
      if masterLength == 0 {
        return 0;
      }
      var i := ScanMaster(id);
      if i < |master| {
        p := master[i].timer;
        CacheTimer(id, p);
      } else {
        p := 0;
      }
    }

    /** `timer_find_node_by_id` */
    method FindNodeById(id: nat) returns (i: nat)
      requires Valid()
      ensures i == Scan(master, ts, id)
    {
      i := 0;
      while i < |master|
        invariant 0 <= i <= |master| && i + Scan(master[i..], ts, id) == Scan(master, ts, id)
      {
        if ts[master[i].timer].id == id {
          return;
        }
        assert master[i..][1..] == master[i + 1..];
        i := i + 1;
      }
    }

    /** Removal of a dying timer from every cache slot. */
    method CacheForget(p: Ptr)
      modifies this`cache
      ensures cache == CacheClear(old(cache), p)
    {
      var i := 0;
      while i < |cache|
        invariant 0 <= i <= |cache| == |old(cache)| && cache[i..] == old(cache)[i..]
        invariant forall j :: 0 <= j < i ==> cache[j] == CacheClear(old(cache), p)[j]
      {
        if cache[i].timer == p {
          cache := cache[i := CacheEntry(0, 0)];
        }
        i := i + 1;
      }
    }

    /** `mo_timer_create`; `p` is the block the allocator returned. */
    method Create(p: Ptr, periodMs: nat) returns (r: int)
      requires Valid()
      modifies this
      ensures Valid() && (Abs(), r) == TimerSpec.Create(old(Abs()), p, periodMs)
    {
      hide FreeSlots, Take, Insert;
      if periodMs == 0 {
        return ERR_FAIL;
      }
      var id := nextId;
      nextId := nextId + 1;
      ts := ts[p := Fresh(id, periodMs)];
      InsertSortedById(p);
      CacheTimer(id, p);
      r := id;
    }

    /** `timer_insert_sorted_by_id` */
    method InsertSortedById(p: Ptr)
      requires Valid() && p in ts
      modifies this`master, this`masterLength, this`poolFreeMask, this`nextNode
      ensures Valid()
      ensures var (n, free, next) := Take(old(FreeSlots(poolFreeMask)), old(nextNode));
        && FreeSlots(poolFreeMask) == free && nextNode == next
        && master == Insert(old(master), ts, ById, Cell(n, p))
    {
      hide FreeSlots, Take, Position;
      var n := GetTimerNode();
      var i := FindInsertionPoint(master, ById, ts[p].id);
      InsertMembers(master, ts, ById, Cell(n, p));
      master := master[..i] + [Cell(n, p)] + master[i..];
      masterLength := masterLength + 1;
    }

    /** `mo_timer_start` */
    method Start(id: nat, mode: Mode) returns (r: int)
      requires Valid()
      modifies this
      ensures Valid() && (Abs(), r) == TimerSpec.Start(old(Abs()), id, mode)
    {
      if mode == Disabled {
        return ERR_FAIL;
      }
      var p := FindByIdFast(id);
      if p == 0 || p !in ts {
        return ERR_FAIL;
      }
      Arm(p, mode);
      r := ERR_OK;
    }

    method Arm(p: Ptr, mode: Mode)
      requires Valid() && p in ts
      modifies this
      ensures Valid() && Abs() == Link(Stop(old(Abs()), p), p, Armed(old(ts[p]), mode, now, |log|))
    {
      ghost var s1 := Stop(Abs(), p);
      ghost var t := ts[p];
      if ts[p].mode != Disabled {
        RemoveItemByData(p);
      }
      assert Abs() == s1;
      ts := ts[p := Armed(ts[p], mode, now, |log|)];
      LinkTwice(s1, p, Armed(t, mode, now, |log|));
      SortedInsert(p);
    }

    /** `mo_timer_cancel` */
    method Cancel(id: nat) returns (r: int)
      requires Valid()
      modifies this
      ensures Valid() && (Abs(), r) == TimerSpec.Cancel(old(Abs()), id)
    {
      var p := FindByIdFast(id);
      if p == 0 || p !in ts || ts[p].mode == Disabled {
        return ERR_FAIL;
      }
      RemoveItemByData(p);
      ts := ts[p := ts[p].(mode := Disabled)];
      r := ERR_OK;
    }

    /** `mo_timer_destroy` */
    method Destroy(id: nat) returns (r: int)
      requires Valid()
      modifies this
      ensures (Abs(), r) == TimerSpec.Destroy(old(Abs()), id)
      ensures old(exists pending :: TimerLaws.Inv(Abs(), pending) && TimerLaws.Lookup(Abs(), id) !in pending) ==> Valid()
    {
      hide FreeSlots, Give, Find, CacheClear, Stop, RemoveAt, TimerLaws.Inv, TimerLaws.Lookup, Scan;
      ghost var s := Abs();
      if pending :| TimerLaws.Inv(s, pending) && TimerLaws.Lookup(s, id) !in pending { DestroyWf(s, id, pending); }
      var i := FindNodeById(id);
      if i == |master| {
        return ERR_FAIL;
      }
      Discard(i);
      r := ERR_OK;
    }

    /** Unlinks a timer from both lists and the cache and frees it. */
    method Discard(i: nat)
      requires Valid() && i < |master|
      modifies this
      ensures var s, c := old(Abs()), old(master[i]);
        var s' := Stop(s, c.timer);
        Abs() == s'.(ts := s.ts - {c.timer}, master := RemoveAt(s.master, i), free := Give(s'.free, c.node),
                     cache := CacheClear(s.cache, c.timer))
      ensures masterLength == |master| && activeLength == |active|
    {
      hide FreeSlots, Give, Find, CacheClear;
      var cell := master[i];
      var p := cell.timer;
      if ts[p].mode != Disabled {
        RemoveItemByData(p);
      }
      CacheForget(p);
      master := master[..i] + master[i + 1..];
      masterLength := masterLength - 1;
      ts := ts - {p};
      ReturnTimerNode(cell.node);
    }

    /** The callback and the reload of one expired timer. */
    method Process(p: Ptr)
      requires Valid() && p in ts
      modifies this
      ensures Valid() && Abs() == FireOne(old(Abs()), p)
    {
      ghost var s := Abs();
      var t := ts[p];
      log := log + [Fire(p, now, t.deadline)];
      if t.mode == AutoReload {
        ts := ts[p := Reloaded(t)];
        LinkTwice(s.(log := log), p, Reloaded(t));
        SortedInsert(p);
      } else {
        ts := ts[p := t.(mode := Disabled, fired := t.fired + 1)];
      }
    }

    method PopFirst()
      requires Valid() && active != []
      modifies this`active, this`activeLength, this`poolFreeMask
      ensures Valid() && Abs() == Unlink(old(Abs()), 0) && active == old(active)[1..]
    {
      hide FreeSlots, Give;
      var n := active[0].node;
      active := active[1..];
      activeLength := activeLength - 1;
      ReturnTimerNode(n);
    }

    /** The collection loop of the handler. */
    method CollectExpired() returns (expired: seq<Ptr>)
      requires Valid()
      modifies this`active, this`activeLength, this`poolFreeMask
      ensures Valid()
      ensures var n := BatchSize(old(active), ts, now, BATCH);
        Abs() == Collect(old(Abs()), n) && expired == Ptrs(old(active)[..n])
    {
      hide FreeSlots, Unlink, Ptrs, Collect, BatchSize, Collecting;
      expired := [];
      ghost var n, s := BatchSize(active, ts, now, BATCH), Abs();
      ghost var rest := n;
      CollectStart(s);
      while activeLength != 0 && |expired| < BATCH
        invariant Valid() && |expired| <= BATCH && s.ts == ts && s.now == now
        invariant Collecting(s, Abs(), expired, n, rest)
      {
        var cell := active[0];
        if now < ts[cell.timer].deadline {
          break;
        }
        CollectNext(s, Abs(), expired, n, rest);
        expired := expired + [cell.timer];
        PopFirst();
        rest := rest - 1;
      }
      CollectEnd(s, Abs(), expired, n, rest);
    }

    /** `_timer_tick_handler` */
    method TickHandler()
      requires Valid()
      modifies this
      ensures Valid() && Abs() == Handler(old(Abs()))
    {
      hide FreeSlots, FireOne, FireAll, Collect, BatchSize, Ptrs;
      if activeLength == 0 {
        CollectDone(Abs(), BATCH);
        FireAllDone(Abs());
        return;
      }
      var expired := CollectExpired();
      ghost var s := Abs();
      var i := 0;
      BatchKnown(old(Abs()));
      while i < |expired|
        invariant 0 <= i <= |expired| && Valid()
        invariant forall p :: p in expired ==> p in ts
        invariant FireAll(Abs(), expired[i..]) == FireAll(s, expired)
      {
        FireAllStep(Abs(), expired, i);
        Process(expired[i]);
        i := i + 1;
      }
      FireAllDone(Abs());
    }
  }

  lemma CollectStep(s: Sys, room: nat)
    requires Wf(s) && s.active != [] && room > 0 && s.ts[s.active[0].timer].deadline <= s.now
    ensures var n, s1 := BatchSize(s.active, s.ts, s.now, room), Unlink(s, 0);
      && n > 0 && s1.ts == s.ts && s1.now == s.now && s1.active == s.active[1..]
      && BatchSize(s1.active, s1.ts, s1.now, room - 1) == n - 1 && Collect(s1, n - 1) == Collect(s, n)
  {
    FirstGone(s);
    hide Unlink, Wf;
  }

  lemma FirstGone(s: Sys)
    requires s.active != []
    ensures var s1 := Unlink(s, 0); s1.ts == s.ts && s1.now == s.now && s1.active == s.active[1..]
  {
    assert RemoveAt(s.active, 0) == s.active[1..];
  }

  /** The loop has taken `expired` off the list of `s0` and will take `rest` more. */
  ghost predicate Collecting(s0: Sys, s: Sys, expired: seq<Ptr>, n: nat, rest: nat) {
    && Wf(s0) && Wf(s) && |expired| <= BATCH && n == BatchSize(s0.active, s0.ts, s0.now, BATCH)
    && rest == BatchSize(s.active, s.ts, s.now, BATCH - |expired|)
    && Collect(s, rest) == Collect(s0, n) && expired + Ptrs(s.active[..rest]) == Ptrs(s0.active[..n])
  }

  lemma CollectStart(s: Sys)
    requires Wf(s)
    ensures var n := BatchSize(s.active, s.ts, s.now, BATCH); Collecting(s, s, [], n, n)
  {
    hide BatchSize, Collect, Ptrs;
    var n := BatchSize(s.active, s.ts, s.now, BATCH);
    assert [] + Ptrs(s.active[..n]) == Ptrs(s.active[..n]);
  }

  lemma CollectNext(s0: Sys, s: Sys, expired: seq<Ptr>, n: nat, rest: nat)
    requires Collecting(s0, s, expired, n, rest) && |expired| < BATCH
    requires s.active != [] && s.ts[s.active[0].timer].deadline <= s.now
    ensures rest > 0 && Collecting(s0, Unlink(s, 0), expired + [s.active[0].timer], n, rest - 1)
  {
    hide BatchSize, Collect, Ptrs, Unlink, Wf, RemoveAt;
    CollectStep(s, BATCH - |expired|);
    PtrsFirst(s.active, rest);
    MoveOne(expired, s.active[0].timer, Ptrs(s.active[1..][..rest - 1]));
  }

  lemma MoveOne(a: seq<Ptr>, p: Ptr, b: seq<Ptr>)
    ensures a + ([p] + b) == a + [p] + b
  {
  }

  lemma CollectEnd(s0: Sys, s: Sys, expired: seq<Ptr>, n: nat, rest: nat)
    requires Collecting(s0, s, expired, n, rest)
    requires |expired| == BATCH || s.active == [] || s.now < s.ts[s.active[0].timer].deadline
    ensures s == Collect(s0, n) && expired == Ptrs(s0.active[..n])
  {
    CollectDone(s, BATCH - |expired|);
    hide BatchSize, Collect, Ptrs;
  }

  lemma CollectDone(s: Sys, room: nat)
    requires Wf(s) && (room == 0 || s.active == [] || s.now < s.ts[s.active[0].timer].deadline)
    ensures BatchSize(s.active, s.ts, s.now, room) == 0 && Collect(s, 0) == s && Ptrs(s.active[..0]) == []
  {
  }

  lemma BatchKnown(s: Sys)
    requires Wf(s)
    ensures forall p :: p in Ptrs(s.active[..BatchSize(s.active, s.ts, s.now, BATCH)]) ==> p in s.ts
  {
  }

  lemma FireAllStep(s: Sys, ps: seq<Ptr>, i: nat)
    requires Wf(s) && i < |ps| && forall p :: p in ps ==> p in s.ts
    ensures FireOne(s, ps[i]).ts.Keys == s.ts.Keys
    ensures FireAll(s, ps[i..]) == FireAll(FireOne(s, ps[i]), ps[i + 1..])
  {
  }

  lemma FireAllDone(s: Sys)
    requires Wf(s)
    ensures FireAll(s, []) == s
  {
  }

  /** Setting the fields of a timer before linking it is the same as linking it with them. */
  lemma LinkTwice(s: Sys, p: Ptr, t: Timer)
    requires (forall c :: c in s.active ==> c.timer in s.ts) && p in s.ts
    ensures Link(s.(ts := s.ts[p := t]), p, t) == Link(s, p, t)
  {
    assert s.ts[p := t][p := t.(stamp := s.stamp)] == s.ts[p := t.(stamp := s.stamp)];
  }

  lemma DestroyWf(s: Sys, id: nat, pending: set<Ptr>)
    requires TimerLaws.Inv(s, pending) && Wf(s) && TimerLaws.Lookup(s, id) !in pending
    ensures Wf(TimerSpec.Destroy(s, id).0)
  {
    TimerLaws.DestroyKeeps(s, id, pending);
    TimerLaws.CoreWf(TimerSpec.Destroy(s, id).0, pending);
  }

  lemma PtrsFirst(cells: seq<Cell>, n: nat)
    requires 0 < n <= |cells|
    ensures Ptrs(cells[..n]) == [cells[0].timer] + Ptrs(cells[1..][..n - 1])
    ensures RemoveAt(cells, 0) == cells[1..]
  {
  }
}
