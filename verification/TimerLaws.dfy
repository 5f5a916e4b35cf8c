/** What every timer operation keeps. */
module TimerLaws {
  import opened TimerLists
  import opened TimerSpec

  ghost function Running(ts: Timers): set<Ptr> {
    set p | p in ts && ts[p].mode != Disabled
  }

  /** Both lists are sorted, ties of the active list stand in insertion order, and no timer is in a
      list twice. */
  ghost predicate Orders(s: Sys) {
    && Known(s.master, s.ts) && Known(s.active, s.ts)
    && Sorted(s.master, s.ts, ById) && Sorted(s.active, s.ts, ByDeadline) && FifoTies(s.active, s.ts)
    && Unique(s.master) && Unique(s.active)
  }

  /** The master list holds every timer; the active list holds the timers that are not disabled,
      except those in `pending`, which the handler has taken off and not yet processed. */
  ghost predicate Members(s: Sys, pending: set<Ptr>) {
    && Listed(s.master) == s.ts.Keys
    && Listed(s.active) + pending == Running(s.ts)
    && Listed(s.active) !! pending
  }

  ghost predicate Linkage(s: Sys) {
    && NodesUnique(s.master) && NodesUnique(s.active)
    && NodesOk(Nodes(s.master), Nodes(s.active), s.free, s.nextNode)
  }

  ghost predicate Ids(s: Sys) {
    && (forall p :: p in s.ts ==> 0 < s.ts[p].id < s.nextId && s.ts[p].stamp < s.stamp)
    && (forall p, q :: p in s.ts && q in s.ts && s.ts[p].id == s.ts[q].id ==> p == q)
    && 0 < s.nextId && 0 < s.stamp
  }

  /** A filled cache entry names a live timer with that identifier. */
  ghost predicate CacheOk(s: Sys) {
    && |s.cache| == CACHE_SIZE && s.cacheIndex < CACHE_SIZE
    && forall e :: e in s.cache && e.timer > 0 ==> e.timer in s.ts && s.ts[e.timer].id == e.id
  }

  /** Drift-free timing of a timer that runs: after `fired` firings its deadline is the start plus
      `fired + 1` periods, and at most one period ahead. */
  ghost predicate TimeOk(t: Timer, now: nat) {
    t.mode != Disabled ==>
      && t.deadline == t.expected && t.started <= now
      && t.deadline == t.started + (t.fired + 1) * Ticks(t.periodMs)
      && t.deadline <= now + Ticks(t.periodMs)
      && (t.mode == OneShot ==> t.fired == 0)
  }

  ghost predicate Times(s: Sys) {
    forall p :: p in s.ts ==> TimeOk(s.ts[p], s.now)
  }

  /** All of the timer state but the log of callbacks. */
  ghost predicate Core(s: Sys, pending: set<Ptr>) {
    Orders(s) && Members(s, pending) && Linkage(s) && Ids(s) && CacheOk(s) && Times(s)
  }

  /** The callbacks of one timer. */
  ghost function Of(log: seq<Fire>, p: Ptr): seq<Fire> {
    if log == [] then []
    else Of(log[..|log| - 1], p) + if log[|log| - 1].timer == p then [log[|log| - 1]] else []
  }

  /** Since its last start the timer has called back `fired` times, the k-th time for the deadline k periods
      after the start. */
  ghost predicate FiredOk(log: seq<Fire>, p: Ptr, t: Timer) {
    && t.since <= |log|
    && var es := Of(log[t.since..], p);
      |es| == t.fired && forall k :: 0 <= k < |es| ==> es[k].due == t.started + (k + 1) * Ticks(t.periodMs)
  }

  /** No callback ever ran before its deadline, and the callbacks of running timers are on time. */
  ghost predicate Logs(s: Sys) {
    && (forall e :: e in s.log ==> e.due <= e.at)
    && forall p :: p in s.ts && s.ts[p].mode != Disabled ==> FiredOk(s.log, p, s.ts[p])
  }

  ghost predicate Inv(s: Sys, pending: set<Ptr>) {
    Core(s, pending) && Logs(s)
  }

  /** At most timer `p` (0 for none) differs, and nothing has fired. */
  ghost predicate OnlyAt(s: Sys, s': Sys, p: nat) {
    && s'.log == s.log && s'.now == s.now
    && (forall q :: q in s.ts && q != p ==> q in s'.ts && s'.ts[q] == s.ts[q])
    && (forall q :: q in s'.ts && q != p ==> q in s.ts)
  }

  lemma LogsOnlyAt(s: Sys, s': Sys, p: nat)
    requires Logs(s) && OnlyAt(s, s', p)
    requires p > 0 && p in s'.ts && s'.ts[p].mode != Disabled ==> FiredOk(s.log, p, s'.ts[p])
    ensures Logs(s')
  {
    hide FiredOk;
  }

  lemma CoreWf(s: Sys, pending: set<Ptr>)
    requires Core(s, pending)
    ensures Wf(s) && Known(s.master, s.ts) && Unique(s.active)
  {
  }

  // ----- taking a node off the active list

  lemma UnlinkOrders(s: Sys, i: nat)
    requires Orders(s) && i < |s.active|
    ensures Orders(Unlink(s, i))
  {
    RemoveOrder(s.active, s.ts, ByDeadline, i);
    RemoveMembers(s.active, i);
  }

  lemma UnlinkMembers(s: Sys, i: nat, pending: set<Ptr>)
    requires Orders(s) && Members(s, pending) && i < |s.active|
    ensures Members(Unlink(s, i), pending + {s.active[i].timer})
  {
    RemoveListed(s.active, i);
    assert s.active[i] in s.active;
  }

  lemma UnlinkLinkage(s: Sys, i: nat)
    requires Linkage(s) && i < |s.active|
    ensures Linkage(Unlink(s, i))
  {
    RemoveNodes(s.active, i);
    assert s.active[i] in s.active;
    GiveKeeps(Nodes(s.master), Nodes(s.active), s.free, s.nextNode, s.active[i].node);
  }

  lemma UnlinkKeeps(s: Sys, i: nat, pending: set<Ptr>)
    requires Core(s, pending) && i < |s.active|
    ensures Core(Unlink(s, i), pending + {s.active[i].timer})
  {
    UnlinkOrders(s, i);
    UnlinkMembers(s, i, pending);
    UnlinkLinkage(s, i);
  }

  // ----- changing a timer that is not in the active list

  /** `ts'` is `ts` with timer `p` replaced by `t`, which has the same identifier. */
  lemma RewriteOrders(s: Sys, p: Ptr, t: Timer)
    requires Orders(s) && p in s.ts && t.id == s.ts[p].id && p !in Listed(s.active)
    ensures Orders(s.(ts := s.ts[p := t]))
  {
  }

  lemma RewriteIds(s: Sys, p: Ptr, t: Timer)
    requires Ids(s) && p in s.ts && t.id == s.ts[p].id && t.stamp < s.stamp
    ensures Ids(s.(ts := s.ts[p := t]))
  {
  }

  lemma DisableKeeps(s: Sys, p: Ptr, pending: set<Ptr>, t: Timer)
    requires Core(s, pending) && p in s.ts && p !in Listed(s.active)
    requires t.id == s.ts[p].id && t.stamp == s.ts[p].stamp && t.mode == Disabled
    ensures Core(s.(ts := s.ts[p := t]), pending - {p})
  {
    RewriteOrders(s, p, t);
    RewriteIds(s, p, t);
  }

  lemma LinkOrders(s: Sys, p: Ptr, t: Timer)
    requires Orders(s) && Ids(s) && p in s.ts && t.id == s.ts[p].id && p !in Listed(s.active)
    ensures Orders(Link(s, p, t))
  {
    var t' := t.(stamp := s.stamp);
    var ts := s.ts[p := t'];
    var c := Cell(Take(s.free, s.nextNode).0, p);
    RewriteOrders(s, p, t');
    assert Orders(s.(ts := ts));
    forall d | d in s.active ensures d.timer != p && ts[d.timer].stamp < t'.stamp {
      assert d.timer in Listed(s.active);
    }
    InsertSorted(s.active, ts, ByDeadline, c);
    InsertFifo(s.active, ts, c);
    InsertUnique(s.active, ts, ByDeadline, c);
  }

  lemma LinkMembers(s: Sys, p: Ptr, t: Timer, pending: set<Ptr>)
    requires Orders(s) && Members(s, pending) && p in s.ts && p !in Listed(s.active) && t.mode != Disabled
    ensures Members(Link(s, p, t), pending - {p})
  {
    var ts := s.ts[p := t.(stamp := s.stamp)];
    InsertListed(s.active, ts, ByDeadline, Cell(Take(s.free, s.nextNode).0, p));
    assert Running(ts) == Running(s.ts) + {p};
  }

  lemma LinkLinkage(s: Sys, p: Ptr, t: Timer)
    requires Orders(s) && Linkage(s) && p in s.ts
    ensures Linkage(Link(s, p, t))
  {
    TakeKeeps(Nodes(s.master), Nodes(s.active), s.free, s.nextNode);
    var n := Take(s.free, s.nextNode).0;
    InsertNodes(s.active, s.ts[p := t.(stamp := s.stamp)], ByDeadline, Cell(n, p));
  }

  lemma LinkIds(s: Sys, p: Ptr, t: Timer)
    requires Orders(s) && Ids(s) && p in s.ts && t.id == s.ts[p].id
    ensures Ids(Link(s, p, t))
  {
  }

  /** Arming a timer that is not in the active list. */
  lemma LinkKeeps(s: Sys, p: Ptr, t: Timer, pending: set<Ptr>)
    requires Core(s, pending) && p in s.ts && p !in Listed(s.active)
    requires t.id == s.ts[p].id && t.mode != Disabled && TimeOk(t, s.now)
    ensures Core(Link(s, p, t), pending - {p})
  {
    LinkOrders(s, p, t);
    LinkMembers(s, p, t, pending);
    LinkLinkage(s, p, t);
    LinkIds(s, p, t);
    LinkRest(s, p, t);
  }

  lemma LinkRest(s: Sys, p: Ptr, t: Timer)
    requires Orders(s) && CacheOk(s) && Times(s)
    requires p in s.ts && t.id == s.ts[p].id && TimeOk(t, s.now)
    ensures CacheOk(Link(s, p, t)) && Times(Link(s, p, t))
  {
  }

  /** Stopping a timer that the handler does not hold takes it off the active list. */
  lemma StopKeeps(s: Sys, p: Ptr, pending: set<Ptr>)
    requires Core(s, pending) && p in s.ts && p !in pending
    ensures Core(Stop(s, p), if s.ts[p].mode != Disabled then pending + {p} else pending)
    ensures Stop(s, p).ts == s.ts && p !in Listed(Stop(s, p).active) && OnlyAt(s, Stop(s, p), 0)
  {
    if s.ts[p].mode != Disabled {
      assert p in Running(s.ts) && p in Listed(s.active);
      var c :| c in s.active && c.timer == p;
      var i := Find(s.active, p);
      UnlinkKeeps(s, i, pending);
      RemoveListed(s.active, i);
    }
  }

  // ----- lookup

  lemma {:induction false} ScanSortedIsScan(master: seq<Cell>, ts: Timers, id: nat)
    requires Known(master, ts) && Sorted(master, ts, ById)
    ensures ScanSorted(master, ts, id) == Scan(master, ts, id)
  {
    if master != [] && ts[master[0].timer].id != id {
      if ts[master[0].timer].id > id {
        assert forall i :: 0 <= i < |master| ==> Key(ts[master[i].timer], ById) > id;
      } else {
        ScanSortedIsScan(master[1..], ts, id);
      }
    }
  }

  /** The timer a plain scan of the master list finds, 0 for none. */
  ghost function Lookup(s: Sys, id: nat): nat
    requires Known(s.master, s.ts)
  {
    var i := Scan(s.master, s.ts, id);
    if i < |s.master| then s.master[i].timer else 0
  }

  /** There is a timer with the identifier exactly if the scan finds it. */
  lemma LookupFinds(s: Sys, pending: set<Ptr>, p: Ptr)
    requires Core(s, pending) && p in s.ts
    ensures Lookup(s, s.ts[p].id) == p
  {
  }

  lemma {:induction false} CacheFindUnique(cache: seq<CacheEntry>, id: nat, p: Ptr)
    requires CacheEntry(id, p) in cache && forall e :: e in cache && e.timer > 0 && e.id == id ==> e.timer == p
    ensures CacheFind(cache, id) == p
  {
    if !(cache[0].id == id && cache[0].timer > 0) {
      assert cache == [cache[0]] + cache[1..];
      CacheFindUnique(cache[1..], id, p);
    } else {
      assert cache[0] in cache;
    }
  }

  lemma CachedAfterAdd(s: Sys, pending: set<Ptr>, id: nat, p: Ptr)
    requires Core(s, pending) && p in s.ts && s.ts[p].id == id
    ensures CacheFind(CacheAdd(s, id, p).cache, id) == p
  {
    CacheAddKeeps(s, pending, id, p);
    var s' := CacheAdd(s, id, p);
    assert s'.cache[s.cacheIndex] == CacheEntry(id, p);
    assert CacheOk(s') && Ids(s');
    CacheFindUnique(s'.cache, id, p);
  }

  /** A timer that a lookup has found is answered from the cache next time, and such an answer changes nothing. */
  lemma FoundIsCached(s: Sys, pending: set<Ptr>, id: nat)
    requires Core(s, pending) && Wf(s)
    ensures var (s', p) := FindFast(s, id); p > 0 ==> CacheFind(s'.cache, id) == p
    ensures CacheFind(s.cache, id) > 0 ==> FindFast(s, id) == (s, CacheFind(s.cache, id))
  {
    assert CacheOk(s);
    hide Core, CacheAdd;
    FindFastIsScan(s, pending, id);
    var p := FindFast(s, id).1;
    if p > 0 {
      CachedAfterAdd(s, pending, id, p);
    }
  }

  /** `n` additions ago, fewer than four, `e` was added. */
  ghost predicate Remembered(s: Sys, e: CacheEntry, n: nat) {
    && |s.cache| == 4 && s.cacheIndex < 4 && n < 4
    && s.cache[if s.cacheIndex + 3 - n < 4 then s.cacheIndex + 3 - n else s.cacheIndex - 1 - n] == e
  }

  /** The cache keeps the last four timers that were added. */
  lemma LastFourCached(s: Sys, id: nat, p: Ptr, e: CacheEntry, n: nat)
    requires Wf(s)
    ensures Remembered(CacheAdd(s, id, p), CacheEntry(id, p), 0)
    ensures Remembered(s, e, n) && n < 3 ==> Remembered(CacheAdd(s, id, p), e, n + 1)
    ensures Remembered(s, e, n) ==> e in s.cache
  {
  }

  lemma CacheAddKeeps(s: Sys, pending: set<Ptr>, id: nat, p: Ptr)
    requires Core(s, pending) && p in s.ts && s.ts[p].id == id
    ensures Core(CacheAdd(s, id, p), pending)
  {
  }

  /** Lookup through the cache returns what a plain scan returns, and keeps the invariant. */
  lemma FindFastIsScan(s: Sys, pending: set<Ptr>, id: nat)
    requires Core(s, pending)
    ensures Wf(s) && FindFast(s, id).1 == Lookup(s, id)
    ensures Core(FindFast(s, id).0, pending)
    ensures FindFast(s, id).0 == s.(cache := FindFast(s, id).0.cache, cacheIndex := FindFast(s, id).0.cacheIndex)
    ensures FindFast(s, id).1 > 0 ==> FindFast(s, id).1 in s.ts && s.ts[FindFast(s, id).1].id == id
  {
    var p := CacheFind(s.cache, id);
    if p > 0 {
      LookupFinds(s, pending, p);
    } else {
      ScanSortedIsScan(s.master, s.ts, id);
      var i := Scan(s.master, s.ts, id);
      if i < |s.master| {
        assert s.master[i] in s.master;
        CacheAddKeeps(s, pending, id, s.master[i].timer);
      }
    }
  }

  // ----- create and destroy

  lemma CreateOrders(s: Sys, p: Ptr, t: Timer, n: nat)
    requires Orders(s) && Ids(s) && p !in s.ts && t.id == s.nextId
    ensures var ts := s.ts[p := t];
      Known(s.master, ts) && Known(s.active, ts) &&
      Orders(s.(ts := ts, master := Insert(s.master, ts, ById, Cell(n, p))))
  {
    var ts := s.ts[p := t];
    forall c | c in s.master ensures c.timer != p { assert c.timer in s.ts; }
    InsertSorted(s.master, ts, ById, Cell(n, p));
    InsertUnique(s.master, ts, ById, Cell(n, p));
  }

  /** The system without the cache entry that `mo_timer_create` adds last. */
  ghost function Added(s: Sys, p: Ptr, periodMs: nat): Sys
    requires Known(s.master, s.ts)
  {
    var (n, free, next) := Take(s.free, s.nextNode);
    var ts := s.ts[p := Fresh(s.nextId, periodMs)];
    s.(ts := ts, master := Insert(s.master, ts, ById, Cell(n, p)), free := free, nextNode := next,
       nextId := s.nextId + 1)
  }

  lemma AddedMembers(s: Sys, p: Ptr, periodMs: nat, pending: set<Ptr>)
    requires Core(s, pending) && p !in s.ts
    ensures Members(Added(s, p, periodMs), pending) && Linkage(Added(s, p, periodMs))
  {
    var ts := s.ts[p := Fresh(s.nextId, periodMs)];
    var c := Cell(Take(s.free, s.nextNode).0, p);
    TakeKeeps(Nodes(s.master), Nodes(s.active), s.free, s.nextNode);
    InsertNodes(s.master, ts, ById, c);
    InsertListed(s.master, ts, ById, c);
    assert Running(ts) == Running(s.ts);
  }

  lemma AddedRest(s: Sys, p: Ptr, periodMs: nat)
    requires Known(s.master, s.ts) && Ids(s) && CacheOk(s) && Times(s) && p !in s.ts
    ensures var s' := Added(s, p, periodMs); Ids(s') && CacheOk(s') && Times(s')
  {
  }

  lemma AddedKeeps(s: Sys, p: Ptr, periodMs: nat, pending: set<Ptr>)
    requires Core(s, pending) && p !in s.ts
    ensures Known(s.master, s.ts) && Core(Added(s, p, periodMs), pending)
  {
    CreateOrders(s, p, Fresh(s.nextId, periodMs), Take(s.free, s.nextNode).0);
    AddedMembers(s, p, periodMs, pending);
    AddedRest(s, p, periodMs);
  }

  /** `mo_timer_create` fails exactly for a zero period; else it adds just the timer, disabled, under the next
      identifier, which it returns. */
  lemma CreateKeeps(s: Sys, p: Ptr, periodMs: nat, pending: set<Ptr>)
    requires Inv(s, pending) && p !in s.ts
    ensures Wf(s) && Inv(Create(s, p, periodMs).0, pending)
    ensures Create(s, p, periodMs).1 == if periodMs == 0 then -1 else s.nextId
    ensures Create(s, p, periodMs).0.ts == if periodMs == 0 then s.ts else s.ts[p := Fresh(s.nextId, periodMs)]
    ensures periodMs > 0 ==> var t := Create(s, p, periodMs).0.ts[p];
      t.id == s.nextId && t.periodMs == periodMs && t.mode == Disabled && Create(s, p, periodMs).0.nextId == s.nextId + 1
    ensures OnlyAt(s, Create(s, p, periodMs).0, p)
  {
    hide Core, Logs;
    CoreWf(s, pending);
    if periodMs > 0 {
      AddedKeeps(s, p, periodMs, pending);
      CacheAddKeeps(Added(s, p, periodMs), pending, s.nextId, p);
    }
    LogsOnlyAt(s, Create(s, p, periodMs).0, p);
  }

  /** Dropping a disabled timer from the master list, the cache and memory. */
  ghost function Dropped(s: Sys, i: nat): Sys
    requires i < |s.master|
  {
    var c := s.master[i];
    s.(ts := s.ts - {c.timer}, master := RemoveAt(s.master, i), free := Give(s.free, c.node),
       cache := CacheClear(s.cache, c.timer))
  }

  lemma DroppedOrders(s: Sys, i: nat)
    requires Orders(s) && i < |s.master| && s.master[i].timer !in Listed(s.active)
    ensures Orders(Dropped(s, i))
  {
  }

  lemma DroppedMembers(s: Sys, i: nat, pending: set<Ptr>)
    requires Orders(s) && Members(s, pending) && Linkage(s) && i < |s.master|
    requires s.master[i].timer !in Listed(s.active)
    ensures Members(Dropped(s, i), pending - {s.master[i].timer}) && Linkage(Dropped(s, i))
  {
    RemoveListed(s.master, i);
    RemoveNodes(s.master, i);
    assert s.master[i] in s.master;
    GiveKeeps(Nodes(s.master), Nodes(s.active), s.free, s.nextNode, s.master[i].node);
    assert Running(s.ts - {s.master[i].timer}) == Running(s.ts) - {s.master[i].timer};
  }

  lemma DroppedRest(s: Sys, i: nat)
    requires Ids(s) && CacheOk(s) && Times(s) && i < |s.master|
    ensures var s' := Dropped(s, i); Ids(s') && CacheOk(s') && Times(s')
  {
    var s', p := Dropped(s, i), s.master[i].timer;
    forall e | e in s'.cache && e.timer > 0 ensures e.timer in s'.ts && s'.ts[e.timer].id == e.id {
      var j :| 0 <= j < |s'.cache| && s'.cache[j] == e;
      assert s.cache[j] in s.cache;
    }
  }

  lemma DropKeeps(s: Sys, i: nat, pending: set<Ptr>)
    requires Core(s, pending) && i < |s.master| && s.master[i].timer !in Listed(s.active)
    ensures Core(Dropped(s, i), pending - {s.master[i].timer})
  {
    DroppedOrders(s, i);
    DroppedMembers(s, i, pending);
    DroppedRest(s, i);
  }

  lemma DestroyIsDrop(s: Sys, i: nat, p: Ptr, pending: set<Ptr>)
    requires Core(s, pending) && i < |s.master| && p == s.master[i].timer && p in s.ts && p !in pending
    ensures Core(Dropped(Stop(s, p), i), pending)
  {
    hide Core;
    StopKeeps(s, p, pending);
    var held := if s.ts[p].mode != Disabled then pending + {p} else pending;
    DropKeeps(Stop(s, p), i, held);
    assert held - {p} == pending;
  }

  lemma LookupKnown(s: Sys, id: nat, pending: set<Ptr>)
    requires Core(s, pending)
    ensures Wf(s) && var i := Scan(s.master, s.ts, id); i < |s.master| ==> s.master[i].timer in s.ts
  {
    var i := Scan(s.master, s.ts, id);
    if i < |s.master| { assert s.master[i] in s.master; }
  }

  /** `mo_timer_destroy` of a timer the handler does not hold succeeds exactly for a known identifier and
      removes just that timer. */
  lemma DestroyKeeps(s: Sys, id: nat, pending: set<Ptr>)
    requires Inv(s, pending) && Wf(s) && Lookup(s, id) !in pending
    ensures Inv(Destroy(s, id).0, pending)
    ensures Destroy(s, id).1 == if Lookup(s, id) > 0 then ERR_OK else ERR_FAIL
    ensures Destroy(s, id).0.ts == s.ts - {Lookup(s, id)} && OnlyAt(s, Destroy(s, id).0, Lookup(s, id))
  {
    hide Core, Logs;
    LookupKnown(s, id, pending);
    var i := Scan(s.master, s.ts, id);
    if i < |s.master| { DestroyIsDrop(s, i, s.master[i].timer, pending); }
    LogsOnlyAt(s, Destroy(s, id).0, Lookup(s, id));
  }

  // ----- start, cancel and time

  lemma ArmedTime(t: Timer, mode: Mode, now: nat, since: nat)
    ensures TimeOk(Armed(t, mode, now, since), now)
  {
  }

  lemma RestartKeeps(s: Sys, p: Ptr, mode: Mode, pending: set<Ptr>)
    requires Core(s, pending) && p in s.ts && p !in pending && mode != Disabled
    ensures Wf(s) && Core(Link(Stop(s, p), p, Armed(s.ts[p], mode, s.now, |s.log|)), pending)
    ensures OnlyAt(s, Link(Stop(s, p), p, Armed(s.ts[p], mode, s.now, |s.log|)), p)
  {
    hide Core;
    CoreWf(s, pending);
    StopKeeps(s, p, pending);
    ArmedTime(s.ts[p], mode, s.now, |s.log|);
    var held := if s.ts[p].mode != Disabled then pending + {p} else pending;
    LinkKeeps(Stop(s, p), p, Armed(s.ts[p], mode, s.now, |s.log|), held);
    assert held - {p} == pending;
  }

  /** A timer that has just been started has not called back since. */
  lemma ArmedFired(log: seq<Fire>, p: Ptr, t: Timer, mode: Mode, now: nat)
    ensures FiredOk(log, p, Armed(t, mode, now, |log|))
  {
    assert log[|log|..] == [];
  }

  /** `mo_timer_start` of a timer the handler does not hold succeeds exactly for a known identifier and a
      running mode; it arms just that timer, one period from now, whether or not it was running. */
  lemma StartKeeps(s: Sys, id: nat, mode: Mode, pending: set<Ptr>)
    requires Inv(s, pending) && Wf(s) && Lookup(s, id) !in pending
    ensures Inv(Start(s, id, mode).0, pending)
    ensures Start(s, id, mode).1 == if mode != Disabled && Lookup(s, id) > 0 then ERR_OK else ERR_FAIL
    ensures Start(s, id, mode).1 == ERR_FAIL ==> Start(s, id, mode).0.ts == s.ts
    ensures OnlyAt(s, Start(s, id, mode).0, Lookup(s, id))
    ensures Start(s, id, mode).1 == ERR_OK ==>
      var p := Lookup(s, id);
      p in s.ts && p in Start(s, id, mode).0.ts
      && Start(s, id, mode).0.ts[p] == Armed(s.ts[p], mode, s.now, |s.log|).(stamp := s.stamp)
      && var t := Start(s, id, mode).0.ts[p];
        t.id == s.ts[p].id && t.periodMs == s.ts[p].periodMs && t.mode == mode && t.deadline == s.now + t.periodMs / 10
  {
    hide Core, Logs, FiredOk;
    FindFastIsScan(s, pending, id);
    var (s1, p) := FindFast(s, id);
    if mode != Disabled && p > 0 {
      RestartKeeps(s1, p, mode, pending);
      StopKeeps(s1, p, pending);
      ArmedFired(s.log, p, s1.ts[p].(stamp := s.stamp), mode, s.now);
      LogsOnlyAt(s, Start(s, id, mode).0, p);
    } else {
      LogsOnlyAt(s, Start(s, id, mode).0, 0);
    }
  }

  /** `mo_timer_cancel` of a timer the handler does not hold succeeds exactly if the timer exists and runs; it
      disables just that timer and takes it off the active list. */
  lemma CancelKeeps(s: Sys, id: nat, pending: set<Ptr>)
    requires Inv(s, pending) && Wf(s) && Lookup(s, id) !in pending
    ensures Inv(Cancel(s, id).0, pending)
    ensures Cancel(s, id).1 == ERR_OK <==> Lookup(s, id) > 0 && Lookup(s, id) in s.ts && s.ts[Lookup(s, id)].mode != Disabled
    ensures Cancel(s, id).1 == ERR_FAIL ==> Cancel(s, id).0.ts == s.ts
    ensures OnlyAt(s, Cancel(s, id).0, Lookup(s, id))
    ensures Cancel(s, id).1 == ERR_OK ==>
      var p := Lookup(s, id);
      && Cancel(s, id).0.ts == s.ts[p := s.ts[p].(mode := Disabled)]
      && p !in Listed(Cancel(s, id).0.active)
  {
    hide Core, Logs;
    FindFastIsScan(s, pending, id);
    var (s1, p) := FindFast(s, id);
    if p > 0 && s1.ts[p].mode != Disabled {
      StopKeeps(s1, p, pending);
      DisableKeeps(Stop(s1, p), p, pending + {p}, s1.ts[p].(mode := Disabled));
      assert pending + {p} - {p} == pending;
    }
    LogsOnlyAt(s, Cancel(s, id).0, Lookup(s, id));
  }

  lemma TickKeeps(s: Sys, pending: set<Ptr>)
    requires Inv(s, pending)
    ensures Inv(s.(now := s.now + 1), pending)
  {
  }
}
