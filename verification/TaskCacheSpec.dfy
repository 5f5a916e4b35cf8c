/** Task lookup through the four-entry cache of kernel/task.c, and the bookkeeping of spawn and
    cancel.  Addresses of control blocks may be reused after a cancel; identifiers do not wrap. */
module TaskCacheSpec {

  const CACHE_SIZE: nat := 4

  type Ptr = p: nat | p > 0 witness 1

  /** The part of a control block that lookup and cancel read. */
  datatype Tcb = Tcb(id: nat, running: bool)

  datatype Entry = Entry(id: nat, task: nat)

  /** `spawning` holds the blocks that are in the list but whose spawner has not cached them yet. */
  datatype Table = Table(tcbs: map<Ptr, Tcb>, list: seq<Ptr>, cache: seq<Entry>, index: nat,
                         nextTid: nat, count: int, spawning: multiset<Ptr>)

  datatype Code = Ok | NotFound | CantRemove

  ghost predicate Wf(s: Table) {
    |s.cache| == CACHE_SIZE && s.index < CACHE_SIZE && forall p :: p in s.list ==> p in s.tcbs
  }

  /** `is_valid_task`: every spawned task has a stack, an entry point and an identifier. */
  predicate ValidTask(s: Table, p: nat) {
    p > 0 && p in s.tcbs && s.tcbs[p].id != 0
  }

  function CacheTask(s: Table, id: nat, p: Ptr): Table
    requires s.index < |s.cache|
  {
    s.(cache := s.cache[s.index := Entry(id, p)], index := (s.index + 1) % CACHE_SIZE)
  }

  /** `cache_lookup_task` from entry `i` on; 0 is NULL. */
  function CacheLookup(s: Table, id: nat, i: nat): (p: nat)
    requires i <= |s.cache|
    ensures p > 0 ==> ValidTask(s, p) && Entry(id, p) in s.cache
    decreases |s.cache| - i
  {
    if i == |s.cache| then 0
    else if s.cache[i].id == id && ValidTask(s, s.cache[i].task) then
      assert s.cache[i] in s.cache; s.cache[i].task
    else CacheLookup(s, id, i + 1)
  }

  /** The node that carries `p`, and the node of the task with identifier `id`; `|list|` for none. */
  function NodeOf(list: seq<Ptr>, p: nat): (i: nat)
    ensures i <= |list| && (i < |list| ==> list[i] == p)
    ensures forall j :: 0 <= j < i ==> list[j] != p
  {
    if list == [] || list[0] == p then 0 else 1 + NodeOf(list[1..], p)
  }

  function Scan(list: seq<Ptr>, tcbs: map<Ptr, Tcb>, id: nat): (i: nat)
    requires forall p :: p in list ==> p in tcbs
    ensures i <= |list| && (i < |list| ==> tcbs[list[i]].id == id)
    ensures forall j :: 0 <= j < i ==> tcbs[list[j]].id != id
  {
    if list == [] || tcbs[list[0]].id == id then 0 else 1 + Scan(list[1..], tcbs, id)
  }

  /** `find_task_node_by_id`: the node index (`|list|` is NULL) and the cache it leaves behind. */
  function Find(s: Table, id: nat): (Table, nat)
    requires |s.cache| == CACHE_SIZE && s.index < CACHE_SIZE && forall p :: p in s.list ==> p in s.tcbs
  {
    if id == 0 then (s, |s.list|)
    else
      var cached := CacheLookup(s, id, 0);
      if cached > 0 && NodeOf(s.list, cached) < |s.list| then (s, NodeOf(s.list, cached))
      else
        var i := Scan(s.list, s.tcbs, id);
        (if i < |s.list| then CacheTask(s, id, s.list[i]) else s, i)
  }

  /** The critical section of `task_spawn_impl` for a control block at `p`. */
  function Register(s: Table, p: Ptr): Table {
    s.(tcbs := s.tcbs[p := Tcb(s.nextTid, false)], list := s.list + [p],
       nextTid := s.nextTid + 1, count := s.count + 1, spawning := s.spawning + multiset{p})
  }

  /** The `cache_task` after it, with the identifier then read in the block. */
  function Publish(s: Table, p: Ptr, seen: nat): Table
    requires s.index < |s.cache|
  {
    CacheTask(s.(spawning := s.spawning - multiset{p}), seen, p)
  }

  function Forget(cache: seq<Entry>, p: Ptr): (r: seq<Entry>)
    ensures |r| == |cache|
    ensures forall i :: 0 <= i < |cache| ==> r[i] == if cache[i].task == p then Entry(0, 0) else cache[i]
  {
    if cache == [] then []
    else [if cache[0].task == p then Entry(0, 0) else cache[0]] + Forget(cache[1..], p)
  }

  /** Removal of the task at node `i` from list, cache and memory. */
  function Drop(s: Table, i: nat): Table
    requires i < |s.list|
  {
    s.(tcbs := s.tcbs - {s.list[i]}, list := s.list[..i] + s.list[i + 1..],
       cache := Forget(s.cache, s.list[i]), count := s.count - 1)
  }

  /** `mo_task_cancel` called by the task with identifier `self`. */
  function Cancel(s: Table, id: nat, self: nat): (Table, Code)
    requires |s.cache| == CACHE_SIZE && s.index < CACHE_SIZE && forall p :: p in s.list ==> p in s.tcbs
  {
    if id == 0 || id == self then (s, CantRemove)
    else
      var (s1, i) := Find(s, id);
      if i == |s.list| then (s1, NotFound)
      else if s.tcbs[s.list[i]].running then (s1, CantRemove)
      else (Drop(s1, i), Ok)
  }

  // ----- the invariant

  ghost predicate Distinct(list: seq<Ptr>) {
    forall i, j :: 0 <= i < j < |list| ==> list[i] != list[j]
  }

  ghost predicate Inv(s: Table) {
    && Wf(s) && Distinct(s.list) && s.count == |s.list| && s.nextTid > 0
    && (forall p :: p in s.tcbs <==> p in s.list)
    && (forall p :: p in s.tcbs ==> 0 < s.tcbs[p].id < s.nextTid)
    && (forall p, q :: p in s.tcbs && q in s.tcbs && s.tcbs[p].id == s.tcbs[q].id ==> p == q)
    && CacheOk(s) && forall p :: p in s.spawning ==> p in s.tcbs
  }

  /** A filled cache entry names a task of the list with that identifier. */
  ghost predicate CacheOk(s: Table) {
    forall e :: e in s.cache && e.task > 0 ==> e.task in s.tcbs && s.tcbs[e.task].id == e.id
  }

  lemma CacheTaskKeeps(s: Table, id: nat, p: Ptr)
    requires Inv(s) && p in s.tcbs && s.tcbs[p].id == id
    ensures Inv(CacheTask(s, id, p))
  {
    var s' := CacheTask(s, id, p);
    forall e | e in s'.cache && e.task > 0 ensures e.task in s'.tcbs && s'.tcbs[e.task].id == e.id {
      if e != Entry(id, p) { assert e in s.cache; }
    }
  }

  /** Lookup through the cache returns what a plain scan of the list returns. */
  lemma FindIsScan(s: Table, id: nat)
    requires Inv(s)
    ensures Find(s, id).1 == if id == 0 then |s.list| else Scan(s.list, s.tcbs, id)
    ensures Inv(Find(s, id).0)
    ensures Find(s, id).0 == s.(cache := Find(s, id).0.cache, index := Find(s, id).0.index)
  {
    if id != 0 {
      var cached := CacheLookup(s, id, 0);
      var i := Scan(s.list, s.tcbs, id);
      if cached > 0 {
        assert cached in s.list;
        var k := NodeOf(s.list, cached);
        assert s.tcbs[s.list[k]].id == id;
        assert i < |s.list| && s.list[i] in s.list;
      } else if i < |s.list| {
        assert s.list[i] in s.list;
        CacheTaskKeeps(s, id, s.list[i]);
      }
    }
  }

  /** A task that a lookup has found is answered from the cache next time. */
  lemma FoundIsCached(s: Table, id: nat)
    requires Inv(s)
    ensures var (s', i) := Find(s, id); i < |s.list| ==> CacheLookup(s', id, 0) == s.list[i]
  {
    FindIsScan(s, id);
    var i := Scan(s.list, s.tcbs, id);
    if id != 0 && i < |s.list| {
      ScanFinds(s, id, s.list[i]);
      CachedAfterAdd(s, id, s.list[i]);
    }
    hide Inv, Scan, CacheTask;
  }

  lemma CachedAfterAdd(s: Table, id: nat, p: Ptr)
    requires Inv(s) && p in s.tcbs && s.tcbs[p].id == id
    ensures CacheLookup(CacheTask(s, id, p), id, 0) == p
  {
    CacheTaskKeeps(s, id, p);
    var s' := CacheTask(s, id, p);
    assert s'.cache[s.index] == Entry(id, p);
    forall j | 0 <= j < |s'.cache| && s'.cache[j].task > 0 && s'.cache[j].id == id ensures s'.cache[j].task == p {
      assert s'.cache[j] in s'.cache;
    }
    FirstEntry(s', id, p, s.index, 0);
  }

  /** `n` additions ago, fewer than four, `e` was added. */
  ghost predicate Remembered(s: Table, e: Entry, n: nat) {
    && |s.cache| == 4 && s.index < 4 && n < 4
    && s.cache[if s.index + 3 - n < 4 then s.index + 3 - n else s.index - 1 - n] == e
  }

  /** The cache keeps the last four tasks that were added. */
  lemma LastFourCached(s: Table, id: nat, p: Ptr, e: Entry, n: nat)
    requires Wf(s)
    ensures Remembered(CacheTask(s, id, p), Entry(id, p), 0)
    ensures Remembered(s, e, n) && n < 3 ==> Remembered(CacheTask(s, id, p), e, n + 1)
    ensures Remembered(s, e, n) ==> e in s.cache
  {
  }

  /** Both parts of a spawn keep list, cache, count and identifiers consistent. */
  lemma SpawnKeeps(s: Table, p: Ptr)
    requires Inv(s)
    ensures p !in s.tcbs ==> Inv(Register(s, p))
    ensures p in s.tcbs ==> Inv(Publish(s, p, s.tcbs[p].id))
  {
    if p in s.tcbs {
      SpawningLess(s, p);
      hide Inv;
      CacheTaskKeeps(s.(spawning := s.spawning - multiset{p}), s.tcbs[p].id, p);
    } else {
      RegisterKeeps(s, p);
    }
  }

  lemma SpawningLess(s: Table, p: Ptr)
    requires Inv(s)
    ensures Inv(s.(spawning := s.spawning - multiset{p}))
  {
  }

  lemma RegisterKeeps(s: Table, p: Ptr)
    requires Inv(s) && p !in s.tcbs
    ensures Inv(Register(s, p))
  {
    var s' := Register(s, p);
    assert forall q :: q in s'.list <==> q in s.list || q == p;
  }

  lemma DropKeeps(s: Table, i: nat)
    requires Inv(s) && i < |s.list| && s.list[i] !in s.spawning
    ensures Inv(Drop(s, i))
  {
    var s', p := Drop(s, i), s.list[i];
    DropMembers(s.list, i);
    forall e | e in s'.cache && e.task > 0 ensures e.task in s'.tcbs && s'.tcbs[e.task].id == e.id {
      var j :| 0 <= j < |s'.cache| && s'.cache[j] == e;
      assert s.cache[j] in s.cache;
    }
  }

  lemma DropMembers(list: seq<Ptr>, i: nat)
    requires i < |list| && Distinct(list)
    ensures Distinct(list[..i] + list[i + 1..])
    ensures forall q :: q in list[..i] + list[i + 1..] <==> q in list && q != list[i]
  {
  }

  /** The task is being cancelled before its spawner has cached it. */
  ghost predicate CutsSpawn(s: Table, id: nat, self: nat) {
    id != self && exists p :: p in s.spawning && p in s.tcbs && s.tcbs[p].id == id && !s.tcbs[p].running
  }

  /** The scan finds the one task with the identifier, if there is one. */
  lemma ScanFinds(s: Table, id: nat, p: Ptr)
    requires Inv(s)
    ensures Wf(s) && var i := Scan(s.list, s.tcbs, id);
      && (i < |s.list| ==> s.list[i] in s.tcbs && id > 0)
      && (p in s.tcbs && s.tcbs[p].id == id ==> i < |s.list| && s.list[i] == p)
  {
    var i := Scan(s.list, s.tcbs, id);
    if i < |s.list| { assert s.list[i] in s.list; }
    if p in s.tcbs && s.tcbs[p].id == id { assert p in s.list; }
  }

  /** What `mo_task_cancel` does, in terms of the scan. */
  lemma CancelIsDrop(s: Table, id: nat, self: nat)
    requires Inv(s)
    ensures Wf(s) && var i := Scan(s.list, s.tcbs, id);
      Cancel(s, id, self) ==
        if id == 0 || id == self then (s, CantRemove)
        else if i == |s.list| then (Find(s, id).0, NotFound)
        else if s.tcbs[s.list[i]].running then (Find(s, id).0, CantRemove)
        else (Drop(Find(s, id).0, i), Ok)
  {
    FindIsScan(s, id);
  }

  lemma CancelInv(s: Table, id: nat, self: nat)
    requires Inv(s) && !CutsSpawn(s, id, self)
    ensures Wf(s) && Inv(Cancel(s, id, self).0)
  {
    CancelIsDrop(s, id, self);
    FindIsScan(s, id);
    var i := Scan(s.list, s.tcbs, id);
    if i < |s.list| { ScanFinds(s, id, s.list[i]); }
    hide Inv, Find, Cancel, Scan;
    if i < |s.list| && id != self && !s.tcbs[s.list[i]].running { DropKeeps(Find(s, id).0, i); }
  }

  /** `mo_task_cancel` removes exactly the task with the identifier, which must exist, must not be the
      caller's and must not be running. */
  lemma CancelKeeps(s: Table, id: nat, self: nat)
    requires Inv(s)
    ensures Wf(s) && (!CutsSpawn(s, id, self) ==> Inv(Cancel(s, id, self).0))
    ensures Cancel(s, id, self).1 == Ok <==>
      id != self && exists p :: p in s.tcbs && s.tcbs[p].id == id && !s.tcbs[p].running
    ensures Cancel(s, id, self).1 == NotFound <==> id != 0 && id != self && forall p :: p in s.tcbs ==> s.tcbs[p].id != id
    ensures Cancel(s, id, self).1 == Ok ==>
      forall p :: p in Cancel(s, id, self).0.tcbs <==> p in s.tcbs && s.tcbs[p].id != id
  {
    if !CutsSpawn(s, id, self) { CancelInv(s, id, self); }
    CancelIsDrop(s, id, self);
    FindIsScan(s, id);
    var i := Scan(s.list, s.tcbs, id);
    if i < |s.list| { ScanFinds(s, id, s.list[i]); }
    forall p: Ptr ensures p in s.tcbs && s.tcbs[p].id == id ==> i < |s.list| && s.list[i] == p { ScanFinds(s, id, p); }
    hide Inv, Find, Cancel, Scan, CutsSpawn;
  }

  // ----- runs

  datatype Event =
    | RegisterAt(p: Ptr)
    | PublishAt(p: Ptr, seen: nat)
    | Lookup(id: nat)
    | CancelBy(id: nat, self: nat)
    | Reschedule(tcbs: map<Ptr, Tcb>)

  /** The allocator returns a block that is not in use; a spawner reads the identifier of its block, or
      whatever a freed block holds; scheduling changes only who is running. */
  ghost predicate Enabled(s: Table, e: Event) {
    Wf(s) && match e
      case RegisterAt(p) => p !in s.tcbs
      case PublishAt(p, seen) => p in s.spawning && (p in s.tcbs ==> seen == s.tcbs[p].id)
      case Lookup(_) => true
      case CancelBy(_, _) => true
      case Reschedule(tcbs) => tcbs.Keys == s.tcbs.Keys && forall p :: p in tcbs ==> tcbs[p].id == s.tcbs[p].id
  }

  ghost function Step(s: Table, e: Event): Table
    requires Enabled(s, e)
  {
    match e
    case RegisterAt(p) => Register(s, p)
    case PublishAt(p, seen) => Publish(s, p, seen)
    case Lookup(id) => Find(s, id).0
    case CancelBy(id, self) => Cancel(s, id, self).0
    case Reschedule(tcbs) => s.(tcbs := tcbs)
  }

  /** No task is cancelled before its spawner has cached it. */
  ghost predicate Safe(s: Table, e: Event) {
    e.CancelBy? ==> !CutsSpawn(s, e.id, e.self)
  }

  ghost predicate IsRun(ss: seq<Table>, events: seq<Event>) {
    && |ss| == |events| + 1
    && forall i :: 0 <= i < |events| ==> Enabled(ss[i], events[i]) && Step(ss[i], events[i]) == ss[i + 1]
  }

  ghost predicate SafeRun(ss: seq<Table>, events: seq<Event>) {
    IsRun(ss, events) && forall i :: 0 <= i < |events| ==> Safe(ss[i], events[i])
  }

  /** Every lookup returns what a plain scan of the list returns. */
  ghost predicate Agrees(s: Table) {
    Wf(s) && forall id :: Find(s, id).1 == if id == 0 then |s.list| else Scan(s.list, s.tcbs, id)
  }

  lemma StepKeeps(s: Table, e: Event)
    requires Inv(s) && Enabled(s, e) && Safe(s, e)
    ensures Inv(Step(s, e))
  {
    match e {
      case RegisterAt(p) => SpawnKeeps(s, p);
      case PublishAt(p, _) => SpawnKeeps(s, p);
      case Lookup(id) => FindIsScan(s, id);
      case CancelBy(id, self) => CancelKeeps(s, id, self);
      case Reschedule(_) =>
    }
  }

  /** In any run of spawn, lookup and cancel that cancels no task before it is cached, every lookup agrees
      with a plain scan, and the cached task count is exact. */
  lemma {:induction false} RunsLookUpCorrectly(ss: seq<Table>, events: seq<Event>, i: nat)
    requires SafeRun(ss, events) && Inv(ss[0]) && i < |ss|
    ensures Inv(ss[i]) && ss[i].count == |ss[i].list| && Agrees(ss[i])
  {
    if i > 0 {
      RunsLookUpCorrectly(ss, events, i - 1);
      StepKeeps(ss[i - 1], events[i - 1]);
    }
    forall id ensures Find(ss[i], id).1 == if id == 0 then |ss[i].list| else Scan(ss[i].list, ss[i].tcbs, id) {
      FindIsScan(ss[i], id);
    }
  }

  /** What a cancel that cuts a spawn leaves behind. */
  ghost predicate Cut(s: Table, id: nat, p: Ptr) {
    && Wf(s) && id > 0 && p in s.spawning && p !in s.tcbs && p !in s.list
    && (forall q :: q in s.tcbs ==> s.tcbs[q].id != id) && id < s.nextTid
    && forall e :: e in s.cache && e.task > 0 ==> e.id != id
  }

  lemma CutState(s: Table, id: nat, self: nat, p: Ptr)
    requires Inv(s) && p in s.spawning && p in s.tcbs && s.tcbs[p].id == id && !s.tcbs[p].running && id != self
    ensures Cut(Cancel(s, id, self).0, id, p)
  {
    CancelIsDrop(s, id, self);
    FindIsScan(s, id);
    ScanFinds(s, id, p);
    DropCuts(Find(s, id).0, Scan(s.list, s.tcbs, id), id);
    hide Inv, Find, Cancel, Scan;
  }

  lemma DropCuts(s: Table, i: nat, id: nat)
    requires Inv(s) && i < |s.list| && s.list[i] in s.tcbs && s.tcbs[s.list[i]].id == id && s.list[i] in s.spawning
    ensures Cut(Drop(s, i), id, s.list[i])
  {
    DropMembers(s.list, i);
    var s' := Drop(s, i);
    forall e | e in s'.cache && e.task > 0 ensures e.id != id {
      var j :| 0 <= j < |s'.cache| && s'.cache[j] == e;
      assert s.cache[j] in s.cache;
    }
  }

  /** The spawner then caches a freed block; when the block is reused, a lookup of the old identifier returns
      the new task. */
  lemma CutSpawnBreaks(s: Table, id: nat, self: nat) returns (ss: seq<Table>, events: seq<Event>)
    requires Inv(s) && CutsSpawn(s, id, self)
    ensures SafeRun(ss, events) && Wf(s) && ss[0] == Cancel(s, id, self).0 && !Agrees(ss[|ss| - 1])
  {
    var p :| p in s.spawning && p in s.tcbs && s.tcbs[p].id == id && !s.tcbs[p].running;
    CutState(s, id, self, p);
    hide Inv, Cancel, Find, Scan, Agrees, SafeRun, Cut;
    ss, events := AfterCut(Cancel(s, id, self).0, id, p);
  }

  lemma AfterCut(s: Table, id: nat, p: Ptr) returns (ss: seq<Table>, events: seq<Event>)
    requires Cut(s, id, p)
    ensures SafeRun(ss, events) && ss[0] == s && !Agrees(ss[|ss| - 1])
  {
    ReusedBlock(s, id, p);
    var s2 := Publish(s, p, id);
    var s3 := Register(s2, p);
    assert Enabled(s, PublishAt(p, id)) && Enabled(s2, RegisterAt(p));
    hide Cut, Find, Scan, Publish, Register, Enabled;
    TwoSteps(s, s2, s3, PublishAt(p, id), RegisterAt(p));
    ss, events := [s, s2, s3], [PublishAt(p, id), RegisterAt(p)];
  }

  lemma TwoSteps(a: Table, b: Table, c: Table, e: Event, f: Event)
    requires Enabled(a, e) && Step(a, e) == b && Enabled(b, f) && Step(b, f) == c
    ensures IsRun([a, b, c], [e, f])
  {
    hide Enabled, Step;
  }

  lemma ReusedBlock(s: Table, id: nat, p: Ptr)
    requires Cut(s, id, p)
    ensures var s' := Register(Publish(s, p, id), p); Wf(s') && Find(s', id).1 == |s.list| && Scan(s'.list, s'.tcbs, id) == |s'.list|
  {
    var s' := Register(Publish(s, p, id), p);
    assert s'.cache[s.index] == Entry(id, p);
    FirstEntry(s', id, p, s.index, 0);
    assert s'.list[|s.list|] == p && forall j :: 0 <= j < |s.list| ==> s'.list[j] == s.list[j] != p;
  }

  /** With no other entry for `id`, the lookup returns the one at `k`. */
  lemma {:induction false} FirstEntry(s: Table, id: nat, p: Ptr, k: nat, i: nat)
    requires i <= k < |s.cache| && s.cache[k] == Entry(id, p) && ValidTask(s, p)
    requires forall j :: 0 <= j < |s.cache| && s.cache[j].task > 0 && s.cache[j].id == id ==> s.cache[j].task == p
    ensures CacheLookup(s, id, i) == p
    decreases k - i
  {
    if i < k { FirstEntry(s, id, p, k, i + 1); }
  }

  /** Exactly the cancels that do not cut a spawn short leave the lookups right for every safe continuation. */
  lemma LookupsStayRightIff(s: Table, e: Event)
    requires Inv(s) && Enabled(s, e)
    ensures Safe(s, e) <==>
      forall ss, events :: SafeRun(ss, events) && ss[0] == Step(s, e) ==> Agrees(ss[|ss| - 1])
  {
    if Safe(s, e) {
      StepKeeps(s, e);
      forall ss, events | SafeRun(ss, events) && ss[0] == Step(s, e) ensures Agrees(ss[|ss| - 1]) {
        RunsLookUpCorrectly(ss, events, |ss| - 1);
      }
    } else {
      var ss, events := CutSpawnBreaks(s, e.id, e.self);
    }
  }

  function Start(): Table {
    Table(map[], [], [Entry(0, 0), Entry(0, 0), Entry(0, 0), Entry(0, 0)], 0, 1, 0, multiset{})
  }

  lemma StartInv()
    ensures Inv(Start())
  {
  }

  /** Such a run from boot: task 2, still being spawned, is cancelled by task 1, and its block is reused for
      task 3; the lookup of 2 returns task 3. */
  lemma CutSpawnReachable() returns (ss: seq<Table>, events: seq<Event>)
    ensures IsRun(ss, events) && ss[0] == Start() && !Agrees(ss[|ss| - 1])
  {
    var first, early := BeforeCut();
    hide Inv, Find, Agrees, Enabled, Step, IsRun, CutsSpawn, SafeRun;
    ss, events := CutAfter(first, early, 2, 1);
  }

  lemma CutAfter(first: seq<Table>, early: seq<Event>, id: nat, self: nat) returns (ss: seq<Table>, events: seq<Event>)
    requires IsRun(first, early) && Inv(first[|first| - 1]) && CutsSpawn(first[|first| - 1], id, self)
    ensures IsRun(ss, events) && ss[0] == first[0] && !Agrees(ss[|ss| - 1])
  {
    var rest, later := CutSpawnBreaks(first[|first| - 1], id, self);
    hide Inv, Find, Agrees, Cancel, CutsSpawn;
    JoinRuns(first, early, CancelBy(id, self), rest, later);
    ss, events := first + rest, early + [CancelBy(id, self)] + later;
  }

  lemma BeforeCut() returns (ss: seq<Table>, events: seq<Event>)
    ensures IsRun(ss, events) && ss[0] == Start() && Inv(ss[|ss| - 1]) && CutsSpawn(ss[|ss| - 1], 2, 1)
  {
    var s := Start();
    StartInv();
    var t := Register(s, 100);
    SpawnKeeps(s, 100);
    var u := Register(t, 200);
    SpawnKeeps(t, 200);
    assert 200 in u.spawning && u.tcbs[200] == Tcb(2, false) && CutsSpawn(u, 2, 1);
    assert Enabled(s, RegisterAt(100)) && Enabled(t, RegisterAt(200));
    hide Inv, Enabled, Register, CutsSpawn;
    TwoSteps(s, t, u, RegisterAt(100), RegisterAt(200));
    ss, events := [s, t, u], [RegisterAt(100), RegisterAt(200)];
  }

  lemma JoinRuns(ss: seq<Table>, events: seq<Event>, e: Event, rest: seq<Table>, later: seq<Event>)
    requires IsRun(ss, events) && IsRun(rest, later) && Enabled(ss[|ss| - 1], e) && Step(ss[|ss| - 1], e) == rest[0]
    ensures IsRun(ss + rest, events + [e] + later)
  {
    var all, es := ss + rest, events + [e] + later;
    forall i | 0 <= i < |es| ensures Enabled(all[i], es[i]) && Step(all[i], es[i]) == all[i + 1] {
      if i > |events| {
        var j := i - |events| - 1;
        assert Enabled(rest[j], later[j]) && Step(rest[j], later[j]) == rest[j + 1];
      }
    }
  }
}
