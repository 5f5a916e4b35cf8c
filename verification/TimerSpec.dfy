/** Tick-based software timers (kernel/timer.c): the operations and the state they keep.

    A callback is an entry in `log`; it does not call back into the timer API.  Ticks and
    identifiers do not wrap.  Allocations succeed: HeapLaws.MallocOutcome shows that `malloc`
    never returns NULL for the sizes used here. */
module TimerSpec {
  import opened TimerLists

  const F_TIMER: nat := 100
  const FIRST_ID: nat := 0x6000
  const BATCH: nat := 4
  const CACHE_SIZE: nat := 4

  const ERR_OK := 0
  const ERR_FAIL := -1

  datatype CacheEntry = CacheEntry(id: nat, timer: nat)

  /** One callback: at tick `at`, for the deadline `due`. */
  datatype Fire = Fire(timer: Ptr, at: nat, due: nat)

  datatype Sys = Sys(ts: Timers, master: seq<Cell>, active: seq<Cell>, free: set<nat>, nextNode: nat,
                     cache: seq<CacheEntry>, cacheIndex: nat, nextId: nat,
                     now: nat, stamp: nat, log: seq<Fire>)

  /** MS_TO_TICKS: a tick lasts 10 ms, and what is left of one is dropped. */
  function Ticks(ms: nat): (n: nat)
    ensures 10 * n <= ms < 10 * (n + 1)
  {
    ms * F_TIMER / 1000
  }

  predicate Wf(s: Sys) {
    && (forall c :: c in s.master ==> c.timer in s.ts)
    && (forall c :: c in s.active ==> c.timer in s.ts)
    && |s.cache| == CACHE_SIZE && s.cacheIndex < CACHE_SIZE
  }

  // ----- lists

  /** `timer_sorted_insert` of a timer whose fields are set. */
  function Link(s: Sys, p: Ptr, t: Timer): Sys
    requires forall c :: c in s.active ==> c.timer in s.ts
  {
    var (n, free, next) := Take(s.free, s.nextNode);
    var ts := s.ts[p := t.(stamp := s.stamp)];
    s.(ts := ts, active := Insert(s.active, ts, ByDeadline, Cell(n, p)), free := free,
       nextNode := next, stamp := s.stamp + 1)
  }

  /** `timer_remove_item_by_data` for the node at index `i` of the active list. */
  function Unlink(s: Sys, i: nat): (r: Sys)
    requires i < |s.active|
    ensures Wf(s) ==> Wf(r)
  {
    s.(active := RemoveAt(s.active, i), free := Give(s.free, s.active[i].node))
  }

  function Stop(s: Sys, p: Ptr): (r: Sys)
    requires p in s.ts
    ensures Wf(s) ==> Wf(r)
  {
    if s.ts[p].mode != Disabled && Find(s.active, p) < |s.active| then Unlink(s, Find(s.active, p)) else s
  }

  // ----- lookup

  function CacheAdd(s: Sys, id: nat, p: Ptr): Sys
    requires s.cacheIndex < |s.cache|
  {
    s.(cache := s.cache[s.cacheIndex := CacheEntry(id, p)], cacheIndex := (s.cacheIndex + 1) % CACHE_SIZE)
  }

  /** `cache_lookup_timer`: the first entry that matches, 0 for none. */
  function CacheFind(cache: seq<CacheEntry>, id: nat): (p: nat)
    ensures p > 0 ==> exists e :: e in cache && e.id == id && e.timer == p
  {
    if cache == [] then 0
    else if cache[0].id == id && cache[0].timer > 0 then assert cache[0] in cache; cache[0].timer
    else CacheFind(cache[1..], id)
  }

  /** The plain scan of the master list: index of the node with this identifier. */
  function Scan(master: seq<Cell>, ts: Timers, id: nat): (i: nat)
    requires forall c :: c in master ==> c.timer in ts
    ensures i <= |master|
    ensures i < |master| ==> ts[master[i].timer].id == id
    ensures forall j :: 0 <= j < i ==> ts[master[j].timer].id != id
  {
    if master == [] || ts[master[0].timer].id == id then 0 else 1 + Scan(master[1..], ts, id)
  }

  /** The scan of `timer_find_by_id_fast`, which stops at the first larger identifier. */
  function ScanSorted(master: seq<Cell>, ts: Timers, id: nat): (i: nat)
    requires forall c :: c in master ==> c.timer in ts
    ensures i <= |master|
  {
    if master == [] || ts[master[0].timer].id == id then 0
    else if ts[master[0].timer].id > id then |master|
    else 1 + ScanSorted(master[1..], ts, id)
  }

  /** `timer_find_by_id_fast`: the timer (0 for none) and the cache it leaves behind. */
  function FindFast(s: Sys, id: nat): (Sys, nat)
    requires Wf(s)
  {
    var p := CacheFind(s.cache, id);
    if p > 0 && p in s.ts && s.ts[p].id == id then (s, p)
    else
      var i := ScanSorted(s.master, s.ts, id);
      if i < |s.master| then (CacheAdd(s, id, s.master[i].timer), s.master[i].timer as nat) else (s, 0)
  }

  // ----- operations

  function Fresh(id: nat, periodMs: nat): Timer {
    Timer(id, Disabled, periodMs, 0, 0, 0, 0, 0, 0)
  }

  /** `mo_timer_create`, with `p` the address the allocator returns. */
  function Create(s: Sys, p: Ptr, periodMs: nat): (Sys, int)
    requires Wf(s)
  {
    if periodMs == 0 then (s, ERR_FAIL)
    else
      var (n, free, next) := Take(s.free, s.nextNode);
      var ts := s.ts[p := Fresh(s.nextId, periodMs)];
      var s' := s.(ts := ts, master := Insert(s.master, ts, ById, Cell(n, p)), free := free,
                   nextNode := next, nextId := s.nextId + 1);
      (CacheAdd(s', s.nextId, p), s.nextId)
  }

  function CacheClear(cache: seq<CacheEntry>, p: Ptr): (r: seq<CacheEntry>)
    ensures |r| == |cache|
    ensures forall i :: 0 <= i < |cache| ==> r[i] == if cache[i].timer == p then CacheEntry(0, 0) else cache[i]
  {
    if cache == [] then []
    else [if cache[0].timer == p then CacheEntry(0, 0) else cache[0]] + CacheClear(cache[1..], p)
  }

  function Destroy(s: Sys, id: nat): (Sys, int)
    requires Wf(s)
  {
    var i := Scan(s.master, s.ts, id);
    if i == |s.master| then (s, ERR_FAIL)
    else
      var p := s.master[i].timer;
      var s' := Stop(s, p);
      (s'.(ts := s.ts - {p}, master := RemoveAt(s.master, i), free := Give(s'.free, s.master[i].node),
           cache := CacheClear(s.cache, p)), ERR_OK)
  }

  /** The timer record `mo_timer_start` arms. */
  function Armed(t: Timer, mode: Mode, now: nat, since: nat): Timer {
    var due := now + Ticks(t.periodMs);
    t.(mode := mode, expected := due, deadline := due, started := now, since := since, fired := 0)
  }

  function Start(s: Sys, id: nat, mode: Mode): (Sys, int)
    requires Wf(s)
  {
    if mode == Disabled then (s, ERR_FAIL)
    else
      var (s1, p) := FindFast(s, id);
      if p == 0 || p !in s1.ts then (s1, ERR_FAIL)
      else
        var s2 := Stop(s1, p);
        (Link(s2, p, Armed(s1.ts[p], mode, s.now, |s.log|)), ERR_OK)
  }

  function Cancel(s: Sys, id: nat): (Sys, int)
    requires Wf(s)
  {
    var (s1, p) := FindFast(s, id);
    if p == 0 || p !in s1.ts || s1.ts[p].mode == Disabled then (s1, ERR_FAIL)
    else
      var s2 := Stop(s1, p);
      (s2.(ts := s2.ts[p := s2.ts[p].(mode := Disabled)]), ERR_OK)
  }

  // ----- the tick handler

  /** How many timers one call of the handler takes off the list. */
  function BatchSize(active: seq<Cell>, ts: Timers, now: nat, room: nat): (n: nat)
    requires forall c :: c in active ==> c.timer in ts
    ensures n <= |active| && n <= room
    ensures forall i :: 0 <= i < n ==> ts[active[i].timer].deadline <= now
    ensures n < room && n < |active| ==> now < ts[active[n].timer].deadline
    decreases room
  {
    if room == 0 || active == [] || now < ts[active[0].timer].deadline then 0
    else 1 + BatchSize(active[1..], ts, now, room - 1)
  }

  /** Takes the first `n` timers off the active list. */
  function Collect(s: Sys, n: nat): (r: Sys)
    requires n <= |s.active|
    ensures Wf(s) ==> Wf(r)
    ensures r == s.(active := r.active, free := r.free) && r.active == s.active[n..]
    decreases n
  {
    if n == 0 then s else Collect(Unlink(s, 0), n - 1)
  }

  /** The callback and the reload of one expired timer. */
  function Reloaded(t: Timer): Timer {
    var due := t.expected + Ticks(t.periodMs);
    t.(expected := due, deadline := due, fired := t.fired + 1)
  }

  function FireOne(s: Sys, p: Ptr): (r: Sys)
    requires Wf(s) && p in s.ts
    ensures Wf(r) && r.ts.Keys == s.ts.Keys
  {
    var t := s.ts[p];
    var s' := s.(log := s.log + [Fire(p, s.now, t.deadline)]);
    if t.mode == AutoReload then
      InsertMembers(s.active, s.ts[p := Reloaded(t).(stamp := s.stamp)], ByDeadline, Cell(Take(s.free, s.nextNode).0, p));
      Link(s', p, Reloaded(t))
    else s'.(ts := s.ts[p := t.(mode := Disabled, fired := t.fired + 1)])
  }

  function FireAll(s: Sys, ps: seq<Ptr>): (r: Sys)
    requires Wf(s) && forall p :: p in ps ==> p in s.ts
    ensures Wf(r)
    decreases |ps|
  {
    if ps == [] then s else FireAll(FireOne(s, ps[0]), ps[1..])
  }

  function Ptrs(cells: seq<Cell>): (r: seq<Ptr>)
    ensures |r| == |cells|
    ensures forall i :: 0 <= i < |cells| ==> r[i] == cells[i].timer
  {
    if cells == [] then [] else [cells[0].timer] + Ptrs(cells[1..])
  }

  /** `_timer_tick_handler` */
  function Handler(s: Sys): (r: Sys)
    requires Wf(s)
    ensures Wf(r)
  {
    var n := BatchSize(s.active, s.ts, s.now, BATCH);
    FireAll(Collect(s, n), Ptrs(s.active[..n]))
  }
}
