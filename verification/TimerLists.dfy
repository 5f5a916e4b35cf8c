/** The two sorted linked lists of kernel/timer.c and the pool their nodes come from.

    A list is the sequence of its data nodes between the sentinels.  A node is a pool slot below
    POOL_SIZE or the handle of an allocated node. */
module TimerLists {

  const POOL_SIZE: nat := 16

  // The address of a timer control block; 0 is NULL.
  type Ptr = p: nat | p > 0 witness 1

  datatype Mode = Disabled | OneShot | AutoReload

  /** A timer control block.  The last four fields are history that the code never reads: the tick of the
      last start, how many callbacks of any timer had run by then, the firings since, and the rank of the
      last list insertion. */
  datatype Timer = Timer(id: nat, mode: Mode, periodMs: nat, deadline: nat, expected: nat,
                         started: nat, since: nat, fired: nat, stamp: nat)

  type Timers = map<Ptr, Timer>

  datatype Cell = Cell(node: nat, timer: Ptr)

  /** The active list is sorted by deadline, the master list by identifier. */
  datatype Order = ByDeadline | ById

  function Key(t: Timer, o: Order): nat {
    if o == ById then t.id else t.deadline
  }

  ghost predicate Known(cells: seq<Cell>, ts: Timers) {
    forall c :: c in cells ==> c.timer in ts
  }

  /** Where the insertion loops stop: before the first node with a larger key. */
  function Position(cells: seq<Cell>, ts: Timers, o: Order, k: nat): (i: nat)
    requires forall c :: c in cells ==> c.timer in ts
    ensures i <= |cells|
    ensures forall j :: 0 <= j < i ==> Key(ts[cells[j].timer], o) <= k
    ensures i < |cells| ==> k < Key(ts[cells[i].timer], o)
  {
    if cells == [] || k < Key(ts[cells[0].timer], o) then 0
    else 1 + Position(cells[1..], ts, o, k)
  }

  function Insert(cells: seq<Cell>, ts: Timers, o: Order, c: Cell): seq<Cell>
    requires c.timer in ts && forall d :: d in cells ==> d.timer in ts
  {
    var i := Position(cells, ts, o, Key(ts[c.timer], o));
    cells[..i] + [c] + cells[i..]
  }

  /** Index of the node that carries timer `p`, or the length of the list. */
  function Find(cells: seq<Cell>, p: Ptr): (i: nat)
    ensures i <= |cells|
    ensures i < |cells| ==> cells[i].timer == p
    ensures forall j :: 0 <= j < i ==> cells[j].timer != p
  {
    if cells == [] || cells[0].timer == p then 0 else 1 + Find(cells[1..], p)
  }

  function RemoveAt(cells: seq<Cell>, i: nat): seq<Cell>
    requires i < |cells|
  {
    cells[..i] + cells[i + 1..]
  }

  // ----- order

  ghost predicate Sorted(cells: seq<Cell>, ts: Timers, o: Order)
    requires Known(cells, ts)
  {
    forall i, j :: 0 <= i < j < |cells| ==>
      Key(ts[cells[i].timer], o) <= Key(ts[cells[j].timer], o)
  }

  /** Equal deadlines stand in insertion order. */
  ghost predicate FifoTies(cells: seq<Cell>, ts: Timers)
    requires Known(cells, ts)
  {
    forall i, j :: 0 <= i < j < |cells| && ts[cells[i].timer].deadline == ts[cells[j].timer].deadline ==>
      ts[cells[i].timer].stamp < ts[cells[j].timer].stamp
  }

  /** No timer is in the list twice. */
  ghost predicate Unique(cells: seq<Cell>) {
    forall i, j :: 0 <= i < j < |cells| ==> cells[i].timer != cells[j].timer
  }

  /** The timers in the list. */
  ghost function Listed(cells: seq<Cell>): set<Ptr> {
    set c | c in cells :: c.timer
  }

  lemma InsertSorted(cells: seq<Cell>, ts: Timers, o: Order, c: Cell)
    requires Known(cells, ts) && c.timer in ts && Sorted(cells, ts, o)
    ensures Known(Insert(cells, ts, o, c), ts) && Sorted(Insert(cells, ts, o, c), ts, o)
  {
    var k := Key(ts[c.timer], o);
    var i := Position(cells, ts, o, k);
    var r := Insert(cells, ts, o, c);
    forall a, b | 0 <= a < b < |r| ensures Key(ts[r[a].timer], o) <= Key(ts[r[b].timer], o) {
      if a == i {
        assert Key(ts[cells[i].timer], o) <= Key(ts[cells[b - 1].timer], o);
      }
    }
  }

  /** All nodes from the insertion point on have a larger key. */
  lemma LaterKeys(cells: seq<Cell>, ts: Timers, o: Order, k: nat, j: nat)
    requires Known(cells, ts) && Sorted(cells, ts, o) && Position(cells, ts, o, k) <= j < |cells|
    ensures k < Key(ts[cells[j].timer], o)
  {
  }

  /** `r` is `cells` with `c` put in at `i`. */
  ghost predicate PutIn(cells: seq<Cell>, i: nat, c: Cell, r: seq<Cell>) {
    i <= |cells| && r == cells[..i] + [c] + cells[i..]
  }

  ghost predicate Tied(ts: Timers, c: Cell, d: Cell)
    requires c.timer in ts && d.timer in ts
  {
    ts[c.timer].deadline == ts[d.timer].deadline ==> ts[c.timer].stamp < ts[d.timer].stamp
  }

  lemma FifoOld(cells: seq<Cell>, ts: Timers, i: nat, c: Cell, r: seq<Cell>, a: nat, b: nat)
    requires Known(cells, ts) && FifoTies(cells, ts) && PutIn(cells, i, c, r) && a < b < |r| && a != i && b != i
    ensures r[a].timer in ts && r[b].timer in ts && Tied(ts, r[a], r[b])
  {
    var x, y := if a < i then a else a - 1, if b < i then b else b - 1;
    assert r[a] == cells[x] && r[b] == cells[y];
  }

  lemma FifoNew(cells: seq<Cell>, ts: Timers, i: nat, c: Cell, r: seq<Cell>, a: nat)
    requires Known(cells, ts) && c.timer in ts && PutIn(cells, i, c, r) && a < |r| && a != i
    requires forall d :: d in cells ==> ts[d.timer].stamp < ts[c.timer].stamp
    requires forall j :: i <= j < |cells| ==> ts[c.timer].deadline < ts[cells[j].timer].deadline
    ensures r[a].timer in ts && if a < i then Tied(ts, r[a], c) else Tied(ts, c, r[a])
  {
    var x := if a < i then a else a - 1;
    assert r[a] == cells[x] && cells[x] in cells;
  }

  lemma InsertFifo(cells: seq<Cell>, ts: Timers, c: Cell)
    requires Known(cells, ts) && c.timer in ts && Sorted(cells, ts, ByDeadline) && FifoTies(cells, ts)
    requires forall d :: d in cells ==> ts[d.timer].stamp < ts[c.timer].stamp
    ensures Known(Insert(cells, ts, ByDeadline, c), ts) && FifoTies(Insert(cells, ts, ByDeadline, c), ts)
  {
    var k := ts[c.timer].deadline;
    var i := Position(cells, ts, ByDeadline, k);
    var r := Insert(cells, ts, ByDeadline, c);
    InsertMembers(cells, ts, ByDeadline, c);
    forall j | i <= j < |cells| ensures k < ts[cells[j].timer].deadline { LaterKeys(cells, ts, ByDeadline, k, j); }
    assert PutIn(cells, i, c, r) && r[i] == c;
    hide Position, Insert, Sorted, PutIn;
    forall a, b | 0 <= a < b < |r| ensures r[a].timer in ts && r[b].timer in ts && Tied(ts, r[a], r[b]) {
      if a == i { FifoNew(cells, ts, i, c, r, b); }
      else if b == i { FifoNew(cells, ts, i, c, r, a); }
      else { FifoOld(cells, ts, i, c, r, a, b); }
    }
  }

  lemma InsertMembers(cells: seq<Cell>, ts: Timers, o: Order, c: Cell)
    requires Known(cells, ts) && c.timer in ts
    ensures forall d :: d in Insert(cells, ts, o, c) <==> d in cells || d == c
    ensures |Insert(cells, ts, o, c)| == |cells| + 1
  {
  }

  lemma InsertUnique(cells: seq<Cell>, ts: Timers, o: Order, c: Cell)
    requires Known(cells, ts) && c.timer in ts && Unique(cells)
    requires forall d :: d in cells ==> d.timer != c.timer
    ensures Unique(Insert(cells, ts, o, c))
  {
  }

  lemma RemoveMembers(cells: seq<Cell>, i: nat)
    requires i < |cells| && Unique(cells)
    ensures Unique(RemoveAt(cells, i))
    ensures forall d :: d in RemoveAt(cells, i) <==> d in cells && d != cells[i]
  {
  }

  lemma InsertListed(cells: seq<Cell>, ts: Timers, o: Order, c: Cell)
    requires Known(cells, ts) && c.timer in ts
    ensures Listed(Insert(cells, ts, o, c)) == Listed(cells) + {c.timer}
  {
  }

  lemma RemoveListed(cells: seq<Cell>, i: nat)
    requires i < |cells| && Unique(cells)
    ensures Listed(RemoveAt(cells, i)) == Listed(cells) - {cells[i].timer}
  {
  }

  lemma RemoveOrder(cells: seq<Cell>, ts: Timers, o: Order, i: nat)
    requires i < |cells| && Known(cells, ts) && Sorted(cells, ts, o)
    ensures Known(RemoveAt(cells, i), ts) && Sorted(RemoveAt(cells, i), ts, o)
    ensures FifoTies(cells, ts) ==> FifoTies(RemoveAt(cells, i), ts)
  {
  }

  // ----- nodes

  ghost function Nodes(cells: seq<Cell>): set<nat> {
    set c | c in cells :: c.node
  }

  ghost predicate NodesUnique(cells: seq<Cell>) {
    forall i, j :: 0 <= i < j < |cells| ==> cells[i].node != cells[j].node
  }

  /** Each node is in one place: free in the mask, or linked in one of the two lists with nodes
      `m` and `a`.  Every pool slot is accounted for; handles of allocated nodes are below `next`. */
  ghost predicate NodesOk(m: set<nat>, a: set<nat>, free: set<nat>, next: nat) {
    && m !! a && free !! m && free !! a
    && (forall n :: n in free ==> n < POOL_SIZE)
    && (forall n :: 0 <= n < POOL_SIZE ==> n in free || n in m || n in a)
    && POOL_SIZE <= next && forall n :: n in m || n in a ==> n < next
  }

  /** The lowest free pool slot, or POOL_SIZE. */
  function LowestFree(free: set<nat>, i: nat): (r: nat)
    requires i <= POOL_SIZE
    ensures i <= r <= POOL_SIZE
    ensures r < POOL_SIZE ==> r in free
    ensures forall n :: i <= n < r ==> n !in free
    decreases POOL_SIZE - i
  {
    if i == POOL_SIZE || i in free then i else LowestFree(free, i + 1)
  }

  /** `get_timer_node`: a pool slot, else a fresh handle from the allocator. */
  function Take(free: set<nat>, next: nat): (nat, set<nat>, nat) {
    var n := LowestFree(free, 0);
    if n < POOL_SIZE then (n, free - {n}, next) else (next, free, next + 1)
  }

  /** `return_timer_node` */
  function Give(free: set<nat>, n: nat): set<nat> {
    if n < POOL_SIZE then free + {n} else free
  }

  /** The lowest free slot of the pool, while there is one; else a new handle. */
  lemma TakeLowest(free: set<nat>, next: nat, slot: nat)
    requires slot in free && slot < 16
    ensures var (n, free', next') := Take(free, next);
      n in free && n <= slot && free' == free - {n} && next' == next
  {
  }

  lemma TakeAllocates(free: set<nat>, next: nat)
    requires forall n :: n in free ==> n >= 16
    ensures Take(free, next) == (next, free, next + 1)
  {
  }

  lemma TakeKeeps(m: set<nat>, a: set<nat>, free: set<nat>, next: nat)
    requires NodesOk(m, a, free, next)
    ensures var (n, free', next') := Take(free, next);
      n !in m && n !in a && NodesOk(m, a + {n}, free', next') && NodesOk(m + {n}, a, free', next')
  {
  }

  lemma GiveKeeps(m: set<nat>, a: set<nat>, free: set<nat>, next: nat, n: nat)
    requires NodesOk(m, a, free, next)
    ensures n in a ==> NodesOk(m, a - {n}, Give(free, n), next)
    ensures n in m ==> NodesOk(m - {n}, a, Give(free, n), next)
  {
  }

  lemma InsertNodes(cells: seq<Cell>, ts: Timers, o: Order, c: Cell)
    requires Known(cells, ts) && c.timer in ts && NodesUnique(cells) && c.node !in Nodes(cells)
    ensures NodesUnique(Insert(cells, ts, o, c))
    ensures Nodes(Insert(cells, ts, o, c)) == Nodes(cells) + {c.node}
  {
  }

  lemma RemoveNodes(cells: seq<Cell>, i: nat)
    requires i < |cells| && NodesUnique(cells)
    ensures NodesUnique(RemoveAt(cells, i))
    ensures Nodes(RemoveAt(cells, i)) == Nodes(cells) - {cells[i].node}
  {
  }
}
