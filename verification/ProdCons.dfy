/** The bounded buffer of app/prodcons.c: any number of producers and consumers interleaved at
    every semaphore call and at every access to the shared buffer. */
module ProdCons {
  import opened Tasks
  import SemaphoreSpec

  const N: nat := 10
  const MAX_WAITERS: nat := 3

  /** Where a task is in its loop.  A slot is a token of `empty` for a producer and of `full` for
      a consumer. */
  datatype Stage = Idle | AwaitSlot | HaveSlot | AwaitMutex | InMutex | Moved | Advanced | Leaving
  datatype Pc = P(at: Stage) | C(at: Stage)

  datatype Which = Empty | Full | Mutex

  /** Count and wait queue of a semaphore; the task states are shared by all three. */
  datatype Tokens = Tokens(count: nat, waiters: seq<Tid>)

  datatype Sys = Sys(empty: Tokens, full: Tokens, mutex: Tokens, states: States, pcs: map<Tid, Pc>,
                     input: nat, output: nat, buffer: seq<int>,
                     produced: seq<int>, consumed: seq<int>)

  function Get(s: Sys, w: Which): Tokens {
    match w
    case Empty => s.empty
    case Full => s.full
    case Mutex => s.mutex
  }

  predicate Wf(s: Sys) {
    && |s.buffer| == N && s.input < N && s.output < N && s.pcs.Keys <= s.states.Keys
    && forall w, t :: t in Get(s, w).waiters ==> t in s.pcs
  }

  function Load(s: Sys, w: Which): SemaphoreSpec.Sem {
    SemaphoreSpec.Sem(Get(s, w).count, Get(s, w).waiters, MAX_WAITERS, s.states)
  }

  function Save(s: Sys, w: Which, m: SemaphoreSpec.Sem): Sys {
    var q := Tokens(m.count, m.waiters);
    match w
    case Empty => s.(empty := q, states := m.states)
    case Full => s.(full := q, states := m.states)
    case Mutex => s.(mutex := q, states := m.states)
  }

  // ----- steps

  function Sem(pc: Pc): Which {
    if pc.at == AwaitMutex || pc.at == HaveSlot || pc.at == Advanced then Mutex
    else if (pc.P? && pc.at != Leaving) || (pc.C? && pc.at == Leaving) then Empty
    else Full
  }

  /** The stage after a wait has been granted. */
  function Granted(at: Stage): Stage {
    if at == Idle || at == AwaitSlot then HaveSlot else InMutex
  }

  function At(pc: Pc, at: Stage): Pc {
    if pc.P? then P(at) else C(at)
  }

  /** `mo_sem_wait` by `t`, which stands before the call. */
  function DoWait(s: Sys, t: Tid): (Sys, SemaphoreSpec.Outcome)
    requires Wf(s) && t in s.pcs
  {
    var pc := s.pcs[t];
    var (m, o) := SemaphoreSpec.Wait(Load(s, Sem(pc)), t);
    var s' := Save(s, Sem(pc), m);
    match o
    case Done => (s'.(pcs := s.pcs[t := At(pc, Granted(pc.at))]), o)
    case Waits => (s'.(pcs := s.pcs[t := At(pc, if pc.at == Idle then AwaitSlot else AwaitMutex)]), o)
    case _ => (s, o)
  }

  /** `mo_sem_signal` by `t`; a waiter at the head of the queue receives the token. */
  function DoSignal(s: Sys, t: Tid): (Sys, SemaphoreSpec.Outcome)
    requires Wf(s) && t in s.pcs
  {
    var pc := s.pcs[t];
    var w := Sem(pc);
    var (m, o) := SemaphoreSpec.Signal(Load(s, w));
    var pcs := s.pcs[t := At(pc, if pc.at == Advanced then Leaving else Idle)];
    var q := Get(s, w).waiters;
    (Save(s, w, m).(pcs := if q == [] then pcs else pcs[q[0] := At(s.pcs[q[0]], Granted(s.pcs[q[0]].at))]), o)
  }

  function Move(s: Sys, t: Tid, item: int): Sys
    requires Wf(s) && t in s.pcs
  {
    var pcs := s.pcs[t := At(s.pcs[t], Moved)];
    if s.pcs[t].P?
    then s.(pcs := pcs, buffer := s.buffer[s.input := item], produced := s.produced + [item])
    else s.(pcs := pcs, consumed := s.consumed + [s.buffer[s.output]])
  }

  function Advance(s: Sys, t: Tid): Sys
    requires Wf(s) && t in s.pcs
  {
    var pcs := s.pcs[t := At(s.pcs[t], Advanced)];
    if s.pcs[t].P? then s.(pcs := pcs, input := (s.input + 1) % N)
    else s.(pcs := pcs, output := (s.output + 1) % N)
  }

  ghost predicate Runnable(s: Sys, t: Tid) {
    t in s.pcs && t in s.states && s.states[t] != Blocked
  }

  /** The next step of task `t`; a producer stores `item`. */
  function Step(s: Sys, t: Tid, item: int): (Sys, SemaphoreSpec.Outcome)
    requires Wf(s) && t in s.pcs
  {
    match s.pcs[t].at
    case Idle => DoWait(s, t)
    case HaveSlot => DoWait(s, t)
    case InMutex => (Move(s, t, item), SemaphoreSpec.Done)
    case Moved => (Advance(s, t), SemaphoreSpec.Done)
    case Advanced => DoSignal(s, t)
    case Leaving => DoSignal(s, t)
    case _ => (s, SemaphoreSpec.Waits)
  }

  // ----- counting tasks

  datatype Kind = Holding | InSection | Filling | Storing | Taking

  /** Holding a slot token; inside the mutex; standing for an item in the buffer that `full` does
      not count; between the access to the buffer and the update of its index. */
  predicate Is(k: Kind, pc: Pc) {
    match k
    case Holding => pc.at != Idle && pc.at != AwaitSlot
    case InSection => pc.at == InMutex || pc.at == Moved || pc.at == Advanced
    case Filling => if pc.P? then pc.at == Moved || pc.at == Advanced || pc.at == Leaving
                    else pc.at == HaveSlot || pc.at == AwaitMutex || pc.at == InMutex
    case Storing => pc == P(Moved)
    case Taking => pc == C(Moved)
  }

  ghost function TasksAt(pcs: map<Tid, Pc>, places: iset<Pc>): set<Tid> {
    set t | t in pcs && pcs[t] in places
  }

  ghost function Count(pcs: map<Tid, Pc>, k: Kind): nat {
    |TasksAt(pcs, iset pc | Is(k, pc))|
  }

  function One(b: bool): nat {
    if b then 1 else 0
  }

  lemma TasksUpdate(pcs: map<Tid, Pc>, t: Tid, pc: Pc, places: iset<Pc>)
    requires t in pcs
    ensures |TasksAt(pcs[t := pc], places)| == |TasksAt(pcs, places)| + One(pc in places) - One(pcs[t] in places)
  {
    var a, b := TasksAt(pcs, places), TasksAt(pcs[t := pc], places);
    assert a - {t} == b - {t};
    SizeWithout(a, t);
    SizeWithout(b, t);
  }

  lemma CountUpdate(pcs: map<Tid, Pc>, t: Tid, pc: Pc, k: Kind)
    requires t in pcs
    ensures Count(pcs[t := pc], k) == Count(pcs, k) + One(Is(k, pc)) - One(Is(k, pcs[t]))
  {
    TasksUpdate(pcs, t, pc, iset pc | Is(k, pc));
  }

  lemma SizeWithout(a: set<Tid>, t: Tid)
    ensures |a| == |a - {t}| + One(t in a)
  {
  }

  lemma CountOne(pcs: map<Tid, Pc>, t: Tid, k: Kind)
    requires t in pcs && Is(k, pcs[t])
    ensures Count(pcs, k) >= 1
  {
    assert t in TasksAt(pcs, iset pc | Is(k, pc));
  }

  lemma {:induction false} SubsetSize(a: set<Tid>, b: set<Tid>)
    requires a <= b
    ensures |a| <= |b|
  {
    if a != {} {
      var t :| t in a;
      SubsetSize(a - {t}, b - {t});
    }
  }

  // ----- the invariant

  predicate Waiting(pc: Pc) {
    pc.at == AwaitSlot || pc.at == AwaitMutex
  }

  predicate WaitsFor(pcs: map<Tid, Pc>, t: Tid, w: Which) {
    t in pcs && Waiting(pcs[t]) && Sem(pcs[t]) == w
  }

  ghost predicate SemsOk(s: Sys) {
    forall w :: SemaphoreSpec.Inv(Load(s, w))
  }

  /** The wait queues hold exactly the tasks that stand in a wait. */
  ghost predicate Linked(s: Sys) {
    forall w, t :: t in Get(s, w).waiters <==> WaitsFor(s.pcs, t, w)
  }

  /** Exactly the tasks that stand in a wait are blocked. */
  ghost predicate BlockedOk(s: Sys) {
    s.pcs.Keys <= s.states.Keys &&
    forall t :: t in s.pcs ==> (s.states[t] == Blocked <==> Waiting(s.pcs[t]))
  }

  ghost predicate Indices(s: Sys) {
    |s.buffer| == N && s.input < N && s.output < N
  }

  ghost predicate Queues(s: Sys) {
    Indices(s) && SemsOk(s) && Linked(s) && BlockedOk(s)
  }

  /** Slot tokens, counted or held, total N; the mutex is one token; the items in the buffer are
      the tokens of `full` and the tasks that stand for one. */
  ghost predicate Ledger(s: Sys) {
    && s.empty.count + s.full.count + Count(s.pcs, Holding) == N
    && s.mutex.count + Count(s.pcs, InSection) == 1
    && |s.produced| == |s.consumed| + s.full.count + Count(s.pcs, Filling)
  }

  /** The consumed items are the first produced ones in order, and every unread item is still in
      its slot. */
  ghost predicate Buffered(s: Sys) {
    && |s.buffer| == N
    && s.consumed <= s.produced
    && Count(s.pcs, Storing) <= |s.produced| && Count(s.pcs, Taking) <= |s.consumed|
    && s.input == (|s.produced| - Count(s.pcs, Storing)) % N
    && s.output == (|s.consumed| - Count(s.pcs, Taking)) % N
    && forall k :: |s.consumed| <= k < |s.produced| ==> s.buffer[k % N] == s.produced[k]
  }

  ghost predicate Inv(s: Sys) {
    Queues(s) && Ledger(s) && Buffered(s)
  }

  // ----- mo_sem_wait

  lemma SemWaitKeeps(m: SemaphoreSpec.Sem, t: Tid)
    requires SemaphoreSpec.Inv(m) && t in m.states && m.states[t] != Blocked
    ensures SemaphoreSpec.Inv(SemaphoreSpec.Wait(m, t).0)
  {
  }

  ghost predicate BeforeWait(s: Sys, t: Tid) {
    Runnable(s, t) && (s.pcs[t].at == Idle || s.pcs[t].at == HaveSlot)
  }

  lemma WaitSems(s: Sys, t: Tid)
    requires Wf(s) && SemsOk(s) && BlockedOk(s) && Linked(s) && BeforeWait(s, t)
    ensures SemsOk(DoWait(s, t).0)
  {
    var w := Sem(s.pcs[t]);
    assert SemaphoreSpec.Inv(Load(s, w));
    SemWaitKeeps(Load(s, w), t);
    var s' := DoWait(s, t).0;
    forall v ensures SemaphoreSpec.Inv(Load(s', v)) {
      assert SemaphoreSpec.Inv(Load(s, v));
      assert t in Get(s, v).waiters <==> WaitsFor(s.pcs, t, v);
    }
  }

  lemma WaitLinked(s: Sys, t: Tid)
    requires Wf(s) && Linked(s) && BeforeWait(s, t)
    ensures Linked(DoWait(s, t).0)
  {
    var s' := DoWait(s, t).0;
    forall v, u ensures u in Get(s', v).waiters <==> WaitsFor(s'.pcs, u, v) {
      assert u in Get(s, v).waiters <==> WaitsFor(s.pcs, u, v);
    }
  }

  lemma WaitQueues(s: Sys, t: Tid)
    requires Wf(s) && Queues(s) && BeforeWait(s, t)
    ensures Queues(DoWait(s, t).0)
  {
    WaitSems(s, t);
    WaitLinked(s, t);
  }

  lemma WaitLedger(s: Sys, t: Tid)
    requires Wf(s) && Ledger(s) && t in s.pcs && (s.pcs[t].at == Idle || s.pcs[t].at == HaveSlot)
    ensures Ledger(DoWait(s, t).0)
  {
    var s' := DoWait(s, t).0;
    if s' != s {
      CountUpdate(s.pcs, t, s'.pcs[t], Holding);
      CountUpdate(s.pcs, t, s'.pcs[t], InSection);
      CountUpdate(s.pcs, t, s'.pcs[t], Filling);
    }
  }

  lemma WaitBuffered(s: Sys, t: Tid)
    requires Wf(s) && Buffered(s) && t in s.pcs && (s.pcs[t].at == Idle || s.pcs[t].at == HaveSlot)
    ensures Buffered(DoWait(s, t).0)
  {
    var s' := DoWait(s, t).0;
    if s' != s {
      CountUpdate(s.pcs, t, s'.pcs[t], Storing);
      CountUpdate(s.pcs, t, s'.pcs[t], Taking);
    }
  }

  // ----- mo_sem_signal

  ghost predicate BeforeSignal(s: Sys, t: Tid) {
    Runnable(s, t) && (s.pcs[t].at == Advanced || s.pcs[t].at == Leaving)
  }

  lemma SemSignalKeeps(m: SemaphoreSpec.Sem, t: Tid)
    requires SemaphoreSpec.Inv(m)
    ensures SemaphoreSpec.Inv(SemaphoreSpec.Signal(m).0) && SemaphoreSpec.Signal(m).1 == SemaphoreSpec.Done
  {
  }

  /** The head of a wait queue stands in the matching wait, and is nobody else. */
  lemma HeadWaits(s: Sys, w: Which)
    requires Linked(s) && Get(s, w).waiters != []
    ensures WaitsFor(s.pcs, Get(s, w).waiters[0], w)
  {
  }

  lemma SignalSems(s: Sys, t: Tid)
    requires Wf(s) && SemsOk(s) && Linked(s) && BeforeSignal(s, t)
    ensures SemsOk(DoSignal(s, t).0) && DoSignal(s, t).1 == SemaphoreSpec.Done
  {
    var w := Sem(s.pcs[t]);
    assert SemaphoreSpec.Inv(Load(s, w));
    SemSignalKeeps(Load(s, w), t);
    if Get(s, w).waiters != [] { HeadWaits(s, w); }
    var s' := DoSignal(s, t).0;
    forall v ensures SemaphoreSpec.Inv(Load(s', v)) {
      assert SemaphoreSpec.Inv(Load(s, v));
      if v != w && Get(s, w).waiters != [] {
        var u := Get(s, w).waiters[0];
        assert u in Get(s, v).waiters <==> WaitsFor(s.pcs, u, v);
      }
    }
  }

  lemma SignalLinked(s: Sys, t: Tid)
    requires Wf(s) && SemsOk(s) && Linked(s) && BeforeSignal(s, t)
    ensures Linked(DoSignal(s, t).0)
  {
    var w := Sem(s.pcs[t]);
    var q := Get(s, w).waiters;
    assert SemaphoreSpec.Inv(Load(s, w));
    if q != [] { HeadWaits(s, w); }
    var s' := DoSignal(s, t).0;
    forall v, u ensures u in Get(s', v).waiters <==> WaitsFor(s'.pcs, u, v) {
      assert u in Get(s, v).waiters <==> WaitsFor(s.pcs, u, v);
      if q != [] && v == w { TailMembers(q, u); }
    }
  }

  lemma SignalBlocked(s: Sys, t: Tid)
    requires Wf(s) && SemsOk(s) && Linked(s) && BlockedOk(s) && BeforeSignal(s, t)
    ensures BlockedOk(DoSignal(s, t).0)
  {
    var w := Sem(s.pcs[t]);
    assert SemaphoreSpec.Inv(Load(s, w));
    if Get(s, w).waiters != [] { HeadWaits(s, w); }
  }

  lemma SignalQueues(s: Sys, t: Tid)
    requires Wf(s) && Queues(s) && BeforeSignal(s, t)
    ensures Queues(DoSignal(s, t).0)
  {
    SignalSems(s, t);
    SignalLinked(s, t);
    SignalBlocked(s, t);
  }

  /** The tasks a signal moves: the caller and, if there is one, the waiter it wakes. */
  lemma SignalCount(s: Sys, t: Tid, k: Kind)
    requires Wf(s) && Linked(s) && BeforeSignal(s, t)
    ensures var s' := DoSignal(s, t).0; var q := Get(s, Sem(s.pcs[t])).waiters;
      Count(s'.pcs, k) == Count(s.pcs, k) + One(Is(k, s'.pcs[t])) - One(Is(k, s.pcs[t])) +
        if q == [] then 0 else One(Is(k, s'.pcs[q[0]])) - One(Is(k, s.pcs[q[0]]))
  {
    var pc, w := s.pcs[t], Sem(s.pcs[t]);
    var next := At(pc, if pc.at == Advanced then Leaving else Idle);
    CountUpdate(s.pcs, t, next, k);
    if Get(s, w).waiters != [] {
      HeadWaits(s, w);
      var u := Get(s, w).waiters[0];
      CountUpdate(s.pcs[t := next], u, At(s.pcs[u], Granted(s.pcs[u].at)), k);
    }
  }

  lemma SignalLedger(s: Sys, t: Tid)
    requires Wf(s) && SemsOk(s) && Linked(s) && Ledger(s) && BeforeSignal(s, t)
    ensures Ledger(DoSignal(s, t).0)
  {
    var w := Sem(s.pcs[t]);
    SignalCount(s, t, Holding);
    SignalCount(s, t, InSection);
    SignalCount(s, t, Filling);
    assert SemaphoreSpec.Inv(Load(s, w));
    if Get(s, w).waiters != [] {
      HeadWaits(s, w);
      assert Get(s, w).waiters[0] in Get(s, w).waiters;
    }
  }

  lemma SignalBuffered(s: Sys, t: Tid)
    requires Wf(s) && Linked(s) && Buffered(s) && BeforeSignal(s, t)
    ensures Buffered(DoSignal(s, t).0)
  {
    SignalCount(s, t, Storing);
    SignalCount(s, t, Taking);
    if Get(s, Sem(s.pcs[t])).waiters != [] { HeadWaits(s, Sem(s.pcs[t])); }
  }

  // ----- inside the mutex

  lemma {:induction false} Singleton(a: set<Tid>, t: Tid)
    requires t in a && |a| == 1
    ensures a == {t}
  {
    SizeWithout(a, t);
    if u :| u in a && u != t { SizeWithout(a - {t}, u); }
  }

  /** Mutual exclusion: a task inside the mutex is the only one there. */
  lemma AloneInSection(s: Sys, t: Tid)
    requires Ledger(s) && t in s.pcs && Is(InSection, s.pcs[t])
    ensures forall u :: u in s.pcs && Is(InSection, s.pcs[u]) ==> u == t
  {
    CountOne(s.pcs, t, InSection);
    var a := TasksAt(s.pcs, iset pc | Is(InSection, pc));
    Singleton(a, t);
    forall u | u in s.pcs && Is(InSection, s.pcs[u]) ensures u == t {
      assert u in a;
    }
  }

  lemma NoneMoving(s: Sys, t: Tid, k: Kind)
    requires Ledger(s) && t in s.pcs && Is(InSection, s.pcs[t]) && (k == Storing || k == Taking)
    ensures Count(s.pcs, k) == One(Is(k, s.pcs[t]))
  {
    AloneInSection(s, t);
    var a := TasksAt(s.pcs, iset pc | Is(k, pc));
    forall u | u in a ensures u == t {
      assert Is(InSection, s.pcs[u]);
    }
    assert a == if Is(k, s.pcs[t]) then {t} else {};
  }

  /** A producer about to store holds an empty slot that no item occupies. */
  lemma RoomToStore(s: Sys, t: Tid)
    requires Ledger(s) && t in s.pcs && s.pcs[t] == P(InMutex)
    ensures |s.produced| - |s.consumed| < N
  {
    var a := TasksAt(s.pcs, iset pc | Is(Filling, pc));
    var b := TasksAt(s.pcs, iset pc | Is(Holding, pc));
    SizeWithout(b, t);
    SubsetSize(a, b - {t});
  }

  lemma ItemToTake(s: Sys, t: Tid)
    requires Ledger(s) && t in s.pcs && s.pcs[t] == C(InMutex)
    ensures |s.produced| > |s.consumed|
  {
    CountOne(s.pcs, t, Filling);
  }

  ghost predicate BeforeMove(s: Sys, t: Tid) {
    Runnable(s, t) && s.pcs[t].at == InMutex
  }

  /** The slot a producer writes holds no unread item. */
  lemma NoUnreadSlotOverwritten(s: Sys, t: Tid, k: nat)
    requires Ledger(s) && Buffered(s) && t in s.pcs && s.pcs[t] == P(InMutex)
    requires |s.consumed| <= k < |s.produced|
    ensures k % N != s.input
  {
    RoomToStore(s, t);
    NoneMoving(s, t, Storing);
  }

  lemma StoreBuffered(s: Sys, t: Tid, item: int)
    requires Wf(s) && Ledger(s) && Buffered(s) && BeforeMove(s, t) && s.pcs[t].P?
    ensures Buffered(Move(s, t, item))
  {
    var s' := Move(s, t, item);
    NoneMoving(s, t, Storing);
    CountUpdate(s.pcs, t, P(Moved), Storing);
    CountUpdate(s.pcs, t, P(Moved), Taking);
    forall k | |s'.consumed| <= k < |s'.produced| ensures s'.buffer[k % N] == s'.produced[k] {
      if k < |s.produced| { NoUnreadSlotOverwritten(s, t, k); }
    }
  }

  lemma TakeBuffered(s: Sys, t: Tid, item: int)
    requires Wf(s) && Ledger(s) && Buffered(s) && BeforeMove(s, t) && s.pcs[t].C?
    ensures Buffered(Move(s, t, item))
  {
    NoneMoving(s, t, Taking);
    ItemToTake(s, t);
    CountUpdate(s.pcs, t, C(Moved), Storing);
    CountUpdate(s.pcs, t, C(Moved), Taking);
    assert s.buffer[|s.consumed| % N] == s.produced[|s.consumed|];
  }

  lemma MoveLedger(s: Sys, t: Tid, item: int)
    requires Wf(s) && Ledger(s) && BeforeMove(s, t)
    ensures Ledger(Move(s, t, item))
  {
    var pc := At(s.pcs[t], Moved);
    CountUpdate(s.pcs, t, pc, Holding);
    CountUpdate(s.pcs, t, pc, InSection);
    CountUpdate(s.pcs, t, pc, Filling);
  }

  /** A step that only moves the caller past code without a wait leaves the queues as they are. */
  lemma StayQueues(s: Sys, s': Sys, t: Tid)
    requires Queues(s) && Indices(s') && t in s.pcs && !Waiting(s.pcs[t])
    requires s'.pcs.Keys == s.pcs.Keys && !Waiting(s'.pcs[t])
    requires forall u :: u in s.pcs && u != t ==> s'.pcs[u] == s.pcs[u]
    requires s'.empty == s.empty && s'.full == s.full && s'.mutex == s.mutex && s'.states == s.states
    ensures Queues(s')
  {
    forall w ensures SemaphoreSpec.Inv(Load(s', w)) {
      assert SemaphoreSpec.Inv(Load(s, w));
    }
    forall w, u ensures u in Get(s', w).waiters <==> WaitsFor(s'.pcs, u, w) {
      assert u in Get(s, w).waiters <==> WaitsFor(s.pcs, u, w);
    }
  }

  lemma MoveKeeps(s: Sys, t: Tid, item: int)
    requires Wf(s) && Inv(s) && BeforeMove(s, t)
    ensures Inv(Move(s, t, item))
  {
    MoveLedger(s, t, item);
    if s.pcs[t].P? { StoreBuffered(s, t, item); } else { TakeBuffered(s, t, item); }
    StayQueues(s, Move(s, t, item), t);
  }

  lemma AdvanceLedger(s: Sys, t: Tid)
    requires Wf(s) && Ledger(s) && Runnable(s, t) && s.pcs[t].at == Moved
    ensures Ledger(Advance(s, t))
  {
    var pc := At(s.pcs[t], Advanced);
    CountUpdate(s.pcs, t, pc, Holding);
    CountUpdate(s.pcs, t, pc, InSection);
    CountUpdate(s.pcs, t, pc, Filling);
  }

  lemma AdvanceBuffered(s: Sys, t: Tid)
    requires Wf(s) && Ledger(s) && Buffered(s) && Runnable(s, t) && s.pcs[t].at == Moved
    ensures Buffered(Advance(s, t))
  {
    var pc := At(s.pcs[t], Advanced);
    NoneMoving(s, t, Storing);
    NoneMoving(s, t, Taking);
    CountUpdate(s.pcs, t, pc, Storing);
    CountUpdate(s.pcs, t, pc, Taking);
    if s.pcs[t].P? { NextIndex(|s.produced|); } else { NextIndex(|s.consumed|); }
  }

  lemma NextIndex(x: nat)
    requires x > 0
    ensures ((x - 1) % N + 1) % N == x % N
  {
  }

  lemma AdvanceKeeps(s: Sys, t: Tid)
    requires Wf(s) && Inv(s) && Runnable(s, t) && s.pcs[t].at == Moved
    ensures Inv(Advance(s, t))
  {
    AdvanceLedger(s, t);
    AdvanceBuffered(s, t);
    StayQueues(s, Advance(s, t), t);
  }

  // ----- whole runs

  /** Every step of every task keeps the invariant. */
  lemma StepKeeps(s: Sys, t: Tid, item: int)
    requires Wf(s) && Inv(s) && Runnable(s, t)
    ensures Inv(Step(s, t, item).0)
  {
    match s.pcs[t].at {
      case Idle =>
        WaitQueues(s, t);
        WaitLedger(s, t);
        WaitBuffered(s, t);
      case HaveSlot =>
        WaitQueues(s, t);
        WaitLedger(s, t);
        WaitBuffered(s, t);
      case InMutex => MoveKeeps(s, t, item);
      case Moved => AdvanceKeeps(s, t);
      case Advanced =>
        SignalQueues(s, t);
        SignalLedger(s, t);
        SignalBuffered(s, t);
      case Leaving =>
        SignalQueues(s, t);
        SignalLedger(s, t);
        SignalBuffered(s, t);
      case _ =>
    }
  }

  datatype Turn = Turn(t: Tid, item: int)

  /** Any interleaving: at each point some runnable task takes its next step. */
  ghost predicate IsRun(ss: seq<Sys>, turns: seq<Turn>) {
    && |ss| == |turns| + 1
    && forall i :: 0 <= i < |turns| ==>
         && Wf(ss[i]) && Runnable(ss[i], turns[i].t)
         && Step(ss[i], turns[i].t, turns[i].item).0 == ss[i + 1]
  }

  /** In every interleaving the consumers together receive the produced items, each once and in
      production order, and tokens and held slots always total N. */
  lemma {:induction false} RunsDeliverInOrder(ss: seq<Sys>, turns: seq<Turn>, i: nat)
    requires IsRun(ss, turns) && Inv(ss[0]) && i < |ss|
    ensures Inv(ss[i])
    ensures ss[i].consumed <= ss[i].produced
    ensures ss[i].empty.count + ss[i].full.count + Count(ss[i].pcs, Holding) == 10
  {
    if i > 0 {
      RunsDeliverInOrder(ss, turns, i - 1);
      StepKeeps(ss[i - 1], turns[i - 1].t, turns[i - 1].item);
    }
  }

  // ----- the application

  lemma {:induction false} DistinctSize(q: seq<Tid>, a: set<Tid>)
    requires Distinct(q) && forall t :: t in q ==> t in a
    ensures |q| <= |a|
  {
    if q != [] {
      var u := q[0];
      SizeWithout(a, u);
      assert forall i :: 0 <= i < |q[1..]| ==> q[1..][i] == q[i + 1];
      DistinctSize(q[1..], a - {u});
    }
  }

  /** With at most three tasks, as the application spawns, no semaphore call ever panics. */
  lemma ThreeTasksNeverPanic(s: Sys, t: Tid, item: int)
    requires Wf(s) && Queues(s) && Runnable(s, t) && |s.pcs| <= 3
    ensures Step(s, t, item).1 != SemaphoreSpec.Panics
  {
    if BeforeWait(s, t) {
      var w := Sem(s.pcs[t]);
      assert SemaphoreSpec.Inv(Load(s, w));
      assert t in Get(s, w).waiters <==> WaitsFor(s.pcs, t, w);
      SizeWithout(s.pcs.Keys, t);
      DistinctSize(Get(s, w).waiters, s.pcs.Keys - {t});
      SemaphoreSpec.WaiterLimitExact(MAX_WAITERS);
    } else if BeforeSignal(s, t) {
      SignalSems(s, t);
    }
  }

  ghost function Boot(pcs: map<Tid, Pc>, states: States, buffer: seq<int>): Sys {
    Sys(Tokens(N, []), Tokens(0, []), Tokens(1, []), states, pcs, 0, 0, buffer, [], [])
  }

  /** `app_main`: all tasks at the top of their loops, N empty slots, no full ones. */
  lemma StartInv(pcs: map<Tid, Pc>, states: States, buffer: seq<int>)
    requires forall t :: t in pcs ==> pcs[t].at == Idle && t in states && states[t] != Blocked
    requires |buffer| == N
    ensures Inv(Boot(pcs, states, buffer))
  {
  }

  // ----- progress

  /** The round of every task. */
  function Successor(at: Stage): Stage {
    match at
    case Idle => HaveSlot
    case AwaitSlot => HaveSlot
    case HaveSlot => InMutex
    case AwaitMutex => InMutex
    case InMutex => Moved
    case Moved => Advanced
    case Advanced => Leaving
    case Leaving => Idle
  }

  /** The task runs, and the semaphore it is about to wait for, if any, has a token. */
  ghost predicate CanMove(s: Sys, t: Tid) {
    Runnable(s, t) && (s.pcs[t].at == Idle || s.pcs[t].at == HaveSlot ==> Get(s, Sem(s.pcs[t])).count > 0)
  }

  /** Such a task goes on to its next stage.  Any other runnable task stands before a wait without a token;
      it is blocked there, or the call panics because of too many waiters. */
  lemma StepMoves(s: Sys, t: Tid, item: int)
    requires Wf(s) && Queues(s) && Runnable(s, t)
    ensures var (s', o) := Step(s, t, item);
      if CanMove(s, t) then o == SemaphoreSpec.Done && t in s'.pcs && s'.pcs[t] == At(s.pcs[t], Successor(s.pcs[t].at))
      else (o == SemaphoreSpec.Waits && WaitsFor(s'.pcs, t, Sem(s.pcs[t]))) || (o == SemaphoreSpec.Panics && s' == s)
  {
    var w := Sem(s.pcs[t]);
    assert SemaphoreSpec.Inv(Load(s, w));
    if BeforeWait(s, t) {
      SemaphoreSpec.WaitMeans(Load(s, w), t);
      hide SemaphoreSpec.Wait, SemaphoreSpec.Inv;
    } else if BeforeSignal(s, t) {
      SignalSems(s, t);
      if Get(s, w).waiters != [] { HeadWaits(s, w); }
    }
  }

  lemma TokenMeansNoWaiter(s: Sys, t: Tid)
    requires Queues(s) && t in s.pcs && Get(s, Sem(s.pcs[t])).count > 0
    ensures !Waiting(s.pcs[t]) && Runnable(s, t)
  {
    var w := Sem(s.pcs[t]);
    assert SemaphoreSpec.Inv(Load(s, w));
    assert t in Get(s, w).waiters <==> WaitsFor(s.pcs, t, w);
  }

  lemma NobodyThere(pcs: map<Tid, Pc>, k: Kind)
    requires forall t :: t in pcs ==> !Is(k, pcs[t])
    ensures Count(pcs, k) == 0
  {
    assert TasksAt(pcs, iset pc | Is(k, pc)) == {};
  }

  /** A task beyond its first wait can move, or the one inside the mutex can. */
  lemma HolderMoves(s: Sys, t: Tid) returns (u: Tid)
    requires Queues(s) && Ledger(s) && t in s.pcs && Is(Holding, s.pcs[t])
    ensures CanMove(s, u)
  {
    if v :| v in s.pcs && Is(InSection, s.pcs[v]) {
      u := v;
    } else {
      NobodyThere(s.pcs, InSection);
      u := t;
      if s.pcs[t].at != Leaving { TokenMeansNoWaiter(s, t); }
    }
  }

  /** No deadlock: with a producer and a consumer, some task can always move. */
  lemma SomeTaskMoves(s: Sys, p: Tid, c: Tid) returns (u: Tid)
    requires Inv(s) && p in s.pcs && s.pcs[p].P? && c in s.pcs && s.pcs[c].C?
    ensures CanMove(s, u)
  {
    hide Buffered;
    if t :| t in s.pcs && Is(Holding, s.pcs[t]) {
      u := HolderMoves(s, t);
    } else {
      NobodyThere(s.pcs, Holding);
      u := if s.empty.count > 0 then p else c;
      TokenMeansNoWaiter(s, u);
    }
  }

  // ----- runs that deliver

  function WithTokens(s: Sys, w: Which, n: nat): Sys {
    match w
    case Empty => s.(empty := Tokens(n, []))
    case Full => s.(full := Tokens(n, []))
    case Mutex => s.(mutex := Tokens(n, []))
  }

  /** Nobody waits. */
  ghost predicate Calm(s: Sys, t: Tid) {
    Wf(s) && Runnable(s, t) && s.empty.waiters == s.full.waiters == s.mutex.waiters == []
  }

  lemma TakeToken(s: Sys, t: Tid, item: int)
    requires Calm(s, t) && BeforeWait(s, t) && Get(s, Sem(s.pcs[t])).count > 0
    ensures var pc := s.pcs[t]; var w := Sem(pc);
      Step(s, t, item).0 == WithTokens(s, w, Get(s, w).count - 1).(pcs := s.pcs[t := At(pc, Successor(pc.at))])
  {
    hide SemaphoreSpec.WaiterLimit;
  }

  lemma PutToken(s: Sys, t: Tid, item: int)
    requires Calm(s, t) && BeforeSignal(s, t) && Get(s, Sem(s.pcs[t])).count < SemaphoreSpec.SEM_MAX_COUNT
    ensures var pc := s.pcs[t]; var w := Sem(pc);
      Step(s, t, item).0 == WithTokens(s, w, Get(s, w).count + 1).(pcs := s.pcs[t := At(pc, Successor(pc.at))])
  {
  }

  lemma JoinRuns(a: seq<Sys>, x: seq<Turn>, b: seq<Sys>, y: seq<Turn>)
    requires IsRun(a, x) && IsRun(b, y) && a[|a| - 1] == b[0]
    ensures IsRun(a + b[1..], x + y) && (a + b[1..])[|a + b[1..]| - 1] == b[|b| - 1]
  {
    hide Step, Wf;
    var ss, ts := a + b[1..], x + y;
    forall i | 0 <= i < |ts|
      ensures Wf(ss[i]) && Runnable(ss[i], ts[i].t) && Step(ss[i], ts[i].t, ts[i].item).0 == ss[i + 1]
    {
      if i >= |x| { assert ss[i] == b[i - |x|] && ss[i + 1] == b[i - |x| + 1] && ts[i] == y[i - |x|]; }
    }
  }

  lemma TwoTurns(a: Sys, b: Sys, c: Sys, t: Tid, item: int)
    requires Wf(a) && Runnable(a, t) && Step(a, t, item).0 == b
    requires Wf(b) && Runnable(b, t) && Step(b, t, item).0 == c
    ensures IsRun([a, b, c], [Turn(t, item), Turn(t, item)])
  {
    hide Step, Wf;
  }

  /** All tasks stand at the top of their loops. */
  ghost predicate AllIdle(s: Sys) {
    && Indices(s) && s.empty.waiters == s.full.waiters == [] && s.mutex == Tokens(1, [])
    && s.empty.count <= N && s.full.count <= N
    && forall t :: t in s.pcs ==> s.pcs[t].at == Idle && t in s.states && s.states[t] != Blocked
  }

  ghost function InSectionOf(s: Sys, t: Tid): Sys
    requires t in s.pcs
  {
    var w := Sem(s.pcs[t]);
    WithTokens(s, w, if Get(s, w).count > 0 then Get(s, w).count - 1 else 0).(
      mutex := Tokens(0, []), pcs := s.pcs[t := At(s.pcs[t], InMutex)])
  }

  lemma EnterRun(s: Sys, t: Tid, item: int) returns (ss: seq<Sys>, turns: seq<Turn>)
    requires AllIdle(s) && t in s.pcs && Get(s, Sem(s.pcs[t])).count > 0
    ensures IsRun(ss, turns) && ss[0] == s && ss[|ss| - 1] == InSectionOf(s, t)
  {
    var pc, w := s.pcs[t], Sem(s.pcs[t]);
    var s1 := WithTokens(s, w, Get(s, w).count - 1).(pcs := s.pcs[t := At(pc, HaveSlot)]);
    var s2 := InSectionOf(s, t);
    TakeToken(s, t, item);
    TakeToken(s1, t, item);
    assert s1.pcs[t := At(pc, InMutex)] == s2.pcs;
    hide Step;
    TwoTurns(s, s1, s2, t, item);
    ss, turns := [s, s1, s2], [Turn(t, item), Turn(t, item)];
  }

  /** The state after task `t` has stored `item`, or has taken one, and moved the index. */
  ghost function Served(s: Sys, t: Tid, item: int): Sys
    requires Indices(s) && t in s.pcs
  {
    if s.pcs[t].P?
    then s.(input := (s.input + 1) % N, buffer := s.buffer[s.input := item], produced := s.produced + [item])
    else s.(output := (s.output + 1) % N, consumed := s.consumed + [s.buffer[s.output]])
  }

  lemma ServeRun(s: Sys, t: Tid, item: int) returns (ss: seq<Sys>, turns: seq<Turn>)
    requires Calm(s, t) && s.pcs[t].at == InMutex
    ensures IsRun(ss, turns) && ss[0] == s
    ensures ss[|ss| - 1] == Served(s, t, item).(pcs := s.pcs[t := At(s.pcs[t], Advanced)])
  {
    var s1 := Step(s, t, item).0;
    var s2 := Step(s1, t, item).0;
    assert s2.pcs == s.pcs[t := At(s.pcs[t], Advanced)];
    TwoTurns(s, s1, s2, t, item);
    ss, turns := [s, s1, s2], [Turn(t, item), Turn(t, item)];
  }

  lemma LeaveRun(s: Sys, t: Tid, item: int) returns (ss: seq<Sys>, turns: seq<Turn>)
    requires Calm(s, t) && s.pcs[t].at == Advanced && s.mutex.count == 0 && s.empty.count <= N && s.full.count <= N
    ensures IsRun(ss, turns) && ss[0] == s
    ensures var w := if s.pcs[t].P? then Full else Empty;
      ss[|ss| - 1] == WithTokens(s, w, Get(s, w).count + 1).(mutex := Tokens(1, []), pcs := s.pcs[t := At(s.pcs[t], Idle)])
  {
    var pc := s.pcs[t];
    var s1 := s.(mutex := Tokens(1, []), pcs := s.pcs[t := At(pc, Leaving)]);
    var w := Sem(At(pc, Leaving));
    var s2 := WithTokens(s1, w, Get(s, w).count + 1).(pcs := s.pcs[t := At(pc, Idle)]);
    PutToken(s, t, item);
    PutToken(s1, t, item);
    assert s1.pcs[t := At(pc, Idle)] == s2.pcs;
    hide Step;
    TwoTurns(s, s1, s2, t, item);
    ss, turns := [s, s1, s2], [Turn(t, item), Turn(t, item)];
  }

  /** One whole round of a task: the buffer is served and one token passes to the other side. */
  ghost function Rounded(s: Sys, t: Tid, item: int): Sys
    requires Indices(s) && t in s.pcs
  {
    var s' := Served(s, t, item);
    if s.pcs[t].P? then s'.(empty := Tokens(Less(s.empty.count), []), full := Tokens(s.full.count + 1, []))
    else s'.(full := Tokens(Less(s.full.count), []), empty := Tokens(s.empty.count + 1, []))
  }

  function Less(n: nat): nat {
    if n > 0 then n - 1 else 0
  }

  /** The states between the three parts of a round. */
  lemma RoundStates(s: Sys, t: Tid, item: int)
    requires AllIdle(s) && t in s.pcs && Get(s, Sem(s.pcs[t])).count > 0
    ensures var s1 := InSectionOf(s, t); var pc := s.pcs[t];
      && Calm(s1, t) && s1.pcs[t] == At(pc, InMutex)
      && var s2 := Served(s1, t, item).(pcs := s1.pcs[t := At(pc, Advanced)]);
      && Calm(s2, t) && s2.pcs[t] == At(pc, Advanced) && s2.mutex.count == 0 && s2.empty.count <= N && s2.full.count <= N
      && var w := if pc.P? then Full else Empty;
        WithTokens(s2, w, Get(s2, w).count + 1).(mutex := Tokens(1, []), pcs := s2.pcs[t := At(pc, Idle)]) == Rounded(s, t, item)
  {
    assert s.pcs[t := At(s.pcs[t], InMutex)][t := At(s.pcs[t], Advanced)][t := At(s.pcs[t], Idle)] == s.pcs;
  }

  lemma JoinThree(a: seq<Sys>, x: seq<Turn>, b: seq<Sys>, y: seq<Turn>, c: seq<Sys>, z: seq<Turn>)
      returns (ss: seq<Sys>, turns: seq<Turn>)
    requires IsRun(a, x) && IsRun(b, y) && IsRun(c, z) && a[|a| - 1] == b[0] && b[|b| - 1] == c[0]
    ensures IsRun(ss, turns) && ss[0] == a[0] && ss[|ss| - 1] == c[|c| - 1]
  {
    JoinRuns(a, x, b, y);
    JoinRuns(a + b[1..], x + y, c, z);
    ss, turns := a + b[1..] + c[1..], x + y + z;
  }

  lemma RoundRun(s: Sys, t: Tid, item: int) returns (ss: seq<Sys>, turns: seq<Turn>)
    requires AllIdle(s) && t in s.pcs && Get(s, Sem(s.pcs[t])).count > 0
    ensures IsRun(ss, turns) && ss[0] == s && ss[|ss| - 1] == Rounded(s, t, item)
  {
    RoundStates(s, t, item);
    hide IsRun, Calm, InSectionOf, Served, Rounded, AllIdle, WithTokens;
    var s1, pc := InSectionOf(s, t), s.pcs[t];
    var a, x := EnterRun(s, t, item);
    var b, y := ServeRun(s1, t, item);
    var c, z := LeaveRun(Served(s1, t, item).(pcs := s1.pcs[t := At(pc, Advanced)]), t, item);
    ss, turns := JoinThree(a, x, b, y, c, z);
  }

  lemma {:induction false} DeliverRun(s: Sys, p: Tid, c: Tid, items: seq<int>)
      returns (ss: seq<Sys>, turns: seq<Turn>)
    requires AllIdle(s) && p in s.pcs && s.pcs[p].P? && c in s.pcs && s.pcs[c].C?
    requires s.input == s.output && s.empty.count == N && s.full.count == 0
    ensures IsRun(ss, turns) && ss[0] == s
    ensures var s' := ss[|ss| - 1]; s'.produced == s.produced + items && s'.consumed == s.consumed + items
    decreases |items|
  {
    if items == [] {
      ss, turns := [s], [];
    } else {
      var s1 := Rounded(s, p, items[0]);
      var s2 := Rounded(s1, c, 0);
      var a, x := RoundRun(s, p, items[0]);
      var b, y := RoundRun(s1, c, 0);
      assert s2.produced == s.produced + [items[0]] && s2.consumed == s.consumed + [items[0]];
      hide IsRun;
      var d, z := DeliverRun(s2, p, c, items[1..]);
      ss, turns := JoinThree(a, x, b, y, d, z);
      assert s.produced + [items[0]] + items[1..] == s.produced + items;
      assert s.consumed + [items[0]] + items[1..] == s.consumed + items;
    }
  }

  /** From `app_main`, for every sequence of items: a run in which exactly these are produced and consumed. */
  lemma EverySequenceDelivered(pcs: map<Tid, Pc>, states: States, buffer: seq<int>, p: Tid, c: Tid, items: seq<int>)
      returns (ss: seq<Sys>, turns: seq<Turn>)
    requires forall t :: t in pcs ==> pcs[t].at == Idle && t in states && states[t] != Blocked
    requires |buffer| == N && p in pcs && pcs[p].P? && c in pcs && pcs[c].C?
    ensures IsRun(ss, turns) && ss[0] == Boot(pcs, states, buffer)
    ensures ss[|ss| - 1].produced == items && ss[|ss| - 1].consumed == items
  {
    ss, turns := DeliverRun(Boot(pcs, states, buffer), p, c, items);
    assert [] + items == items;
  }
}
