/** Counting semaphores with direct hand-off (kernel/semaphore.c, `_sched_block` in kernel/task.c).

    Each step below is one critical section.  A waiting task is handed the token by the signalling
    task, so the count is not touched while tasks wait. */
module SemaphoreSpec {
  import opened Bits
  import opened Tasks
  import Queue

  const SEM_MAX_COUNT: nat := 0x7FFF_FFFE

  /** A semaphore and the task states its critical sections read and write. */
  datatype Sem = Sem(count: nat, waiters: seq<Tid>, maxWaiters: nat, states: States)

  /** How a call ends: it returns, fails (`mo_sem_trywait`), blocks its caller, or panics. */
  datatype Outcome = Done | Failed | Waits | Panics

  /** Waiters the ring behind the semaphore can hold at once. */
  function WaiterLimit(maxWaiters: nat): nat
    requires maxWaiters > 0
  {
    var ring := Queue.RingSize(maxWaiters);
    if maxWaiters < ring then maxWaiters else if ring == 0 then 0 else ring - 1
  }

  /** The limit is the requested one except when that is a power of two above 1. */
  lemma WaiterLimitExact(maxWaiters: nat)
    requires maxWaiters > 0
    ensures WaiterLimit(maxWaiters) == if maxWaiters > 1 && IsPowerOf2(maxWaiters) then maxWaiters - 1 else maxWaiters
  {
    Queue.RingSizeFacts(maxWaiters);
    if maxWaiters > 1 && !IsPowerOf2(maxWaiters) {
      assert maxWaiters != Queue.RingSize(maxWaiters);
    }
  }

  predicate Free(s: Sem) {
    s.count > 0 && s.waiters == []
  }

  function Wait(s: Sem, t: Tid): (Sem, Outcome)
    requires s.maxWaiters > 0
  {
    if Free(s) then (s.(count := s.count - 1), Done)
    else if |s.waiters| >= WaiterLimit(s.maxWaiters) then (s, Panics)
    else (s.(waiters := s.waiters + [t], states := s.states[t := Blocked]), Waits)
  }

  function TryWait(s: Sem): (Sem, Outcome) {
    if Free(s) then (s.(count := s.count - 1), Done) else (s, Failed)
  }

  function Signal(s: Sem): (Sem, Outcome)
    requires forall w :: w in s.waiters ==> w in s.states
  {
    if s.waiters != [] then
      var w := s.waiters[0];
      if s.states[w] == Blocked
      then (s.(waiters := s.waiters[1..], states := s.states[w := Ready]), Done)
      else (s.(waiters := s.waiters[1..]), Panics)
    else if s.count < SEM_MAX_COUNT then (s.(count := s.count + 1), Done)
    else (s, Done)
  }

  ghost predicate Inv(s: Sem) {
    && s.maxWaiters > 0 && s.count <= SEM_MAX_COUNT
    && (s.count > 0 ==> s.waiters == [])
    && Distinct(s.waiters) && |s.waiters| <= WaiterLimit(s.maxWaiters)
    && forall w :: w in s.waiters ==> w in s.states && s.states[w] == Blocked
  }

  // ----- what each call does

  /** Nothing about any task but `t` differs. */
  ghost predicate OthersSame(s: Sem, s': Sem, t: Tid) {
    && s'.maxWaiters == s.maxWaiters && s'.states.Keys == s.states.Keys + {t}
    && forall u :: u in s.states && u != t ==> s'.states[u] == s.states[u]
  }

  /** A wait takes a token exactly when there is one.  Without one the caller joins the queue last and is
      blocked, unless the queue is at its limit; only then the call panics. */
  lemma WaitMeans(s: Sem, t: Tid)
    requires Inv(s) && t in s.states
    ensures var (s', o) := Wait(s, t);
      && OthersSame(s, s', t)
      && match o
         case Done => s.count > 0 && s'.count == s.count - 1 && s'.waiters == [] && s'.states[t] == s.states[t]
         case Waits => s.count == 0 && |s.waiters| < WaiterLimit(s.maxWaiters) && s'.count == 0 && s'.waiters == s.waiters + [t] && s'.states[t] == Blocked
         case Panics => s.count == 0 && |s.waiters| == WaiterLimit(s.maxWaiters) && s' == s
         case Failed => false
  {
    hide WaiterLimit;
  }

  /** The variant that does not wait takes a token exactly when there is one, and otherwise does nothing. */
  lemma TryWaitMeans(s: Sem)
    requires Inv(s)
    ensures var (s', o) := TryWait(s);
      if s.count > 0 then o == Done && s'.count == s.count - 1 && s'.(count := s.count) == s
      else o == Failed && s' == s
  {
    hide WaiterLimit;
  }

  /** A signal wakes exactly the oldest waiter, if there is one; otherwise it adds a token, up to the maximum. */
  lemma SignalMeans(s: Sem)
    requires Inv(s)
    ensures var (s', o) := Signal(s);
      && o == Done
      && if s.waiters == [] then
           s'.(count := s.count) == s && s'.count == if s.count == 0x7FFF_FFFE then s.count else s.count + 1
         else
           && OthersSame(s, s', s.waiters[0]) && s'.states[s.waiters[0]] == Ready
           && s'.count == s.count == 0 && [s.waiters[0]] + s'.waiters == s.waiters
  {
    hide WaiterLimit;
    if s.waiters != [] { assert s.waiters[0] in s.waiters; }
  }

  /** What the code relies on to run. */
  ghost predicate Wf(s: Sem) {
    s.maxWaiters > 0 && forall w :: w in s.waiters ==> w in s.states
  }

  // ----- runs

  /** Critical sections on one semaphore, and everything else the kernel does to task states. */
  datatype Event = WaitBy(t: Tid) | TryWaitBy(t: Tid) | SignalBy(t: Tid) | Others(states: States)

  /** A caller is running, so it is not blocked; the rest of the kernel leaves blocked waiters
      blocked (no timeout, cancellation or suspension of a waiter). */
  ghost predicate Enabled(s: Sem, e: Event) {
    match e
    case WaitBy(t) => t in s.states && s.states[t] != Blocked
    case TryWaitBy(t) => t in s.states && s.states[t] != Blocked
    case SignalBy(t) => true
    case Others(states) => forall w :: w in s.waiters ==> w in states && states[w] == Blocked
  }

  /** The state with the history of the run: tokens put in, tasks that asked and were accepted in
      the order they asked, and tasks that got a token in the order they got it. */
  datatype Run = Run(s: Sem, tokens: nat, arrivals: seq<Tid>, grants: seq<Tid>)

  ghost predicate RunInv(r: Run) {
    && Inv(r.s)
    && r.tokens == r.s.count + |r.grants|
    && r.arrivals == r.grants + r.s.waiters
  }

  ghost function Step(r: Run, e: Event): (Run, Outcome)
    requires Wf(r.s) && Enabled(r.s, e)
  {
    match e
    case WaitBy(t) =>
      var (s', o) := Wait(r.s, t);
      (match o
       case Done => Run(s', r.tokens, r.arrivals + [t], r.grants + [t])
       case Waits => Run(s', r.tokens, r.arrivals + [t], r.grants)
       case _ => r.(s := s'), o)
    case TryWaitBy(t) =>
      var (s', o) := TryWait(r.s);
      (if o == Done then Run(s', r.tokens, r.arrivals + [t], r.grants + [t]) else r.(s := s'), o)
    case SignalBy(t) =>
      var (s', o) := Signal(r.s);
      (Run(s', if r.s.waiters == [] && r.s.count == SEM_MAX_COUNT then r.tokens else r.tokens + 1,
           r.arrivals, if r.s.waiters == [] then r.grants else r.grants + [r.s.waiters[0]]), o)
    case Others(states) => (r.(s := r.s.(states := states)), Done)
  }

  ghost function Start(maxWaiters: nat, initial: nat, states: States): Run {
    Run(Sem(initial, [], maxWaiters, states), initial, [], [])
  }

  lemma WaitKeeps(r: Run, t: Tid)
    requires RunInv(r) && Enabled(r.s, WaitBy(t))
    ensures RunInv(Step(r, WaitBy(t)).0)
    ensures Step(r, WaitBy(t)).1 == Panics <==> !Free(r.s) && |r.s.waiters| == WaiterLimit(r.s.maxWaiters)
  {
    var s := r.s;
    if !Free(s) && |s.waiters| < WaiterLimit(s.maxWaiters) {
      assert t !in s.waiters;
      assert r.arrivals + [t] == r.grants + (s.waiters + [t]);
    } else if Free(s) {
      assert r.arrivals + [t] == r.grants + [t] + [];
    }
  }

  lemma SignalKeeps(r: Run, t: Tid)
    requires RunInv(r)
    ensures RunInv(Step(r, SignalBy(t)).0)
    ensures Step(r, SignalBy(t)).1 == Done
  {
    var s := r.s;
    if s.waiters != [] {
      var w := s.waiters[0];
      assert w in s.waiters;
      assert r.grants + s.waiters == r.grants + [w] + s.waiters[1..];
      forall v | v in s.waiters[1..] ensures v != w && v in s.waiters {
        var i :| 0 <= i < |s.waiters[1..]| && s.waiters[1..][i] == v;
        assert s.waiters[i + 1] == v;
      }
    }
  }

  /** Every critical section keeps the token count, the arrival order and the blocked waiters; the
      only panic is a `mo_sem_wait` that finds the wait queue at its limit. */
  lemma StepKeeps(r: Run, e: Event)
    requires RunInv(r) && Enabled(r.s, e)
    ensures RunInv(Step(r, e).0)
    ensures Step(r, e).1 == Panics <==>
      e.WaitBy? && !Free(r.s) && |r.s.waiters| == WaiterLimit(r.s.maxWaiters)
  {
    match e {
      case WaitBy(t) => WaitKeeps(r, t);
      case TryWaitBy(t) => if Free(r.s) { assert r.arrivals + [t] == r.grants + [t] + []; }
      case SignalBy(t) => SignalKeeps(r, t);
      case Others(states) =>
    }
  }

  /** `rs` is the run of `events` from `rs[0]`; a call that panics takes nothing and joins no queue. */
  ghost predicate IsRun(rs: seq<Run>, events: seq<Event>) {
    && |rs| == |events| + 1
    && forall i :: 0 <= i < |events| ==>
         Wf(rs[i].s) && Enabled(rs[i].s, events[i]) && Step(rs[i], events[i]).0 == rs[i + 1]
  }

  /** Whole runs: tokens are conserved (initial plus unsaturated signals are the count plus the
      grants), tokens and waiters exclude each other, and tasks are granted strictly in the order
      they arrived, direct hand-offs included. */
  lemma {:induction false} RunsConserveTokens(rs: seq<Run>, events: seq<Event>, i: nat)
    requires IsRun(rs, events) && RunInv(rs[0]) && i < |rs|
    ensures RunInv(rs[i])
    ensures rs[i].grants <= rs[i].arrivals
  {
    if i > 0 {
      RunsConserveTokens(rs, events, i - 1);
      StepKeeps(rs[i - 1], events[i - 1]);
    }
  }

  lemma StartInv(maxWaiters: nat, initial: nat, states: States)
    requires maxWaiters > 0 && initial <= SEM_MAX_COUNT
    ensures RunInv(Start(maxWaiters, initial, states))
  {
    WaiterLimitExact(maxWaiters);
  }

  // ----- how the wait queue fills up

  function BlockAll(states: States, ts: seq<Tid>): States {
    if ts == [] then states else BlockAll(states, ts[..|ts| - 1])[ts[|ts| - 1] := Blocked]
  }

  lemma {:induction false} BlockAllFacts(states: States, ts: seq<Tid>, t: Tid)
    ensures t in ts ==> t in BlockAll(states, ts)
    ensures t in states && t !in ts ==> t in BlockAll(states, ts) && BlockAll(states, ts)[t] == states[t]
    decreases |ts|
  {
    if ts != [] {
      BlockAllFacts(states, ts[..|ts| - 1], t);
      assert ts == ts[..|ts| - 1] + [ts[|ts| - 1]];
    }
  }

  /** A semaphore without tokens on which `ts` wait; nobody has signalled. */
  ghost function Filled(maxWaiters: nat, states: States, ts: seq<Tid>): Run {
    Run(Sem(0, ts, maxWaiters, BlockAll(states, ts)), 0, ts, [])
  }

  ghost predicate Awake(states: States, ts: seq<Tid>) {
    Distinct(ts) && forall t :: t in ts ==> t in states && states[t] != Blocked
  }

  /** The next task waits while the queue is below its limit, and its call panics at the limit. */
  lemma NextWait(maxWaiters: nat, states: States, ts: seq<Tid>, i: nat)
    requires maxWaiters > 0 && i < |ts| && i <= WaiterLimit(maxWaiters) && Awake(states, ts)
    ensures var r := Filled(maxWaiters, states, ts[..i]);
      && Wf(r.s) && Enabled(r.s, WaitBy(ts[i]))
      && Step(r, WaitBy(ts[i])) ==
         if i < WaiterLimit(maxWaiters) then (Filled(maxWaiters, states, ts[..i + 1]), Waits) else (r, Panics)
  {
    hide WaiterLimit;
    var q := ts[..i];
    assert ts[i] in ts && ts[i] !in q;
    BlockAllFacts(states, q, ts[i]);
    forall w | w in q ensures w in BlockAll(states, q) { BlockAllFacts(states, q, w); }
    assert ts[..i + 1] == q + [ts[i]] && (q + [ts[i]])[..i] == q;
  }

  /** A new semaphore without tokens, on which tasks of any number wait in turn: the calls block while
      fewer wait than were asked for, one fewer for a power of two above 1, and the next call panics. */
  lemma FillsThenPanics(maxWaiters: nat, states: States, ts: seq<Tid>, n: nat) returns (rs: seq<Run>)
    requires maxWaiters > 0 && Awake(states, ts)
    requires n + 1 == |ts| && n == if maxWaiters > 1 && IsPowerOf2(maxWaiters) then maxWaiters - 1 else maxWaiters
    ensures IsRun(rs, seq(n, i requires 0 <= i < n => WaitBy(ts[i]))) && rs[0] == Start(maxWaiters, 0, states)
    ensures forall i :: 0 <= i < n ==> Step(rs[i], WaitBy(ts[i])).1 == Waits
    ensures Wf(rs[n].s) && Enabled(rs[n].s, WaitBy(ts[n])) && Step(rs[n], WaitBy(ts[n])).1 == Panics
  {
    WaiterLimitExact(maxWaiters);
    assert Filled(maxWaiters, states, ts[..0]) == Start(maxWaiters, 0, states);
    hide WaiterLimit, IsPowerOf2, Step, Enabled, Wf, Filled, Start, Awake;
    rs := seq(n + 1, i requires 0 <= i <= n => Filled(maxWaiters, states, ts[..i]));
    forall i | 0 <= i <= n
      ensures Wf(rs[i].s) && Enabled(rs[i].s, WaitBy(ts[i]))
      ensures Step(rs[i], WaitBy(ts[i])) == if i < n then (rs[i + 1], Waits) else (rs[i], Panics)
    {
      NextWait(maxWaiters, states, ts, i);
    }
  }

  /** The shortest case: the second of two waiters on a semaphore made for two. */
  lemma EarlyPanicReachable() returns (rs: seq<Run>)
    ensures IsRun(rs, [WaitBy(1)]) && rs[0] == Start(2, 0, map[1 := Ready, 2 := Ready])
    ensures Wf(rs[1].s) && Enabled(rs[1].s, WaitBy(2)) && Step(rs[1], WaitBy(2)).1 == Panics
  {
    PowerHasOneBit(1);
    var states: States, ts: seq<Tid> := map[1 := Ready, 2 := Ready], [1, 2];
    rs := FillsThenPanics(2, states, ts, 1);
    assert seq(1, i requires 0 <= i < 1 => WaitBy(ts[i])) == [WaitBy(1)];
  }
}
