/** Mutexes and condition variables (kernel/mutex.c) as critical sections.

    Ownership is handed to the oldest waiter by `mo_mutex_unlock`.  `mo_cond_wait` is four critical
    sections: join the list, release the mutex, ask for it again, and return once it is owned. */
module MutexSpec {
  import opened Tasks

  /** A mutex: `owner` is 0 when it is free. */
  datatype Mutex = Mutex(owner: nat, waiters: seq<Tid>)

  datatype Result = Ok | Busy | NotOwner | Blocks | Panic

  // ----- one critical section each

  function Lock(x: Mutex, states: States, t: Tid): (Mutex, States, Result) {
    if x.owner == t then (x, states, Busy)
    else if x.owner == 0 then (x.(owner := t), states, Ok)
    else (x.(waiters := x.waiters + [t]), states[t := Blocked], Blocks)
  }

  function TryLock(x: Mutex, t: Tid): (Mutex, Result) {
    if x.owner == 0 then (x.(owner := t), Ok) else (x, Busy)
  }

  function Unlock(x: Mutex, states: States, t: Tid): (Mutex, States, Result)
    requires forall w :: w in x.waiters ==> w in states
  {
    if x.owner != t then (x, states, NotOwner)
    else if x.waiters == [] then (x.(owner := 0), states, Ok)
    else
      var w := x.waiters[0];
      if states[w] == Blocked then (Mutex(w, x.waiters[1..]), states[w := Ready], Ok)
      else (x.(waiters := x.waiters[1..]), states, Panic)
  }

  function Signal(q: seq<Tid>, states: States): (seq<Tid>, States, Result)
    requires forall w :: w in q ==> w in states
  {
    if q == [] then (q, states, Ok)
    else if states[q[0]] == Blocked then (q[1..], states[q[0] := Ready], Ok)
    else (q[1..], states, Panic)
  }

  function Broadcast(q: seq<Tid>, states: States): (seq<Tid>, States, Result)
    requires forall w :: w in q ==> w in states
    decreases |q|
  {
    if q == [] then (q, states, Ok)
    else if states[q[0]] == Blocked then Broadcast(q[1..], states[q[0] := Ready])
    else (q[1..], states, Panic)
  }

  /** `remove_self_from_waiters` */
  function Without(q: seq<Tid>, t: Tid): seq<Tid> {
    if q == [] then [] else if q[0] == t then q[1..] else [q[0]] + Without(q[1..], t)
  }

  /** The first occurrence goes, and nothing else. */
  lemma {:induction false} WithoutFirst(q: seq<Tid>, t: Tid, i: nat)
    requires i <= |q| && t !in q[..i] && (i < |q| ==> q[i] == t)
    ensures Without(q, t) == if i < |q| then q[..i] + q[i + 1..] else q
    decreases i
  {
    if i == 0 {
      assert q != [] ==> q[..0] + q[1..] == q[1..];
    } else {
      FirstInTail(q, t, i);
      WithoutFirst(q[1..], t, i - 1);
    }
  }

  lemma FirstInTail(q: seq<Tid>, t: Tid, i: nat)
    requires 0 < i <= |q| && t !in q[..i]
    ensures q[0] != t && t !in q[1..][..i - 1] && [q[0]] + q[1..] == q
    ensures i < |q| ==> [q[0]] + (q[1..][..i - 1] + q[1..][i..]) == q[..i] + q[i + 1..]
  {
    var r := q[1..];
    assert q[0] in q[..i] && q[..i] == [q[0]] + r[..i - 1];
  }

  /** Broadcasting to blocked waiters wakes exactly them. */
  lemma {:induction false} BroadcastWakesAll(q: seq<Tid>, states: States)
    requires Distinct(q) && forall w :: w in q ==> w in states && states[w] == Blocked
    ensures var (q', states', r) := Broadcast(q, states);
      && q' == [] && r == Ok && states'.Keys == states.Keys
      && forall t :: t in states ==> states'[t] == if t in q then Ready else states[t]
  {
    if q != [] {
      assert q == [q[0]] + q[1..];
      BroadcastWakesAll(q[1..], states[q[0] := Ready]);
    }
  }

  // ----- the system

  /** Where a task stands in a blocking call. */
  datatype Place =
    | Out                        // outside any call
    | Locking(m: nat)            // in `mo_mutex_lock`, queued or just granted
    | Listed(c: nat, m: nat)     // in `mo_cond_wait`, before it released the mutex
    | Asleep(c: nat, m: nat)     // in `mo_cond_wait`, mutex released
    | Relocking(m: nat)          // in the `mo_mutex_lock` at the end of `mo_cond_wait`

  /** The kernel objects, and the history of the run: who was told it holds a mutex, and per mutex
      who had to queue and who was handed it, in order. */
  datatype Sys = Sys(mutexes: map<nat, Mutex>, conds: map<nat, seq<Tid>>, states: States,
                     place: map<Tid, Place>, held: set<(Tid, nat)>,
                     arrivals: map<nat, seq<Tid>>, handoffs: map<nat, seq<Tid>>)

  datatype Event =
    | LockBy(t: Tid, m: nat) | TryLockBy(t: Tid, m: nat) | UnlockBy(t: Tid, m: nat)
    | WaitBy(t: Tid, c: nat, m: nat) | SignalBy(t: Tid, c: nat) | BroadcastBy(t: Tid, c: nat)
    | Resume(t: Tid)             // the next critical section of the call `t` stands in
    | Others(states: States)     // scheduling, and tasks that block elsewhere

  ghost predicate Wf(s: Sys) {
    && s.arrivals.Keys == s.handoffs.Keys == s.mutexes.Keys
    && s.place.Keys <= s.states.Keys
    && (forall m, w :: m in s.mutexes && w in s.mutexes[m].waiters ==> w in s.place)
    && (forall c, w :: c in s.conds && w in s.conds[c] ==> w in s.place)
    && (forall t :: t in s.place ==> match s.place[t]
         case Out => true
         case Locking(m) => m in s.mutexes
         case Relocking(m) => m in s.mutexes
         case Listed(c, m) => c in s.conds && m in s.mutexes
         case Asleep(c, m) => c in s.conds && m in s.mutexes)
  }

  ghost predicate CanRun(s: Sys, t: Tid) {
    t in s.place && t in s.states && s.states[t] != Blocked
  }

  ghost predicate WaitsUndisturbed(s: Sys, states: States)
    requires s.place.Keys <= states.Keys
  {
    forall t :: t in s.place && t in s.states && s.place[t] != Out ==>
      (states[t] == Blocked <==> s.states[t] == Blocked)
  }

  ghost predicate Enabled(s: Sys, e: Event) {
    match e
    case LockBy(t, m) => CanRun(s, t) && s.place[t] == Out && m in s.mutexes
    case TryLockBy(t, m) => CanRun(s, t) && s.place[t] == Out && m in s.mutexes
    case UnlockBy(t, m) => CanRun(s, t) && s.place[t] == Out && m in s.mutexes
    case WaitBy(t, c, m) => CanRun(s, t) && s.place[t] == Out && c in s.conds && m in s.mutexes
    case SignalBy(t, c) => CanRun(s, t) && s.place[t] == Out && c in s.conds
    case BroadcastBy(t, c) => CanRun(s, t) && s.place[t] == Out && c in s.conds
    // A task that has listed itself goes on running until it has released the mutex, blocked or
    // not; all other resumptions need it to be scheduled again.
    case Resume(t) => t in s.place && s.place[t] != Out && t in s.states &&
                      (s.place[t].Listed? || s.states[t] != Blocked)
    // No timeout, cancellation or suspension: a task inside a call is woken by its waker only.
    case Others(states) => s.place.Keys <= states.Keys && WaitsUndisturbed(s, states)
  }

  // What a critical section does to the system, and to the history of the run.

  ghost function Enqueued(s: Sys, t: Tid, m: nat, pl: Place): Sys
    requires m in s.mutexes && m in s.arrivals
  {
    var x := s.mutexes[m];
    s.(mutexes := s.mutexes[m := x.(waiters := x.waiters + [t])], states := s.states[t := Blocked],
       place := s.place[t := pl], arrivals := s.arrivals[m := s.arrivals[m] + [t]])
  }

  ghost function Acquired(s: Sys, t: Tid, m: nat): Sys
    requires m in s.mutexes
  {
    s.(mutexes := s.mutexes[m := s.mutexes[m].(owner := t)], place := s.place[t := Out],
       held := s.held + {(t, m)})
  }

  ghost function Freed(s: Sys, t: Tid, m: nat, pl: Place): Sys
    requires m in s.mutexes
  {
    s.(mutexes := s.mutexes[m := s.mutexes[m].(owner := 0)], place := s.place[t := pl],
       held := s.held - {(t, m)})
  }

  ghost function HandedOver(s: Sys, t: Tid, m: nat, pl: Place): Sys
    requires m in s.mutexes && m in s.handoffs && s.mutexes[m].waiters != []
  {
    var q := s.mutexes[m].waiters;
    s.(mutexes := s.mutexes[m := Mutex(q[0], q[1..])], states := s.states[q[0] := Ready],
       place := s.place[t := pl], held := s.held - {(t, m)},
       handoffs := s.handoffs[m := s.handoffs[m] + [q[0]]])
  }

  /** `mo_mutex_lock`, on behalf of `mo_cond_wait` when `again`. */
  ghost function DoLock(s: Sys, t: Tid, m: nat, again: bool): (Sys, Result)
    requires Wf(s) && t in s.place && m in s.mutexes
  {
    var r := Lock(s.mutexes[m], s.states, t).2;
    match r
    case Blocks => (Enqueued(s, t, m, if again then Relocking(m) else Locking(m)), r)
    case Ok => (Acquired(s, t, m), r)
    case _ => (s.(place := s.place[t := Out]), r)
  }

  /** `mo_mutex_unlock` by `t`, which then stands at `pl` unless the call fails. */
  ghost function DoUnlock(s: Sys, t: Tid, m: nat, pl: Place): (Sys, Result)
    requires Wf(s) && m in s.mutexes
  {
    var r := Unlock(s.mutexes[m], s.states, t).2;
    (if r != Ok then s else if s.mutexes[m].waiters == [] then Freed(s, t, m, pl)
     else HandedOver(s, t, m, pl), r)
  }

  ghost function DoWait(s: Sys, t: Tid, c: nat, m: nat): (Sys, Result)
    requires Wf(s) && t in s.place && c in s.conds && m in s.mutexes
  {
    if s.mutexes[m].owner != t then (s, NotOwner)
    else (s.(conds := s.conds[c := s.conds[c] + [t]], states := s.states[t := Blocked],
             place := s.place[t := Listed(c, m)]), Blocks)
  }

  ghost function DoResume(s: Sys, t: Tid): (Sys, Result)
    requires Wf(s) && t in s.place && s.place[t] != Out
  {
    match s.place[t]
    case Locking(m) => (s.(place := s.place[t := Out], held := s.held + {(t, m)}), Ok)
    case Relocking(m) => (s.(place := s.place[t := Out], held := s.held + {(t, m)}), Ok)
    case Listed(c, m) =>
      var (s', r) := DoUnlock(s, t, m, Asleep(c, m));
      if r == Ok then (s', Blocks)
      else (s.(conds := s.conds[c := Without(s.conds[c], t)], states := s.states[t := Ready],
               place := s.place[t := Out]), r)
    case Asleep(c, m) => DoLock(s, t, m, true)
  }

  ghost function DoSignal(s: Sys, c: nat, q: seq<Tid>, states: States): Sys {
    s.(conds := s.conds[c := q], states := states)
  }

  ghost function Step(s: Sys, e: Event): (Sys, Result)
    requires Wf(s) && Enabled(s, e)
  {
    match e
    case LockBy(t, m) => DoLock(s, t, m, false)
    case TryLockBy(t, m) =>
      var r := TryLock(s.mutexes[m], t).1;
      (if r == Ok then Acquired(s, t, m) else s, r)
    case UnlockBy(t, m) => DoUnlock(s, t, m, Out)
    case WaitBy(t, c, m) => DoWait(s, t, c, m)
    case SignalBy(t, c) =>
      var (q, states, r) := Signal(s.conds[c], s.states);
      (DoSignal(s, c, q, states), r)
    case BroadcastBy(t, c) =>
      var (q, states, r) := Broadcast(s.conds[c], s.states);
      (DoSignal(s, c, q, states), r)
    case Resume(t) => DoResume(s, t)
    case Others(states) => (s.(states := states), Ok)
  }

  /** The system steps change a mutex and the task states as the critical sections above do. */
  lemma StepsAreTheCalls(s: Sys, t: Tid, m: nat, again: bool, pl: Place)
    requires Wf(s) && t in s.place && m in s.mutexes
    ensures var (x, states, r) := Lock(s.mutexes[m], s.states, t);
      var s' := DoLock(s, t, m, again).0; s'.mutexes == s.mutexes[m := x] && s'.states == states
    ensures var (x, states, r) := Unlock(s.mutexes[m], s.states, t);
      var s' := DoUnlock(s, t, m, pl).0;
      r != Panic ==> s'.mutexes == s.mutexes[m := x] && s'.states == states
  {
  }

  // ----- the invariant

  predicate QueuedOn(pl: Place, m: nat) {
    pl == Locking(m) || pl == Relocking(m)
  }

  predicate SleepsOn(pl: Place, c: nat) {
    (pl.Listed? || pl.Asleep?) && pl.c == c
  }

  /** A list of waiters holds each of its tasks once, and exactly the blocked tasks that stand in
      the matching call. */
  ghost predicate Lists(s: Sys) {
    && (forall m :: m in s.mutexes ==> Distinct(s.mutexes[m].waiters))
    && (forall c :: c in s.conds ==> Distinct(s.conds[c]))
    && (forall m, t :: m in s.mutexes ==> (t in s.mutexes[m].waiters <==> WaitsForMutex(s, t, m)))
    && (forall c, t :: c in s.conds ==> (t in s.conds[c] <==> WaitsForSignal(s, t, c)))
  }

  ghost predicate WaitsForMutex(s: Sys, t: Tid, m: nat) {
    t in s.place && t in s.states && QueuedOn(s.place[t], m) && s.states[t] == Blocked
  }

  ghost predicate WaitsForSignal(s: Sys, t: Tid, c: nat) {
    t in s.place && t in s.states && SleepsOn(s.place[t], c) && s.states[t] == Blocked
  }

  /** A free mutex has no waiters, nobody waits for a mutex it owns, and a task whose wait is over
      owns the mutex it waited for. */
  ghost predicate Owners(s: Sys) {
    && (forall m :: m in s.mutexes && s.mutexes[m].owner == 0 ==> s.mutexes[m].waiters == [])
    && (forall t, m :: t in s.place && m in s.mutexes ==> OwnerOk(s, t, m))
  }

  ghost predicate OwnerOk(s: Sys, t: Tid, m: nat)
    requires t in s.place && m in s.mutexes
  {
    var owns, pl := s.mutexes[m].owner == t, s.place[t];
    && (QueuedOn(pl, m) ==> t in s.states && (owns <==> s.states[t] != Blocked))
    && (pl.Listed? && pl.m == m ==> owns)
    && (pl.Asleep? && pl.m == m ==> !owns)
    && ((t, m) in s.held <==> owns && !QueuedOn(pl, m))
  }

  /** Mutexes are handed over in the order in which tasks queued for them. */
  ghost predicate Logs(s: Sys) {
    && s.arrivals.Keys == s.handoffs.Keys == s.mutexes.Keys
    && forall m :: m in s.mutexes ==> s.arrivals[m] == s.handoffs[m] + s.mutexes[m].waiters
  }

  ghost predicate Inv(s: Sys) {
    Wf(s) && Lists(s) && Owners(s) && Logs(s)
  }
}
