/** Safety of mutexes and condition variables over every interleaving. */
module MutexLaws {
  import opened Tasks
  import opened MutexSpec

  // ----- lists

  // ----- joining a mutex queue

  /** `t` runs, and stands outside any call or has been woken from a condition. */
  ghost predicate Free(s: Sys, t: Tid, m: nat) {
    CanRun(s, t) && m in s.mutexes && (s.place[t] == Out || (s.place[t].Asleep? && s.place[t].m == m))
  }

  ghost predicate Queueing(s: Sys, t: Tid, m: nat, pl: Place) {
    Free(s, t, m) && QueuedOn(pl, m) && s.mutexes[m].owner != 0 && s.mutexes[m].owner != t
  }

  lemma EnqueuedLists(s: Sys, t: Tid, m: nat, pl: Place)
    requires Wf(s) && Lists(s) && Queueing(s, t, m, pl)
    ensures Lists(Enqueued(s, t, m, pl))
  {
    var s' := Enqueued(s, t, m, pl);
    forall n, u | n in s'.mutexes ensures u in s'.mutexes[n].waiters <==> WaitsForMutex(s', u, n) {
      assert u in s.mutexes[n].waiters <==> WaitsForMutex(s, u, n);
    }
    forall c, u | c in s'.conds ensures u in s'.conds[c] <==> WaitsForSignal(s', u, c) {
      assert u in s.conds[c] <==> WaitsForSignal(s, u, c);
    }
    assert t in s.mutexes[m].waiters <==> WaitsForMutex(s, t, m);
  }

  lemma EnqueuedOwners(s: Sys, t: Tid, m: nat, pl: Place)
    requires Wf(s) && Owners(s) && Queueing(s, t, m, pl)
    ensures Owners(Enqueued(s, t, m, pl))
  {
    var s' := Enqueued(s, t, m, pl);
    forall u, n | u in s'.place && n in s'.mutexes ensures OwnerOk(s', u, n) {
      assert OwnerOk(s, u, n);
    }
  }

  lemma EnqueuedWf(s: Sys, t: Tid, m: nat, pl: Place)
    requires Wf(s) && Queueing(s, t, m, pl)
    ensures Wf(Enqueued(s, t, m, pl))
  {
  }

  lemma EnqueuedLogs(s: Sys, t: Tid, m: nat, pl: Place)
    requires Wf(s) && Logs(s) && Queueing(s, t, m, pl)
    ensures Logs(Enqueued(s, t, m, pl))
  {
    assert s.handoffs[m] + (s.mutexes[m].waiters + [t]) == s.handoffs[m] + s.mutexes[m].waiters + [t];
  }

  // ----- taking a free mutex

  ghost predicate Taking(s: Sys, t: Tid, m: nat) {
    Free(s, t, m) && s.mutexes[m].owner == 0
  }

  lemma AcquiredLists(s: Sys, t: Tid, m: nat)
    requires Wf(s) && Lists(s) && Taking(s, t, m)
    ensures Lists(Acquired(s, t, m))
  {
    var s' := Acquired(s, t, m);
    forall n, u | n in s'.mutexes ensures u in s'.mutexes[n].waiters <==> WaitsForMutex(s', u, n) {
      assert u in s.mutexes[n].waiters <==> WaitsForMutex(s, u, n);
    }
    forall c, u | c in s'.conds ensures u in s'.conds[c] <==> WaitsForSignal(s', u, c) {
      assert u in s.conds[c] <==> WaitsForSignal(s, u, c);
    }
  }

  lemma AcquiredOwners(s: Sys, t: Tid, m: nat)
    requires Wf(s) && Owners(s) && Taking(s, t, m)
    ensures Owners(Acquired(s, t, m))
  {
    var s' := Acquired(s, t, m);
    forall u, n | u in s'.place && n in s'.mutexes ensures OwnerOk(s', u, n) {
      assert OwnerOk(s, u, n);
    }
  }

  lemma AcquiredKeeps(s: Sys, t: Tid, m: nat)
    requires Inv(s) && Taking(s, t, m)
    ensures Inv(Acquired(s, t, m))
  {
    AcquiredLists(s, t, m);
    AcquiredOwners(s, t, m);
  }

  // ----- releasing a mutex

  /** `t` owns `m`; it stands outside any call, or in `mo_cond_wait` and goes to sleep next. */
  ghost predicate Releasing(s: Sys, t: Tid, m: nat, pl: Place) {
    && t in s.place && t in s.states && m in s.mutexes && s.mutexes[m].owner == t
    && ((s.place[t] == Out && pl == Out) ||
        (s.place[t].Listed? && s.place[t].m == m && pl == Asleep(s.place[t].c, m)))
  }

  lemma FreedLists(s: Sys, t: Tid, m: nat, pl: Place)
    requires Wf(s) && Lists(s) && Releasing(s, t, m, pl)
    ensures Lists(Freed(s, t, m, pl))
  {
    var s' := Freed(s, t, m, pl);
    forall n, u | n in s'.mutexes ensures u in s'.mutexes[n].waiters <==> WaitsForMutex(s', u, n) {
      assert u in s.mutexes[n].waiters <==> WaitsForMutex(s, u, n);
    }
    forall c, u | c in s'.conds ensures u in s'.conds[c] <==> WaitsForSignal(s', u, c) {
      assert u in s.conds[c] <==> WaitsForSignal(s, u, c);
    }
  }

  lemma FreedOwners(s: Sys, t: Tid, m: nat, pl: Place)
    requires Wf(s) && Owners(s) && Releasing(s, t, m, pl) && s.mutexes[m].waiters == []
    ensures Owners(Freed(s, t, m, pl))
  {
    var s' := Freed(s, t, m, pl);
    forall u, n | u in s'.place && n in s'.mutexes ensures OwnerOk(s', u, n) {
      assert OwnerOk(s, u, n);
    }
  }

  lemma FreedKeeps(s: Sys, t: Tid, m: nat, pl: Place)
    requires Inv(s) && Releasing(s, t, m, pl) && s.mutexes[m].waiters == []
    ensures Inv(Freed(s, t, m, pl))
  {
    FreedLists(s, t, m, pl);
    FreedOwners(s, t, m, pl);
  }

  /** The waiter a mutex is handed to is blocked in a call on that mutex. */
  lemma HeadWaits(s: Sys, m: nat)
    requires Wf(s) && Lists(s) && m in s.mutexes && s.mutexes[m].waiters != []
    ensures WaitsForMutex(s, s.mutexes[m].waiters[0], m)
  {
  }

  lemma HandedLists(s: Sys, t: Tid, m: nat, pl: Place)
    requires Wf(s) && Lists(s) && Releasing(s, t, m, pl) && s.mutexes[m].waiters != []
    ensures Lists(HandedOver(s, t, m, pl))
  {
    var s', q := HandedOver(s, t, m, pl), s.mutexes[m].waiters;
    HeadWaits(s, m);
    TailMembers(q, t);
    forall n, u | n in s'.mutexes ensures u in s'.mutexes[n].waiters <==> WaitsForMutex(s', u, n) {
      assert u in s.mutexes[n].waiters <==> WaitsForMutex(s, u, n);
      if n == m { TailMembers(q, u); }
    }
    forall c, u | c in s'.conds ensures u in s'.conds[c] <==> WaitsForSignal(s', u, c) {
      assert u in s.conds[c] <==> WaitsForSignal(s, u, c);
    }
  }

  lemma HandedOwners(s: Sys, t: Tid, m: nat, pl: Place)
    requires Wf(s) && Lists(s) && Owners(s) && Releasing(s, t, m, pl) && s.mutexes[m].waiters != []
    ensures Owners(HandedOver(s, t, m, pl))
  {
    var s' := HandedOver(s, t, m, pl);
    HeadWaits(s, m);
    forall u, n | u in s'.place && n in s'.mutexes ensures OwnerOk(s', u, n) {
      assert OwnerOk(s, u, n);
    }
  }

  lemma HandedWf(s: Sys, t: Tid, m: nat, pl: Place)
    requires Wf(s) && Lists(s) && Releasing(s, t, m, pl) && s.mutexes[m].waiters != []
    ensures Wf(HandedOver(s, t, m, pl))
  {
    HeadWaits(s, m);
  }

  lemma HandedLogs(s: Sys, t: Tid, m: nat, pl: Place)
    requires Wf(s) && Logs(s) && Releasing(s, t, m, pl) && s.mutexes[m].waiters != []
    ensures Logs(HandedOver(s, t, m, pl))
  {
    var h, q := s.handoffs[m], s.mutexes[m].waiters;
    assert h + q == h + [q[0]] + q[1..];
  }

  lemma UnlockKeeps(s: Sys, t: Tid, m: nat, pl: Place)
    requires Inv(s) && Releasing(s, t, m, pl)
    ensures Inv(DoUnlock(s, t, m, pl).0) && DoUnlock(s, t, m, pl).1 == Ok
  {
    if s.mutexes[m].waiters == [] {
      FreedKeeps(s, t, m, pl);
    } else {
      HeadWaits(s, m);
      HandedWf(s, t, m, pl);
      HandedLists(s, t, m, pl);
      HandedOwners(s, t, m, pl);
      HandedLogs(s, t, m, pl);
    }
  }

  // ----- mo_cond_wait

  lemma WaitLists(s: Sys, t: Tid, c: nat, m: nat)
    requires Wf(s) && Lists(s) && Enabled(s, WaitBy(t, c, m))
    ensures Lists(DoWait(s, t, c, m).0)
  {
    var s' := DoWait(s, t, c, m).0;
    forall n, u | n in s'.mutexes ensures u in s'.mutexes[n].waiters <==> WaitsForMutex(s', u, n) {
      assert u in s.mutexes[n].waiters <==> WaitsForMutex(s, u, n);
    }
    forall d, u | d in s'.conds ensures u in s'.conds[d] <==> WaitsForSignal(s', u, d) {
      assert u in s.conds[d] <==> WaitsForSignal(s, u, d);
    }
    assert t in s.conds[c] <==> WaitsForSignal(s, t, c);
  }

  lemma WaitOwners(s: Sys, t: Tid, c: nat, m: nat)
    requires Wf(s) && Owners(s) && Enabled(s, WaitBy(t, c, m))
    ensures Owners(DoWait(s, t, c, m).0)
  {
    var s' := DoWait(s, t, c, m).0;
    forall u, n | u in s'.place && n in s'.mutexes ensures OwnerOk(s', u, n) {
      assert OwnerOk(s, u, n);
    }
  }

  lemma WaitKeeps(s: Sys, t: Tid, c: nat, m: nat)
    requires Inv(s) && Enabled(s, WaitBy(t, c, m))
    ensures Inv(DoWait(s, t, c, m).0)
  {
    WaitLists(s, t, c, m);
    WaitOwners(s, t, c, m);
  }

  // ----- waking sleepers

  /** The list of condition `c` loses the tasks in `woken`, and these become ready. */
  ghost predicate Wakes(s: Sys, c: nat, woken: set<Tid>, q: seq<Tid>, states: States) {
    && c in s.conds && Distinct(q) && states.Keys == s.states.Keys
    && (forall u :: u in q <==> u in s.conds[c] && u !in woken)
    && (forall u :: u in woken ==> u in s.conds[c])
    && (forall u :: u in states ==> states[u] == if u in woken then Ready else s.states[u])
  }

  lemma WakeLists(s: Sys, c: nat, woken: set<Tid>, q: seq<Tid>, states: States)
    requires Wf(s) && Lists(s) && Wakes(s, c, woken, q, states)
    ensures Lists(DoSignal(s, c, q, states))
  {
    var s' := DoSignal(s, c, q, states);
    forall n, u | n in s'.mutexes ensures u in s'.mutexes[n].waiters <==> WaitsForMutex(s', u, n) {
      assert u in s.mutexes[n].waiters <==> WaitsForMutex(s, u, n);
      assert u in s.conds[c] <==> WaitsForSignal(s, u, c);
    }
    forall d, u | d in s'.conds ensures u in s'.conds[d] <==> WaitsForSignal(s', u, d) {
      assert u in s.conds[d] <==> WaitsForSignal(s, u, d);
      assert u in s.conds[c] <==> WaitsForSignal(s, u, c);
    }
  }

  lemma WakeOwners(s: Sys, c: nat, woken: set<Tid>, q: seq<Tid>, states: States)
    requires Wf(s) && Lists(s) && Owners(s) && Wakes(s, c, woken, q, states)
    ensures Owners(DoSignal(s, c, q, states))
  {
    var s' := DoSignal(s, c, q, states);
    forall u, n | u in s'.place && n in s'.mutexes ensures OwnerOk(s', u, n) {
      assert OwnerOk(s, u, n);
      assert u in s.conds[c] <==> WaitsForSignal(s, u, c);
    }
  }

  lemma WakeKeeps(s: Sys, c: nat, woken: set<Tid>, q: seq<Tid>, states: States)
    requires Inv(s) && Wakes(s, c, woken, q, states)
    ensures Inv(DoSignal(s, c, q, states))
  {
    WakeLists(s, c, woken, q, states);
    WakeOwners(s, c, woken, q, states);
  }

  lemma SleepersBlocked(s: Sys, c: nat)
    requires Wf(s) && Lists(s) && c in s.conds
    ensures forall u :: u in s.conds[c] ==> u in s.states && s.states[u] == Blocked
  {
  }

  lemma SignalKeeps(s: Sys, t: Tid, c: nat)
    requires Inv(s) && Enabled(s, SignalBy(t, c))
    ensures Inv(Step(s, SignalBy(t, c)).0) && Step(s, SignalBy(t, c)).1 == Ok
  {
    SleepersBlocked(s, c);
    var q := s.conds[c];
    var (q', states, r) := Signal(q, s.states);
    if q == [] {
      WakeKeeps(s, c, {}, q', states);
    } else {
      forall u ensures u in q[1..] <==> u in q && u != q[0] { TailMembers(q, u); }
      TailMembers(q, t);
      WakeKeeps(s, c, {q[0]}, q', states);
    }
  }

  lemma BroadcastKeeps(s: Sys, t: Tid, c: nat)
    requires Inv(s) && Enabled(s, BroadcastBy(t, c))
    ensures Inv(Step(s, BroadcastBy(t, c)).0) && Step(s, BroadcastBy(t, c)).1 == Ok
  {
    SleepersBlocked(s, c);
    var q := s.conds[c];
    BroadcastWakesAll(q, s.states);
    var (q', states, r) := Broadcast(q, s.states);
    WakeKeeps(s, c, (set u | u in q), q', states);
  }

  // ----- every step

  lemma LockKeeps(s: Sys, t: Tid, m: nat, again: bool)
    requires Inv(s) && Free(s, t, m) && (again <==> s.place[t].Asleep?)
    ensures Inv(DoLock(s, t, m, again).0)
    ensures DoLock(s, t, m, again).1 == Busy <==> s.mutexes[m].owner == t
    ensures again ==> DoLock(s, t, m, again).1 != Busy
    ensures DoLock(s, t, m, again).1 == Ok ==> DoLock(s, t, m, again).0.mutexes[m].owner == t
  {
    assert OwnerOk(s, t, m);
    hide Lists, Owners, Logs;
    if s.mutexes[m].owner == t {
      assert s.place[t := Out] == s.place;
    } else if s.mutexes[m].owner == 0 {
      AcquiredKeeps(s, t, m);
    } else {
      var pl := if again then Relocking(m) else Locking(m);
      EnqueuedWf(s, t, m, pl);
      EnqueuedLists(s, t, m, pl);
      EnqueuedOwners(s, t, m, pl);
      EnqueuedLogs(s, t, m, pl);
    }
  }

  /** A task that is scheduled again in a lock call owns the mutex. */
  lemma ReturnKeeps(s: Sys, t: Tid, m: nat)
    requires Inv(s) && CanRun(s, t) && m in s.mutexes && QueuedOn(s.place[t], m)
    ensures s.mutexes[m].owner == t
    ensures Inv(s.(place := s.place[t := Out], held := s.held + {(t, m)}))
  {
    var s' := s.(place := s.place[t := Out], held := s.held + {(t, m)});
    assert OwnerOk(s, t, m);
    forall n, u | n in s'.mutexes ensures u in s'.mutexes[n].waiters <==> WaitsForMutex(s', u, n) {
      assert u in s.mutexes[n].waiters <==> WaitsForMutex(s, u, n);
    }
    forall c, u | c in s'.conds ensures u in s'.conds[c] <==> WaitsForSignal(s', u, c) {
      assert u in s.conds[c] <==> WaitsForSignal(s, u, c);
    }
    forall u, n | u in s'.place && n in s'.mutexes ensures OwnerOk(s', u, n) {
      assert OwnerOk(s, u, n);
    }
  }

  /** A resumed `mo_mutex_lock` or `mo_cond_wait` goes on waiting or returns OK, and it returns OK
      only to the owner of the mutex. */
  lemma ResumeKeeps(s: Sys, t: Tid)
    requires Inv(s) && Enabled(s, Resume(t))
    ensures var (s', r) := DoResume(s, t);
      && Inv(s') && (r == Ok || r == Blocks)
      && (r == Ok ==> s'.mutexes[s.place[t].m].owner == t && (t, s.place[t].m) in s'.held)
  {
    match s.place[t] {
      case Locking(m) => ReturnKeeps(s, t, m);
      case Relocking(m) => ReturnKeeps(s, t, m);
      case Listed(c, m) =>
        assert OwnerOk(s, t, m);
        UnlockKeeps(s, t, m, Asleep(c, m));
      case Asleep(c, m) => LockKeeps(s, t, m, true);
    }
  }

  lemma OthersKeep(s: Sys, states: States)
    requires Inv(s) && Enabled(s, Others(states))
    ensures Inv(s.(states := states))
  {
    var s' := s.(states := states);
    forall n, u | n in s'.mutexes ensures u in s'.mutexes[n].waiters <==> WaitsForMutex(s', u, n) {
      assert u in s.mutexes[n].waiters <==> WaitsForMutex(s, u, n);
    }
    forall c, u | c in s'.conds ensures u in s'.conds[c] <==> WaitsForSignal(s', u, c) {
      assert u in s.conds[c] <==> WaitsForSignal(s, u, c);
    }
    forall u, n | u in s'.place && n in s'.mutexes ensures OwnerOk(s', u, n) {
      assert OwnerOk(s, u, n);
    }
  }

  /** Every critical section of every call keeps the invariant, and none of the
      state-inconsistency panics is reachable. */
  lemma StepKeeps(s: Sys, e: Event)
    requires Inv(s) && Enabled(s, e)
    ensures Inv(Step(s, e).0) && Step(s, e).1 != Panic
  {
    match e {
      case LockBy(t, m) => LockKeeps(s, t, m, false);
      case TryLockBy(t, m) => if s.mutexes[m].owner == 0 { AcquiredKeeps(s, t, m); }
      case UnlockBy(t, m) => if s.mutexes[m].owner == t { UnlockKeeps(s, t, m, Out); }
      case WaitBy(t, c, m) => WaitKeeps(s, t, c, m);
      case SignalBy(t, c) => SignalKeeps(s, t, c);
      case BroadcastBy(t, c) => BroadcastKeeps(s, t, c);
      case Resume(t) => ResumeKeeps(s, t);
      case Others(states) => OthersKeep(s, states);
    }
  }

  // ----- what each call does

  /** No mutex but `m` and no condition differs. */
  ghost predicate OnlyMutex(s: Sys, s': Sys, m: nat) {
    && m in s.mutexes && m in s'.mutexes && s'.mutexes == s.mutexes[m := s'.mutexes[m]]
    && s'.conds == s.conds
  }

  /** A lock takes a free mutex, refuses the owner, and queues anyone else last and blocked. */
  lemma LockMeans(s: Sys, t: Tid, m: nat, again: bool)
    requires Inv(s) && Free(s, t, m) && (again <==> s.place[t].Asleep?)
    ensures var (s', r) := DoLock(s, t, m, again); var x := s.mutexes[m];
      && OnlyMutex(s, s', m) && t in s'.place
      && match r
         case Ok => x.owner == 0 && s'.mutexes[m] == Mutex(t, []) && s'.states == s.states && s'.place[t] == Out
         case Busy => x.owner == t && s'.mutexes[m] == x && s'.states == s.states
         case Blocks =>
           && x.owner != 0 && x.owner != t && s'.mutexes[m] == Mutex(x.owner, x.waiters + [t])
           && s'.states == s.states[t := Blocked] && s'.place[t] == if again then Relocking(m) else Locking(m)
         case _ => false
  {
    var x := s.mutexes[m];
    assert s.mutexes[m := x] == s.mutexes;
  }

  /** A trylock takes a free mutex and otherwise does nothing. */
  lemma TryLockMeans(s: Sys, t: Tid, m: nat)
    requires Inv(s) && Enabled(s, TryLockBy(t, m))
    ensures var (s', r) := Step(s, TryLockBy(t, m));
      if s.mutexes[m].owner == 0 then
        r == Ok && OnlyMutex(s, s', m) && s'.mutexes[m] == Mutex(t, []) && s'.states == s.states && (t, m) in s'.held
      else r == Busy && s' == s
  {
  }

  /** An unlock by the owner frees the mutex, or makes its oldest waiter the owner and ready; anyone else is
      refused. */
  lemma UnlockMeans(s: Sys, t: Tid, m: nat)
    requires Inv(s) && Enabled(s, UnlockBy(t, m))
    ensures var (s', r) := Step(s, UnlockBy(t, m));
      if s.mutexes[m].owner == t then r == Ok && Passed(s, s', m) && s'.place[t] == Out && (t, m) !in s'.held
      else r == NotOwner && s' == s
  {
    if s.mutexes[m].owner == t {
      assert OwnerOk(s, t, m);
      PassedOn(s, t, m, Out);
    }
  }

  /** The mutex is free, or belongs to the task that was its oldest waiter, which is ready. */
  ghost predicate Passed(s: Sys, s': Sys, m: nat) {
    && OnlyMutex(s, s', m)
    && var q := s.mutexes[m].waiters;
      if q == [] then s'.mutexes[m] == Mutex(0, []) && s'.states == s.states
      else s'.mutexes[m].owner == q[0] && [q[0]] + s'.mutexes[m].waiters == q && s'.states == s.states[q[0] := Ready]
  }

  lemma PassedOn(s: Sys, t: Tid, m: nat, pl: Place)
    requires Inv(s) && Releasing(s, t, m, pl)
    ensures var (s', r) := DoUnlock(s, t, m, pl); r == Ok && Passed(s, s', m) && t in s'.place && s'.place[t] == pl && (t, m) !in s'.held
  {
    var q := s.mutexes[m].waiters;
    if q != [] {
      HeadWaits(s, m);
      assert [q[0]] + q[1..] == q;
    }
  }

  /** A wait by the owner puts it last on the list of the condition and blocks it, the mutex still its own;
      anyone else is refused. */
  lemma WaitMeans(s: Sys, t: Tid, c: nat, m: nat)
    requires Inv(s) && Enabled(s, WaitBy(t, c, m))
    ensures var (s', r) := Step(s, WaitBy(t, c, m));
      if s.mutexes[m].owner == t then
        && r == Blocks && s'.mutexes == s.mutexes && s'.states == s.states[t := Blocked]
        && c in s'.conds && s'.conds == s.conds[c := s'.conds[c]] && s'.conds[c] == s.conds[c] + [t] && s'.place[t] == Listed(c, m)
      else r == NotOwner && s' == s
  {
  }

  /** A signal makes the oldest waiter ready and leaves the others in order; with no waiter it is lost. */
  lemma SignalMeans(s: Sys, t: Tid, c: nat)
    requires Inv(s) && Enabled(s, SignalBy(t, c))
    ensures var (s', r) := Step(s, SignalBy(t, c)); var q := s.conds[c];
      && r == Ok && s'.mutexes == s.mutexes && s'.place == s.place
      && if q == [] then s'.conds == s.conds && s'.states == s.states
         else c in s'.conds && s'.conds == s.conds[c := s'.conds[c]] && [q[0]] + s'.conds[c] == q && s'.states == s.states[q[0] := Ready]
  {
    SleepersBlocked(s, c);
    var q := s.conds[c];
    if q == [] { assert s.conds[c := q] == s.conds; } else { assert [q[0]] + q[1..] == q && q[0] in q; }
  }

  /** A broadcast makes all waiters ready, and nobody else. */
  lemma BroadcastMeans(s: Sys, t: Tid, c: nat)
    requires Inv(s) && Enabled(s, BroadcastBy(t, c))
    ensures var (s', r) := Step(s, BroadcastBy(t, c)); var q := s.conds[c];
      && r == Ok && s'.mutexes == s.mutexes && s'.place == s.place && s'.conds == s.conds[c := []]
      && s'.states.Keys == s.states.Keys && forall u :: u in s.states ==> s'.states[u] == if u in q then Ready else s.states[u]
  {
    SleepersBlocked(s, c);
    BroadcastWakesAll(s.conds[c], s.states);
  }

  /** The critical sections of a call that has waited: a lock returns; a wait on a condition releases the
      mutex, and once woken takes it back or queues for it. */
  lemma ResumeMeans(s: Sys, t: Tid)
    requires Inv(s) && Enabled(s, Resume(t))
    ensures var (s', r) := Step(s, Resume(t));
      match s.place[t]
      case Locking(m) => r == Ok && s'.place == s.place[t := Out] && s'.mutexes == s.mutexes && (t, m) in s'.held
      case Relocking(m) => r == Ok && s'.place == s.place[t := Out] && s'.mutexes == s.mutexes && (t, m) in s'.held
      case Listed(c, m) => r == Blocks && Passed(s, s', m) && s'.place[t] == Asleep(c, m) && (t, m) !in s'.held
      case Asleep(c, m) =>
        if s.mutexes[m].owner == 0 then r == Ok && s'.mutexes[m].owner == t && s'.place[t] == Out && (t, m) in s'.held
        else r == Blocks && s'.mutexes[m].waiters == s.mutexes[m].waiters + [t] && s'.place[t] == Relocking(m)
  {
    match s.place[t] {
      case Listed(c, m) =>
        assert OwnerOk(s, t, m);
        PassedOn(s, t, m, Asleep(c, m));
      case Asleep(c, m) => assert OwnerOk(s, t, m);
      case _ =>
    }
  }

  // ----- whole runs

  ghost predicate IsRun(ss: seq<Sys>, events: seq<Event>) {
    && |ss| == |events| + 1
    && forall i :: 0 <= i < |events| ==>
         Wf(ss[i]) && Enabled(ss[i], events[i]) && Step(ss[i], events[i]).0 == ss[i + 1]
  }

  lemma {:induction false} RunsKeepInv(ss: seq<Sys>, events: seq<Event>, i: nat)
    requires IsRun(ss, events) && Inv(ss[0]) && i < |ss|
    ensures Inv(ss[i])
  {
    if i > 0 {
      RunsKeepInv(ss, events, i - 1);
      StepKeeps(ss[i - 1], events[i - 1]);
    }
  }

  /** What the invariant means in any state of any run: at most one task has been told that it
      holds a mutex, no task is in two lists, and mutexes pass from task to task in FIFO order. */
  lemma MutualExclusion(s: Sys, t: Tid, u: Tid, m: nat)
    requires Inv(s) && t in s.place && u in s.place && m in s.mutexes
    requires (t, m) in s.held && (u, m) in s.held
    ensures t == u
  {
  }

  lemma InOneListOnly(s: Sys, t: Tid, m: nat, n: nat, c: nat, d: nat)
    requires Inv(s) && m in s.mutexes && n in s.mutexes && c in s.conds && d in s.conds
    ensures t in s.mutexes[m].waiters && t in s.mutexes[n].waiters ==> m == n
    ensures t in s.conds[c] && t in s.conds[d] ==> c == d
    ensures t in s.mutexes[m].waiters ==> t !in s.conds[c]
  {
    assert t in s.mutexes[m].waiters <==> WaitsForMutex(s, t, m);
    assert t in s.mutexes[n].waiters <==> WaitsForMutex(s, t, n);
    assert t in s.conds[c] <==> WaitsForSignal(s, t, c);
    assert t in s.conds[d] <==> WaitsForSignal(s, t, d);
  }

  /** The tasks handed a mutex so far are the first that queued for it, in the same order, and the
      next release goes to the next of them. */
  lemma HandOverIsFifo(s: Sys, t: Tid, m: nat)
    requires Inv(s) && Enabled(s, UnlockBy(t, m)) && s.mutexes[m].owner == t
    ensures s.handoffs[m] <= s.arrivals[m]
    ensures s.mutexes[m].waiters != [] ==>
      Step(s, UnlockBy(t, m)).0.mutexes[m].owner == s.arrivals[m][|s.handoffs[m]|]
    ensures s.mutexes[m].waiters == [] ==> Step(s, UnlockBy(t, m)).0.mutexes[m].owner == 0
  {
    if s.mutexes[m].waiters != [] { HeadWaits(s, m); }
  }

  /** All mutexes free, all lists empty, all tasks outside any call. */
  lemma StartInv(mutexes: set<nat>, conds: set<nat>, states: States, tasks: set<Tid>)
    requires tasks <= states.Keys
    ensures Inv(Sys(map m | m in mutexes :: Mutex(0, []), map c | c in conds :: [], states,
                    map t | t in tasks :: Out, {}, map m | m in mutexes :: [], map m | m in mutexes :: []))
  {
  }
}
