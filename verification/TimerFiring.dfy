/** The tick handler: which timers a call fires, that repeated calls drain the backlog, and that
    periodic timers never drift. */
module TimerFiring {
  import opened TimerLists
  import opened TimerSpec
  import opened TimerLaws
  import Bits

  ghost function ToSet(ps: seq<Ptr>): set<Ptr> {
    set p | p in ps
  }

  ghost predicate DistinctPtrs(ps: seq<Ptr>) {
    forall i, j :: 0 <= i < j < |ps| ==> ps[i] != ps[j]
  }

  // ----- collecting the batch

  lemma {:induction false} CollectKeeps(s: Sys, n: nat, pending: set<Ptr>)
    requires Core(s, pending) && n <= |s.active|
    ensures Core(Collect(s, n), pending + ToSet(Ptrs(s.active[..n])))
    decreases n
  {
    hide Core;
    if n == 0 {
      assert pending + ToSet(Ptrs(s.active[..0])) == pending;
    } else {
      var p := s.active[0].timer;
      UnlinkKeeps(s, 0, pending);
      CollectKeeps(Unlink(s, 0), n - 1, pending + {p});
      PtrsCons(s.active, n);
      assert pending + {p} + ToSet(Ptrs(s.active[1..][..n - 1])) == pending + ToSet(Ptrs(s.active[..n]));
    }
  }

  lemma PtrsCons(cells: seq<Cell>, n: nat)
    requires 0 < n <= |cells|
    ensures RemoveAt(cells, 0) == cells[1..]
    ensures ToSet(Ptrs(cells[..n])) == {cells[0].timer} + ToSet(Ptrs(cells[1..][..n - 1]))
  {
    assert cells[..n] == [cells[0]] + cells[1..][..n - 1];
    assert cells[..n][1..] == cells[1..][..n - 1];
  }

  // ----- firing

  lemma ReloadedTime(t: Timer, now: nat)
    requires TimeOk(t, now) && t.mode == AutoReload && t.deadline <= now
    ensures TimeOk(Reloaded(t), now)
  {
  }

  lemma PendingFacts(s: Sys, p: Ptr, pending: set<Ptr>)
    requires Core(s, pending) && p in pending
    ensures p in s.ts && p !in Listed(s.active) && s.ts[p].mode != Disabled && TimeOk(s.ts[p], s.now)
    ensures Wf(s)
  {
  }

  lemma LogFree(s: Sys, pending: set<Ptr>, log: seq<Fire>)
    requires Core(s, pending)
    ensures Core(s.(log := log), pending)
  {
  }

  lemma OfAppend(log: seq<Fire>, e: Fire, since: nat, p: Ptr)
    requires since <= |log|
    ensures Of((log + [e])[since..], p) == Of(log[since..], p) + if e.timer == p then [e] else []
  {
    var x := (log + [e])[since..];
    assert x[..|x| - 1] == log[since..];
  }

  /** A callback of another timer. */
  lemma FiredOkOther(log: seq<Fire>, e: Fire, q: Ptr, t: Timer)
    requires FiredOk(log, q, t) && e.timer != q
    ensures FiredOk(log + [e], q, t)
  {
    OfAppend(log, e, t.since, q);
  }

  /** The next callback of the timer itself. */
  lemma FiredOkNext(log: seq<Fire>, p: Ptr, t: Timer, t': Timer, now: nat)
    requires FiredOk(log, p, t) && t.deadline == t.started + (t.fired + 1) * Ticks(t.periodMs)
    requires t'.since == t.since && t'.started == t.started && t'.periodMs == t.periodMs && t'.fired == t.fired + 1
    ensures FiredOk(log + [Fire(p, now, t.deadline)], p, t')
  {
    OfAppend(log, Fire(p, now, t.deadline), t.since, p);
  }

  lemma FireOneLogs(s: Sys, p: Ptr)
    requires Wf(s) && Logs(s) && p in s.ts && TimeOk(s.ts[p], s.now) && s.ts[p].deadline <= s.now
    ensures Logs(FireOne(s, p))
  {
    var t, e, s' := s.ts[p], Fire(p, s.now, s.ts[p].deadline), FireOne(s, p);
    if t.mode == AutoReload { FiredOkNext(s.log, p, t, s'.ts[p], s.now); }
    hide FiredOk;
    forall q | q in s'.ts && s'.ts[q].mode != Disabled ensures FiredOk(s'.log, q, s'.ts[q]) {
      if q != p { FiredOkOther(s.log, e, q, s.ts[q]); }
    }
  }

  /** Firing a timer the handler holds, running or disabled meanwhile. */
  lemma FireOneKeeps(s: Sys, p: Ptr, pending: set<Ptr>)
    requires Inv(s, pending) && p in s.ts && p !in Listed(s.active) && s.ts[p].deadline <= s.now
    requires TimeOk(s.ts[p], s.now) && (s.ts[p].mode != Disabled <==> p in pending)
    ensures Wf(s) && Inv(FireOne(s, p), pending - {p})
  {
    hide Core, Logs;
    CoreWf(s, pending);
    FireOneLogs(s, p);
    var t := s.ts[p];
    var s' := s.(log := s.log + [Fire(p, s.now, t.deadline)]);
    LogFree(s, pending, s'.log);
    if t.mode == AutoReload {
      ReloadedTime(t, s.now);
      LinkKeeps(s', p, Reloaded(t), pending);
    } else {
      DisableKeeps(s', p, pending, t.(mode := Disabled, fired := t.fired + 1));
    }
  }

  /** The callbacks of a batch, in order. */
  ghost function Fires(ts: Timers, ps: seq<Ptr>, now: nat): seq<Fire>
    requires forall p :: p in ps ==> p in ts
  {
    if ps == [] then [] else [Fire(ps[0], now, ts[ps[0]].deadline)] + Fires(ts, ps[1..], now)
  }

  lemma {:induction false} FiresRewrite(ts: Timers, ts': Timers, ps: seq<Ptr>, now: nat)
    requires forall p :: p in ps ==> p in ts && p in ts' && ts'[p].deadline == ts[p].deadline
    ensures Fires(ts', ps, now) == Fires(ts, ps, now)
  {
    if ps != [] { FiresRewrite(ts, ts', ps[1..], now); }
  }

  /** `ps` is the part of a batch that is still to be fired. */
  ghost predicate Batch(s: Sys, ps: seq<Ptr>) {
    && DistinctPtrs(ps) && Inv(s, ToSet(ps))
    && forall p :: p in ps ==> p in s.ts && s.ts[p].deadline <= s.now
  }

  lemma BatchTail(ps: seq<Ptr>)
    requires DistinctPtrs(ps) && ps != []
    ensures DistinctPtrs(ps[1..]) && ps[0] !in ps[1..] && ToSet(ps) - {ps[0]} == ToSet(ps[1..])
    ensures forall p :: p in ps[1..] ==> p in ps
  {
  }

  lemma BatchNext(s: Sys, ps: seq<Ptr>)
    requires Batch(s, ps) && ps != []
    ensures Wf(s) && Batch(FireOne(s, ps[0]), ps[1..])
  {
    hide Core, Logs;
    BatchTail(ps);
    PendingFacts(s, ps[0], ToSet(ps));
    FireOneKeeps(s, ps[0], ToSet(ps));
  }

  lemma {:induction false} FireAllKeeps(s: Sys, ps: seq<Ptr>)
    requires Batch(s, ps)
    ensures Wf(s) && Inv(FireAll(s, ps), {})
    decreases |ps|
  {
    if ps == [] {
      assert ToSet(ps) == {};
    } else {
      BatchNext(s, ps);
      FireAllKeeps(FireOne(s, ps[0]), ps[1..]);
    }
  }

  /** A batch fires in order, each timer once, at the current tick. */
  lemma {:induction false} FireAllLog(s: Sys, ps: seq<Ptr>)
    requires Wf(s) && DistinctPtrs(ps) && forall p :: p in ps ==> p in s.ts
    ensures FireAll(s, ps).log == s.log + Fires(s.ts, ps, s.now) && FireAll(s, ps).now == s.now
    decreases |ps|
  {
    if ps != [] {
      BatchTail(ps);
      FireAllLog(FireOne(s, ps[0]), ps[1..]);
      FiresRewrite(s.ts, FireOne(s, ps[0]).ts, ps[1..], s.now);
    }
  }

  // ----- one call of the handler

  ghost function Min(a: nat, b: nat): nat {
    if a < b then a else b
  }

  /** How many active timers are due: on a sorted list, exactly the first so many. */
  ghost function Expired(s: Sys): nat
    requires Known(s.active, s.ts)
  {
    BatchSize(s.active, s.ts, s.now, |s.active|)
  }

  lemma ExpiredExact(s: Sys, i: nat)
    requires Orders(s) && i < |s.active|
    ensures s.ts[s.active[i].timer].deadline <= s.now <==> i < Expired(s)
  {
  }

  lemma {:induction false} BatchIsMin(active: seq<Cell>, ts: Timers, now: nat, room: nat)
    requires Known(active, ts)
    ensures BatchSize(active, ts, now, room) == Min(room, BatchSize(active, ts, now, |active|))
    decreases room
  {
  }

  ghost function BatchOf(s: Sys): seq<Ptr>
    requires Wf(s)
  {
    Ptrs(s.active[..BatchSize(s.active, s.ts, s.now, BATCH)])
  }

  lemma BatchReady(s: Sys)
    requires Inv(s, {})
    ensures Wf(s) && Batch(Collect(s, BatchSize(s.active, s.ts, s.now, BATCH)), BatchOf(s))
  {
    hide Inv;
    InvWf(s, {});
    BatchCollected(s, BatchSize(s.active, s.ts, s.now, BATCH));
  }

  lemma BatchCollected(s: Sys, n: nat)
    requires Inv(s, {}) && Wf(s) && Unique(s.active) && n <= BatchSize(s.active, s.ts, s.now, BATCH)
    ensures Batch(Collect(s, n), Ptrs(s.active[..n]))
  {
    BatchDistinct(s, n);
    hide Inv, BatchSize, Ptrs, ToSet, DistinctPtrs, Wf, Unique, Collect;
    CollectedInv(s, n);
  }

  lemma CollectedInv(s: Sys, n: nat)
    requires Inv(s, {}) && n <= |s.active|
    ensures Inv(Collect(s, n), ToSet(Ptrs(s.active[..n])))
  {
    hide Core, Logs, Ptrs, ToSet, OnlyAt, Collect;
    CollectOnly(s, n);
    CollectKeeps(s, n, {});
    LogsOnlyAt(s, Collect(s, n), 0);
    NothingMore(ToSet(Ptrs(s.active[..n])));
  }

  lemma NothingMore(a: set<Ptr>)
    ensures {} + a == a
  {
  }

  lemma CollectOnly(s: Sys, n: nat)
    requires n <= |s.active|
    ensures OnlyAt(s, Collect(s, n), 0)
  {
  }

  lemma InvWf(s: Sys, pending: set<Ptr>)
    requires Inv(s, pending)
    ensures Wf(s) && Unique(s.active)
  {
  }

  lemma BatchDistinct(s: Sys, n: nat)
    requires Unique(s.active) && Known(s.active, s.ts) && n <= BatchSize(s.active, s.ts, s.now, BATCH)
    ensures DistinctPtrs(Ptrs(s.active[..n]))
    ensures forall p :: p in Ptrs(s.active[..n]) ==> p in s.ts && s.ts[p].deadline <= s.now
  {
  }

  /** A call keeps the timer state and fires exactly the first min(4, expired) timers of the active
      list, each at its own deadline, in list order: by deadline, ties in insertion order. */
  lemma HandlerFires(s: Sys)
    requires Inv(s, {})
    ensures Wf(s) && Inv(Handler(s), {}) && Handler(s).now == s.now
    ensures |BatchOf(s)| == Min(4, Expired(s))
    ensures Handler(s).log == s.log + Fires(s.ts, BatchOf(s), s.now)
  {
    hide Inv;
    BatchReady(s);
    var n := BatchSize(s.active, s.ts, s.now, BATCH);
    FireAllKeeps(Collect(s, n), BatchOf(s));
    FireAllLog(Collect(s, n), BatchOf(s));
    BatchIsMin(s.active, s.ts, s.now, BATCH);
  }

  // ----- the backlog

  ghost function Late(t: Timer, now: nat): nat {
    if t.deadline <= now then now + 1 - t.deadline else 0
  }

  /** Total lateness of the active timers. */
  ghost function Backlog(cells: seq<Cell>, ts: Timers, now: nat): nat
    requires Known(cells, ts)
  {
    if cells == [] then 0
    else assert cells[0] in cells; Late(ts[cells[0].timer], now) + Backlog(cells[1..], ts, now)
  }

  lemma {:induction false} BacklogMiddle(x: seq<Cell>, c: Cell, y: seq<Cell>, ts: Timers, now: nat)
    requires Known(x + y, ts) && c.timer in ts
    ensures Known(x + [c] + y, ts)
    ensures Backlog(x + [c] + y, ts, now) == Backlog(x + y, ts, now) + Late(ts[c.timer], now)
  {
    if x == [] {
      assert x + y == y && (x + [c] + y)[1..] == y;
    } else {
      assert (x + y)[1..] == x[1..] + y;
      assert (x + [c] + y)[1..] == x[1..] + [c] + y;
      BacklogMiddle(x[1..], c, y, ts, now);
    }
  }

  lemma {:induction false} BacklogRewrite(cells: seq<Cell>, ts: Timers, p: Ptr, t: Timer, now: nat)
    requires Known(cells, ts) && p !in Listed(cells)
    ensures Known(cells, ts[p := t]) && Backlog(cells, ts[p := t], now) == Backlog(cells, ts, now)
  {
    if cells != [] {
      assert cells[0] in cells;
      assert cells[0].timer in Listed(cells);
      assert forall q :: q in Listed(cells[1..]) ==> q in Listed(cells);
      BacklogRewrite(cells[1..], ts, p, t, now);
    }
  }

  lemma BacklogInsert(cells: seq<Cell>, ts: Timers, c: Cell, now: nat)
    requires Known(cells, ts) && c.timer in ts
    ensures Known(Insert(cells, ts, ByDeadline, c), ts)
    ensures Backlog(Insert(cells, ts, ByDeadline, c), ts, now) == Backlog(cells, ts, now) + Late(ts[c.timer], now)
  {
    var i := Position(cells, ts, ByDeadline, ts[c.timer].deadline);
    assert cells == cells[..i] + cells[i..];
    BacklogMiddle(cells[..i], c, cells[i..], ts, now);
  }

  lemma FireOneBacklog(s: Sys, p: Ptr)
    requires Wf(s) && p in s.ts && p !in Listed(s.active) && s.ts[p].deadline <= s.now
    requires s.ts[p].mode == AutoReload ==> Ticks(s.ts[p].periodMs) >= 1 && s.ts[p].expected == s.ts[p].deadline
    ensures var r := FireOne(s, p);
      Backlog(r.active, r.ts, s.now) + 1 <= Backlog(s.active, s.ts, s.now) + Late(s.ts[p], s.now)
  {
    var t := s.ts[p];
    if t.mode == AutoReload {
      var t' := Reloaded(t).(stamp := s.stamp);
      BacklogRewrite(s.active, s.ts, p, t', s.now);
      BacklogInsert(s.active, s.ts[p := t'], Cell(Take(s.free, s.nextNode).0, p), s.now);
    } else {
      BacklogRewrite(s.active, s.ts, p, t.(mode := Disabled, fired := t.fired + 1), s.now);
    }
  }

  ghost function SumLate(ts: Timers, ps: seq<Ptr>, now: nat): nat
    requires forall p :: p in ps ==> p in ts
  {
    if ps == [] then 0 else Late(ts[ps[0]], now) + SumLate(ts, ps[1..], now)
  }

  lemma {:induction false} SumLateRewrite(ts: Timers, ts': Timers, ps: seq<Ptr>, now: nat)
    requires forall p :: p in ps ==> p in ts && p in ts' && ts'[p] == ts[p]
    ensures SumLate(ts', ps, now) == SumLate(ts, ps, now)
  {
    if ps != [] { SumLateRewrite(ts, ts', ps[1..], now); }
  }

  lemma {:induction false} BacklogSplit(cells: seq<Cell>, ts: Timers, n: nat, now: nat)
    requires Known(cells, ts) && n <= |cells|
    ensures Known(cells[n..], ts) && forall p :: p in Ptrs(cells[..n]) ==> p in ts
    ensures Backlog(cells, ts, now) == SumLate(ts, Ptrs(cells[..n]), now) + Backlog(cells[n..], ts, now)
  {
    if n == 0 {
      assert cells[0..] == cells;
    } else {
      assert cells[0] in cells;
      assert cells[..n][1..] == cells[1..][..n - 1] && cells[1..][n - 1..] == cells[n..];
      BacklogSplit(cells[1..], ts, n - 1, now);
      assert Ptrs(cells[..n]) == [cells[0].timer] + Ptrs(cells[1..][..n - 1]);
    }
  }

  /** Every periodic timer that is due has a period of at least one tick, which is 10 ms. */
  ghost predicate GoodPeriods(ts: Timers, now: nat) {
    forall p :: p in ts && ts[p].mode == AutoReload && ts[p].deadline <= now ==> ts[p].periodMs >= 10
  }

  /** What firing does to one timer: it stays as it is, is disabled, or moves one period on. */
  ghost predicate Fired(t: Timer, t': Timer) {
    && t'.periodMs == t.periodMs && t'.started == t.started
    && (t.mode == AutoReload ==> t'.mode == AutoReload)
    && (t.mode == Disabled ==> t'.mode == Disabled)
    && (t'.mode == AutoReload ==> t.mode == AutoReload)
    && (t'.deadline == t.deadline || (t.mode == AutoReload && t'.deadline == t.expected + Ticks(t.periodMs)))
  }

  lemma {:induction false} FireAllEffect(s: Sys, ps: seq<Ptr>, p: Ptr)
    requires Wf(s) && DistinctPtrs(ps) && (forall q :: q in ps ==> q in s.ts) && p in s.ts
    ensures FireAll(s, ps).ts.Keys == s.ts.Keys
    ensures Fired(s.ts[p], FireAll(s, ps).ts[p])
    ensures p !in ps ==> FireAll(s, ps).ts[p] == s.ts[p]
    decreases |ps|
  {
    if ps != [] {
      BatchTail(ps);
      assert ps == [ps[0]] + ps[1..];
      FireAllEffect(FireOne(s, ps[0]), ps[1..], p);
    }
  }

  lemma GoodPeriodsOne(s: Sys, p: Ptr, ps: seq<Ptr>)
    requires Batch(s, ps) && ps != [] && p == ps[0]
    ensures p in s.ts && p !in Listed(s.active) && s.ts[p].mode != Disabled
    ensures s.ts[p].expected == s.ts[p].deadline <= s.now && Wf(s)
  {
    hide Core, Logs;
    PendingFacts(s, p, ToSet(ps));
  }

  /** Firing a batch pays off at least one tick of lateness per timer. */
  lemma {:induction false} FireAllBacklog(s: Sys, ps: seq<Ptr>)
    requires Batch(s, ps) && forall p :: p in ps && p in s.ts && s.ts[p].mode == AutoReload ==> Ticks(s.ts[p].periodMs) >= 1
    ensures Wf(s)
    ensures var r := FireAll(s, ps);
      Backlog(r.active, r.ts, s.now) + |ps| <= Backlog(s.active, s.ts, s.now) + SumLate(s.ts, ps, s.now)
    decreases |ps|
  {
    if ps == [] {
      InvWf(s, ToSet(ps));
    } else {
      hide Inv;
      var p, s1 := ps[0], FireOne(s, ps[0]);
      GoodPeriodsOne(s, p, ps);
      BatchNext(s, ps);
      BatchTail(ps);
      FireOneBacklog(s, p);
      FireAllBacklog(s1, ps[1..]);
      SumLateRewrite(s.ts, s1.ts, ps[1..], s.now);
    }
  }

  // ----- draining

  lemma HandlerEffect(s: Sys, p: Ptr)
    requires Inv(s, {}) && p in s.ts
    ensures Wf(s) && Handler(s).ts.Keys == s.ts.Keys && Fired(s.ts[p], Handler(s).ts[p])
  {
    hide Inv;
    BatchReady(s);
    FireAllEffect(Collect(s, BatchSize(s.active, s.ts, s.now, BATCH)), BatchOf(s), p);
  }

  lemma HandlerBacklog(s: Sys)
    requires Inv(s, {}) && GoodPeriods(s.ts, s.now)
    ensures Wf(s)
    ensures var r := Handler(s);
      Backlog(r.active, r.ts, s.now) + |BatchOf(s)| <= Backlog(s.active, s.ts, s.now)
  {
    hide Inv;
    BatchReady(s);
    var n := BatchSize(s.active, s.ts, s.now, BATCH);
    FireAllBacklog(Collect(s, n), BatchOf(s));
    BacklogSplit(s.active, s.ts, n, s.now);
  }

  lemma HandlerKeepsPeriods(s: Sys)
    requires Inv(s, {}) && GoodPeriods(s.ts, s.now)
    ensures Wf(s) && GoodPeriods(Handler(s).ts, s.now)
  {
    hide Inv, Handler;
    HandlerKeys(s);
    forall p | p in Handler(s).ts && Handler(s).ts[p].mode == AutoReload && Handler(s).ts[p].deadline <= s.now
      ensures Handler(s).ts[p].periodMs >= 10
    {
      HandlerEffect(s, p);
      ExpectedIsDeadline(s, p);
    }
  }

  lemma HandlerKeys(s: Sys)
    requires Inv(s, {})
    ensures Wf(s) && Handler(s).ts.Keys == s.ts.Keys
  {
    hide Inv;
    BatchReady(s);
    FireAllKeys(Collect(s, BatchSize(s.active, s.ts, s.now, BATCH)), BatchOf(s));
  }

  lemma {:induction false} FireAllKeys(s: Sys, ps: seq<Ptr>)
    requires Wf(s) && forall q :: q in ps ==> q in s.ts
    ensures FireAll(s, ps).ts.Keys == s.ts.Keys
    decreases |ps|
  {
    if ps != [] { FireAllKeys(FireOne(s, ps[0]), ps[1..]); }
  }

  lemma RunningTimes(s: Sys, p: Ptr)
    requires Inv(s, {}) && p in s.ts
    ensures TimeOk(s.ts[p], s.now)
  {
  }

  lemma ExpectedIsDeadline(s: Sys, p: Ptr)
    requires Inv(s, {}) && p in s.ts && s.ts[p].mode != Disabled
    ensures s.ts[p].expected == s.ts[p].deadline
  {
  }

  /** `k` calls of the handler at the same tick. */
  ghost function Calls(s: Sys, k: nat): (r: Sys)
    requires Wf(s)
    ensures Wf(r)
    decreases k
  {
    if k == 0 then s else Calls(Handler(s), k - 1)
  }

  /** Repeated calls at one tick drain the backlog when every due periodic timer has a period of at
      least one tick: each call pays off at least the number of timers it fires. */
  lemma {:induction false} CallsDrain(s: Sys) returns (k: nat)
    requires Inv(s, {}) && GoodPeriods(s.ts, s.now)
    ensures Wf(s) && Inv(Calls(s, k), {}) && Expired(Calls(s, k)) == 0
    decreases if Wf(s) then Backlog(s.active, s.ts, s.now) else 0
  {
    hide Inv, Handler;
    InvWf(s, {});
    if Expired(s) == 0 {
      k := 0;
    } else {
      HandlerFires(s);
      HandlerBacklog(s);
      HandlerKeepsPeriods(s);
      k := CallsDrain(Handler(s));
      k := k + 1;
    }
  }

  /** A due periodic timer. */
  ghost predicate Due(s: Sys, p: Ptr) {
    p in s.ts && s.ts[p].mode == AutoReload && s.ts[p].deadline <= s.now
  }

  lemma DueIsExpired(s: Sys, p: Ptr)
    requires Inv(s, {}) && Due(s, p)
    ensures Known(s.active, s.ts) && Expired(s) > 0
  {
    assert p in Running(s.ts);
    assert p in Listed(s.active);
    var c :| c in s.active && c.timer == p;
    var i :| 0 <= i < |s.active| && s.active[i] == c;
    ExpiredExact(s, i);
  }

  /** With a period below one tick the reload leaves the deadline where it was: the timer is due
      again at once, and no number of calls drains the list. */
  lemma {:induction false} ZeroPeriodNeverDrains(s: Sys, p: Ptr, k: nat)
    requires Inv(s, {}) && Due(s, p) && s.ts[p].periodMs < 10
    ensures Wf(s) && Inv(Calls(s, k), {}) && Expired(Calls(s, k)) > 0
    decreases k
  {
    hide Inv, Handler;
    InvWf(s, {});
    DueIsExpired(s, p);
    if k > 0 {
      HandlerFires(s);
      HandlerEffect(s, p);
      ExpectedIsDeadline(s, p);
      ZeroPeriodNeverDrains(Handler(s), p, k - 1);
    }
  }

  /** The backlog of a tick can be drained if and only if no due periodic timer has a period below
      one tick, that is below 10 ms. */
  lemma DrainsIff(s: Sys)
    requires Inv(s, {})
    ensures Wf(s) && ((exists k :: Expired(Calls(s, k)) == 0) <==> GoodPeriods(s.ts, s.now))
  {
    hide Inv;
    InvWf(s, {});
    if GoodPeriods(s.ts, s.now) {
      var k := CallsDrain(s);
    } else {
      var p :| p in s.ts && s.ts[p].mode == AutoReload && s.ts[p].deadline <= s.now && s.ts[p].periodMs < 10;
      forall k: nat ensures Expired(Calls(s, k)) > 0 {
        ZeroPeriodNeverDrains(s, p, k);
      }
    }
  }

  lemma TicksExact(ms: nat)
    ensures Ticks(ms) == ms / 10
  {
  }

  // ----- no drift

  /** Once a tick is drained, a periodic timer that runs since tick `started` has fired exactly once
      per elapsed period: no firing is lost, early or doubled. */
  lemma FiredExactly(s: Sys, p: Ptr)
    requires Inv(s, {}) && p in s.ts && s.ts[p].mode == AutoReload && !Due(s, p)
    ensures var t := s.ts[p];
      var d := t.periodMs / 10;
      d > 0 && t.fired == (s.now - t.started) / d && t.deadline == t.started + (t.fired + 1) * d
  {
    var t := s.ts[p];
    var d := Ticks(t.periodMs);
    TicksExact(t.periodMs);
    RunningTimes(s, p);
    hide Inv;
    assert (t.fired + 1) * d == t.fired * d + d;
    var x, r := s.now - t.started, s.now - t.started - t.fired * d;
    assert 0 <= r < d && x == t.fired * d + r;
    Bits.ModUnique(x, d, t.fired, r);
  }
}
