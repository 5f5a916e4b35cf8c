/**
 * Runs of the timer interface. The interface functions are critical sections; the tick handler is not one:
 * it runs in a task that can be preempted, so other calls fall between its taking an expired timer off the
 * list and its processing it.
 */
module TimerRuns {
  import opened TimerLists
  import opened TimerSpec
  import opened TimerLaws
  import opened TimerFiring
  import Bits

  /** `held` are the timers that some call of the handler has taken off the list and not yet processed. */
  datatype Live = Live(s: Sys, held: set<Ptr>)

  ghost predicate LiveInv(l: Live) {
    && Inv(l.s, Pending(l)) && l.held <= l.s.ts.Keys && Listed(l.s.active) !! l.held
    && forall p :: p in l.held ==> p in l.s.ts && l.s.ts[p].deadline <= l.s.now
  }

  /** The held timers that have not been cancelled meanwhile. */
  ghost function Pending(l: Live): set<Ptr> {
    l.held * Running(l.s.ts)
  }

  datatype Event =
    | CreateAt(p: Ptr, periodMs: nat)
    | DestroyId(id: nat)
    | StartId(id: nat, mode: Mode)
    | CancelId(id: nat)
    | Tick
    | TakeFirst
    | FireHeld(p: Ptr)

  /** A held timer is not started and not destroyed. */
  ghost predicate Enabled(l: Live, e: Event) {
    Wf(l.s) && match e
      case CreateAt(p, _) => p !in l.s.ts
      case DestroyId(id) => Lookup(l.s, id) !in l.held
      case StartId(id, _) => Lookup(l.s, id) !in l.held
      case CancelId(_) => true
      case Tick => true
      case TakeFirst => l.s.active != [] && l.s.ts[l.s.active[0].timer].deadline <= l.s.now
      case FireHeld(p) => p in l.held && p in l.s.ts
  }

  ghost function Step(l: Live, e: Event): Live
    requires Enabled(l, e)
  {
    match e
    case CreateAt(p, periodMs) => l.(s := Create(l.s, p, periodMs).0)
    case DestroyId(id) => l.(s := Destroy(l.s, id).0)
    case StartId(id, mode) => l.(s := Start(l.s, id, mode).0)
    case CancelId(id) => l.(s := Cancel(l.s, id).0)
    case Tick => l.(s := l.s.(now := l.s.now + 1))
    case TakeFirst => Live(Unlink(l.s, 0), l.held + {l.s.active[0].timer})
    case FireHeld(p) => Live(FireOne(l.s, p), l.held - {p})
  }

  // ----- every step keeps the invariant

  lemma LiveFacts(l: Live)
    requires LiveInv(l)
    ensures Wf(l.s) && Core(l.s, Pending(l)) && Logs(l.s)
  {
    CoreWf(l.s, Pending(l));
  }

  /** A call that changes no held timer and leaves the rest of the state in order. */
  lemma ApiKeeps(l: Live, s': Sys, p: nat)
    requires LiveInv(l) && OnlyAt(l.s, s', p) && p !in l.held && Inv(s', Pending(l))
    requires forall q :: q in Listed(s'.active) ==> q in Listed(l.s.active) || q == p
    ensures LiveInv(l.(s := s'))
  {
    hide Core, Logs;
    assert l.held * Running(s'.ts) == Pending(l);
  }

  /** The active list afterwards holds no timer but those before and the one armed. */
  lemma ActiveOnly(s: Sys, s': Sys, pending: set<Ptr>, p: nat)
    requires Core(s, pending) && Core(s', pending) && OnlyAt(s, s', p)
    ensures forall q :: q in Listed(s'.active) ==> q in Listed(s.active) || q == p
  {
    forall q | q in Listed(s'.active) && q != p ensures q in Listed(s.active) {
      assert q in Running(s'.ts) && q in Running(s.ts);
    }
  }

  lemma CallKeeps(l: Live, s': Sys, p: nat)
    requires LiveInv(l) && OnlyAt(l.s, s', p) && p !in l.held && Inv(s', Pending(l))
    ensures LiveInv(l.(s := s'))
  {
    ActiveOnly(l.s, s', Pending(l), p);
    hide LiveInv, Inv;
    ApiKeeps(l, s', p);
  }

  /** A cancel of a timer that the handler holds disables it and leaves the lists alone. */
  lemma CancelHeld(l: Live, id: nat)
    requires LiveInv(l) && Wf(l.s) && Lookup(l.s, id) in l.held
    ensures var p := Lookup(l.s, id); p in l.s.ts
    ensures var p, s' := Lookup(l.s, id), Cancel(l.s, id).0;
      && OnlyAt(l.s, s', p) && s'.active == l.s.active && p in s'.ts && s'.ts[p].deadline == l.s.ts[p].deadline
      && s'.ts[p].mode == Disabled && Inv(s', Pending(l) - {p})
  {
    hide Core, Logs;
    FindFastIsScan(l.s, Pending(l), id);
    var (s1, p) := FindFast(l.s, id);
    if s1.ts[p].mode != Disabled {
      assert Find(s1.active, p) == |s1.active| by { NotListed(s1.active, p); }
      DisableKeeps(s1, p, Pending(l), s1.ts[p].(mode := Disabled));
      LogsOnlyAt(l.s, Cancel(l.s, id).0, p);
    } else {
      LogsOnlyAt(l.s, s1, 0);
      assert Pending(l) - {p} == Pending(l);
    }
  }

  lemma NotListed(cells: seq<Cell>, p: Ptr)
    requires p !in Listed(cells)
    ensures Find(cells, p) == |cells|
  {
  }

  /** Disabling a held timer. */
  lemma HeldDisabled(l: Live, s': Sys, p: Ptr)
    requires LiveInv(l) && p in l.held && p in l.s.ts && OnlyAt(l.s, s', p) && s'.active == l.s.active
    requires p in s'.ts && s'.ts[p].deadline == l.s.ts[p].deadline && s'.ts[p].mode == Disabled
    requires Inv(s', Pending(l) - {p})
    ensures LiveInv(l.(s := s'))
  {
    hide Inv;
    assert l.held * Running(s'.ts) == Pending(l) - {p};
  }

  lemma CancelHeldKeeps(l: Live, id: nat)
    requires LiveInv(l) && Wf(l.s) && Lookup(l.s, id) in l.held
    ensures LiveInv(l.(s := Cancel(l.s, id).0))
  {
    hide LiveInv, Inv, Cancel, Lookup, OnlyAt;
    CancelHeld(l, id);
    HeldDisabled(l, Cancel(l.s, id).0, Lookup(l.s, id));
  }

  lemma TakeFirstKeeps(l: Live)
    requires LiveInv(l) && Enabled(l, TakeFirst)
    ensures LiveInv(Step(l, TakeFirst))
  {
    hide Core, Logs;
    var p, s' := l.s.active[0].timer, Unlink(l.s, 0);
    TakenRuns(l.s, Pending(l));
    UnlinkKeeps(l.s, 0, Pending(l));
    LogsOnlyAt(l.s, s', 0);
    assert (l.held + {p}) * Running(s'.ts) == Pending(l) + {p};
  }

  lemma TakenRuns(s: Sys, pending: set<Ptr>)
    requires Core(s, pending) && s.active != []
    ensures s.active[0].timer in Running(s.ts) && Listed(Unlink(s, 0).active) == Listed(s.active) - {s.active[0].timer}
  {
    assert s.active[0] in s.active && s.active[0].timer in Listed(s.active);
    RemoveListed(s.active, 0);
  }

  lemma FireHeldKeeps(l: Live, p: Ptr)
    requires LiveInv(l) && Enabled(l, FireHeld(p))
    ensures LiveInv(Step(l, FireHeld(p)))
  {
    hide Core, Logs;
    HeldTime(l, p);
    FireOneKeeps(l.s, p, Pending(l));
    var s' := FireOne(l.s, p);
    FireOneActive(l.s, p);
    assert (l.held - {p}) * Running(s'.ts) == Pending(l) - {p};
  }

  lemma HeldTime(l: Live, p: Ptr)
    requires LiveInv(l) && p in l.held
    ensures p in l.s.ts && TimeOk(l.s.ts[p], l.s.now)
  {
  }

  lemma FireOneActive(s: Sys, p: Ptr)
    requires Wf(s) && p in s.ts
    ensures forall q :: q in Listed(FireOne(s, p).active) ==> q in Listed(s.active) || q == p
    ensures forall q :: q in s.ts && q != p ==> q in FireOne(s, p).ts && FireOne(s, p).ts[q] == s.ts[q]
  {
    if s.ts[p].mode == AutoReload {
      InsertListed(s.active, s.ts[p := Reloaded(s.ts[p]).(stamp := s.stamp)], ByDeadline, Cell(Take(s.free, s.nextNode).0, p));
    }
  }

  lemma TickStep(l: Live)
    requires LiveInv(l)
    ensures LiveInv(l.(s := l.s.(now := l.s.now + 1)))
  {
    TickKeeps(l.s, Pending(l));
    hide Core, Logs;
  }

  /** Every call, every tick and every step of the handler keeps the timer state. */
  lemma StepKeeps(l: Live, e: Event)
    requires LiveInv(l) && Enabled(l, e)
    ensures LiveInv(Step(l, e))
  {
    LiveFacts(l);
    hide Core, Logs, LiveInv;
    match e {
      case CreateAt(p, ms) =>
        HeldKnown(l, p);
        CreateKeeps(l.s, p, ms, Pending(l));
        CallKeeps(l, Create(l.s, p, ms).0, p);
      case DestroyId(id) =>
        DestroyKeeps(l.s, id, Pending(l));
        CallKeeps(l, Destroy(l.s, id).0, Lookup(l.s, id));
      case StartId(id, mode) =>
        StartKeeps(l.s, id, mode, Pending(l));
        CallKeeps(l, Start(l.s, id, mode).0, Lookup(l.s, id));
      case CancelId(id) =>
        if Lookup(l.s, id) in l.held {
          CancelHeldKeeps(l, id);
        } else {
          CancelKeeps(l.s, id, Pending(l));
          CallKeeps(l, Cancel(l.s, id).0, Lookup(l.s, id));
        }
      case Tick => TickStep(l);
      case TakeFirst => TakeFirstKeeps(l);
      case FireHeld(p) => FireHeldKeeps(l, p);
    }
  }

  lemma HeldKnown(l: Live, p: Ptr)
    requires LiveInv(l)
    ensures p in l.held ==> p in l.s.ts
  {
  }

  ghost predicate IsRun(ls: seq<Live>, events: seq<Event>) {
    && |ls| == |events| + 1
    && forall i :: 0 <= i < |events| ==> Enabled(ls[i], events[i]) && Step(ls[i], events[i]) == ls[i + 1]
  }

  /** In every state of every run both lists are sorted and exact, each node is in one place, the
      cache agrees with the lists, deadlines do not drift, nothing has fired early and the callbacks of every
      running timer since its start are the due ones. */
  lemma {:induction false} RunsKeepInv(ls: seq<Live>, events: seq<Event>, i: nat)
    requires IsRun(ls, events) && LiveInv(ls[0]) && i < |ls|
    ensures LiveInv(ls[i])
  {
    hide LiveInv;
    if i > 0 {
      RunsKeepInv(ls, events, i - 1);
      StepKeeps(ls[i - 1], events[i - 1]);
    }
  }

  ghost function Initial(): Live {
    Live(Sys(map[], [], [], {0, 1, 2, 3, 4, 5, 6, 7, 8, 9, 10, 11, 12, 13, 14, 15}, POOL_SIZE,
             [CacheEntry(0, 0), CacheEntry(0, 0), CacheEntry(0, 0), CacheEntry(0, 0)], 0, FIRST_ID, 0, 1, []), {})
  }

  lemma InitialInv()
    ensures LiveInv(Initial()) && Initial().s.nextId == 0x6000
  {
    assert Pending(Initial()) == {};
  }

  // ----- the handler without interference

  lemma JoinRuns(a: seq<Live>, x: seq<Event>, b: seq<Live>, y: seq<Event>)
    requires IsRun(a, x) && IsRun(b, y) && a[|a| - 1] == b[0]
    ensures IsRun(a + b[1..], x + y) && (a + b[1..])[|a + b[1..]| - 1] == b[|b| - 1]
  {
    var ls, es := a + b[1..], x + y;
    forall i | 0 <= i < |es| ensures Enabled(ls[i], es[i]) && Step(ls[i], es[i]) == ls[i + 1] {
      if i >= |x| { assert Enabled(b[i - |x|], y[i - |x|]) && ls[i] == b[i - |x|] && ls[i + 1] == b[i - |x| + 1]; }
    }
  }

  lemma OneStep(l: Live, e: Event)
    requires Enabled(l, e)
    ensures IsRun([l, Step(l, e)], [e])
  {
    hide Enabled, Step;
  }

  lemma TakeOne(l: Live, n: nat)
    requires Wf(l.s) && 0 < n <= BatchSize(l.s.active, l.s.ts, l.s.now, |l.s.active|)
    ensures Enabled(l, TakeFirst) && var l1 := Step(l, TakeFirst);
      && Wf(l1.s) && l1.s == Unlink(l.s, 0) && l1.s.active == l.s.active[1..] && l1.held == l.held + {l.s.active[0].timer}
      && n - 1 <= BatchSize(l1.s.active, l1.s.ts, l1.s.now, |l1.s.active|)
  {
    hide Ptrs, ToSet, Collect;
    assert RemoveAt(l.s.active, 0) == l.s.active[1..];
  }

  lemma TakeOneHeld(l: Live, n: nat)
    requires 0 < n <= |l.s.active|
    ensures l.held + {l.s.active[0].timer} + ToSet(Ptrs(l.s.active[1..][..n - 1])) == l.held + ToSet(Ptrs(l.s.active[..n]))
  {
    PtrsCons(l.s.active, n);
    hide Ptrs, ToSet;
  }

  lemma TakeNone(l: Live)
    ensures l == Live(Collect(l.s, 0), l.held + ToSet(Ptrs(l.s.active[..0]))) && IsRun([l], [])
  {
    assert ToSet(Ptrs(l.s.active[..0])) == {};
  }

  lemma {:induction false} CollectRun(l: Live, n: nat) returns (ls: seq<Live>, es: seq<Event>)
    requires Wf(l.s) && n <= BatchSize(l.s.active, l.s.ts, l.s.now, |l.s.active|)
    ensures IsRun(ls, es) && ls != [] && ls[0] == l
    ensures ls[|ls| - 1] == Live(Collect(l.s, n), l.held + ToSet(Ptrs(l.s.active[..n])))
    decreases n
  {
    hide IsRun, BatchSize, Ptrs, ToSet, Wf, Enabled, Step;
    if n == 0 {
      TakeNone(l);
      ls, es := [l], [];
    } else {
      TakeOne(l, n);
      TakeOneHeld(l, n);
      OneStep(l, TakeFirst);
      var rest, later := CollectRun(Step(l, TakeFirst), n - 1);
      JoinRuns([l, Step(l, TakeFirst)], [TakeFirst], rest, later);
      ls, es := [l, Step(l, TakeFirst)] + rest[1..], [TakeFirst] + later;
    }
  }

  lemma {:induction false} FireRun(l: Live, ps: seq<Ptr>) returns (ls: seq<Live>, es: seq<Event>)
    requires Wf(l.s) && DistinctPtrs(ps) && l.held == ToSet(ps) && l.held <= l.s.ts.Keys
    ensures forall p :: p in ps ==> p in l.s.ts
    ensures IsRun(ls, es) && ls != [] && ls[0] == l && ls[|ls| - 1] == Live(FireAll(l.s, ps), {})
    decreases |ps|
  {
    assert forall p :: p in ps ==> p in ToSet(ps);
    if ps == [] {
      ls, es := [l], [];
    } else {
      var e := FireHeld(ps[0]);
      var l1 := Step(l, e);
      BatchTail(ps);
      var rest, later := FireRun(l1, ps[1..]);
      OneStep(l, e);
      hide IsRun;
      JoinRuns([l, l1], [e], rest, later);
      ls, es := [l, l1] + rest[1..], [e] + later;
    }
  }

  /** The batch of a handler call, as the two halves of its run need it. */
  lemma HandlerBatch(s: Sys)
    requires Inv(s, {})
    ensures Wf(s) && var n := BatchSize(s.active, s.ts, s.now, BATCH);
      var ps := Ptrs(s.active[..n]);
      && n <= BatchSize(s.active, s.ts, s.now, |s.active|) && DistinctPtrs(ps) && ToSet(ps) <= s.ts.Keys
      && Wf(Collect(s, n)) && Collect(s, n).ts == s.ts && {} + ToSet(ps) == ToSet(ps)
  {
    InvWf(s, {});
    hide Inv;
    var n := BatchSize(s.active, s.ts, s.now, BATCH);
    BatchIsMin(s.active, s.ts, s.now, BATCH);
    BatchDistinct(s, n);
    NothingMore(ToSet(Ptrs(s.active[..n])));
    hide BatchSize, Ptrs, Collect;
  }

  /** A call of the handler that nothing interrupts is a run of its steps. */
  lemma HandlerIsRun(s: Sys) returns (ls: seq<Live>, es: seq<Event>)
    requires Inv(s, {})
    ensures Wf(s) && IsRun(ls, es) && ls != [] && ls[0] == Live(s, {}) && ls[|ls| - 1] == Live(Handler(s), {})
  {
    HandlerBatch(s);
    var n := BatchSize(s.active, s.ts, s.now, BATCH);
    var ps := Ptrs(s.active[..n]);
    assert forall p :: p in ps ==> p in ToSet(ps);
    assert Handler(s) == FireAll(Collect(s, n), ps);
    hide Inv, IsRun, BatchSize, Collect, FireAll, Ptrs, ToSet, DistinctPtrs, Wf, Handler;
    var a, x := CollectRun(Live(s, {}), n);
    var b, y := FireRun(Live(Collect(s, n), ToSet(ps)), ps);
    JoinRuns(a, x, b, y);
    ls, es := a + b[1..], x + y;
  }

  // ----- callbacks on time

  /** The event is a call that names the timer. */
  predicate Names(e: Event, id: nat) {
    (e.DestroyId? || e.StartId? || e.CancelId?) && e.id == id
  }

  /** Timer `p` with identifier `id` reloads since tick `start`, when `since` callbacks had run. */
  ghost predicate Reloading(l: Live, p: Ptr, id: nat, ms: nat, start: nat, since: nat) {
    && p in l.s.ts
    && var t := l.s.ts[p]; t.id == id && t.mode == AutoReload && t.periodMs == ms && t.started == start && t.since == since
  }

  lemma LookupId(s: Sys, pending: set<Ptr>, id: nat)
    requires Core(s, pending)
    ensures Wf(s) && (Lookup(s, id) > 0 ==> Lookup(s, id) in s.ts && s.ts[Lookup(s, id)].id == id)
  {
    LookupKnown(s, id, pending);
  }

  /** A call that does not name the timer leaves it as it is. */
  lemma CallOnOther(l: Live, e: Event, p: Ptr)
    requires LiveInv(l) && Enabled(l, e) && p in l.s.ts && !Names(e, l.s.ts[p].id)
    requires e.CreateAt? || e.DestroyId? || e.StartId? || e.CancelId?
    ensures exists q: nat :: q != p && OnlyAt(l.s, Step(l, e).s, q)
  {
    LiveFacts(l);
    hide LiveInv, Core, Logs, Create, Destroy, Start, Cancel, OnlyAt, Lookup;
    var s := l.s;
    match e {
      case CreateAt(q, ms) => CreateKeeps(s, q, ms, Pending(l)); assert OnlyAt(s, Step(l, e).s, q);
      case DestroyId(k) =>
        LookupId(s, Pending(l), k);
        DestroyKeeps(s, k, Pending(l));
        assert OnlyAt(s, Step(l, e).s, Lookup(s, k));
      case StartId(k, mode) =>
        LookupId(s, Pending(l), k);
        StartKeeps(s, k, mode, Pending(l));
        assert OnlyAt(s, Step(l, e).s, Lookup(s, k));
      case CancelId(k) =>
        LookupId(s, Pending(l), k);
        if Lookup(s, k) in l.held { CancelHeld(l, k); } else { CancelKeeps(s, k, Pending(l)); }
        assert OnlyAt(s, Step(l, e).s, Lookup(s, k));
    }
  }

  /** Nothing but a call that names it changes when and how the timer was started. */
  lemma ReloadingKept(l: Live, e: Event, p: Ptr, id: nat, ms: nat, start: nat, since: nat)
    requires LiveInv(l) && Enabled(l, e) && Reloading(l, p, id, ms, start, since) && !Names(e, id)
    ensures Reloading(Step(l, e), p, id, ms, start, since)
  {
    hide LiveInv;
    match e {
      case Tick =>
      case TakeFirst =>
      case FireHeld(q) => FireOneActive(l.s, q);
      case _ =>
        hide Step, Enabled;
        CallOnOther(l, e, p);
    }
  }

  lemma StartReloading(l: Live, id: nat, p: Ptr)
    requires LiveInv(l) && Enabled(l, StartId(id, AutoReload)) && p == Lookup(l.s, id)
    ensures p in l.s.ts
    ensures Reloading(Step(l, StartId(id, AutoReload)), p, id, l.s.ts[p].periodMs, l.s.now, |l.s.log|)
  {
    LiveFacts(l);
    hide LiveInv, Core, Logs, Lookup;
    LookupId(l.s, Pending(l), id);
    StartKeeps(l.s, id, AutoReload, Pending(l));
  }

  /** Event `j` starts timer `p` as a periodic one, and no later event up to state `i` names it. */
  ghost predicate StartedAt(ls: seq<Live>, events: seq<Event>, j: nat, i: nat, id: nat, p: Ptr) {
    && j < i < |ls| == |events| + 1 && events[j] == StartId(id, AutoReload) && Wf(ls[j].s) && p == Lookup(ls[j].s, id)
    && forall m :: j < m < i ==> !Names(events[m], id)
  }

  lemma {:induction false} StaysReloading(ls: seq<Live>, events: seq<Event>, j: nat, i: nat, id: nat, p: Ptr)
    requires IsRun(ls, events) && LiveInv(ls[0]) && StartedAt(ls, events, j, i, id, p)
    ensures p in ls[j].s.ts
    ensures Reloading(ls[i], p, id, ls[j].s.ts[p].periodMs, ls[j].s.now, |ls[j].s.log|)
    decreases i
  {
    hide LiveInv, Lookup, Enabled, Step, Wf;
    RunsKeepInv(ls, events, i - 1);
    var l, e := ls[i - 1], events[i - 1];
    assert Enabled(l, e) && Step(l, e) == ls[i];
    hide IsRun;
    if i == j + 1 {
      StartReloading(ls[j], id, p);
    } else {
      StaysReloading(ls, events, j, i - 1, id, p);
      ReloadingKept(l, e, p, id, ls[j].s.ts[p].periodMs, ls[j].s.now, |ls[j].s.log|);
    }
  }

  /** The callbacks of timer `p` after the first `since` are for `start + d`, `start + 2d`, and so on, none of
      them early; the next deadline follows, and when it lies ahead none is missing. */
  ghost predicate OnTime(s: Sys, p: Ptr, start: nat, d: nat, since: nat) {
    && p in s.ts && since <= |s.log| && start <= s.now
    && var es := Of(s.log[since..], p);
      && (forall k :: 0 <= k < |es| ==> es[k].due == start + (k + 1) * d <= es[k].at)
      && s.ts[p].deadline == start + (|es| + 1) * d
      && (s.now < s.ts[p].deadline ==> d > 0 && |es| == (s.now - start) / d)
  }

  lemma OnTimeNow(s: Sys, pending: set<Ptr>, p: Ptr)
    requires Core(s, pending) && Logs(s) && p in s.ts && s.ts[p].mode != Disabled
    ensures OnTime(s, p, s.ts[p].started, s.ts[p].periodMs / 10, s.ts[p].since)
  {
    TicksExact(s.ts[p].periodMs);
    LogsOf(s, p);
    CoreTime(s, pending, p);
    hide Core, Logs, Of, Ticks;
    if s.now < s.ts[p].deadline { ElapsedPeriods(s.ts[p], s.now); }
  }

  /** A periodic timer started at tick T and not named by any later call calls back on time in every later state
      of the run. */
  lemma CallbacksOnTime(ls: seq<Live>, events: seq<Event>, j: nat, i: nat, id: nat, p: Ptr)
    requires IsRun(ls, events) && LiveInv(ls[0]) && StartedAt(ls, events, j, i, id, p)
    ensures p in ls[j].s.ts
    ensures OnTime(ls[i].s, p, ls[j].s.now, ls[j].s.ts[p].periodMs / 10, |ls[j].s.log|)
  {
    hide LiveInv, Core, Logs, OnTime;
    StaysReloading(ls, events, j, i, id, p);
    RunsKeepInv(ls, events, i);
    LiveFacts(ls[i]);
    OnTimeNow(ls[i].s, Pending(ls[i]), p);
  }

  lemma CoreTime(s: Sys, pending: set<Ptr>, p: Ptr)
    requires Core(s, pending) && p in s.ts
    ensures TimeOk(s.ts[p], s.now)
  {
  }

  lemma LogsOf(s: Sys, p: Ptr)
    requires Logs(s) && p in s.ts && s.ts[p].mode != Disabled
    ensures FiredOk(s.log, p, s.ts[p])
    ensures forall k :: 0 <= k < |Of(s.log[s.ts[p].since..], p)| ==>
      var e := Of(s.log[s.ts[p].since..], p)[k]; e.due <= e.at
  {
    var x := s.log[s.ts[p].since..];
    OfMembers(x, p);
    forall k | 0 <= k < |Of(x, p)| ensures Of(x, p)[k].due <= Of(x, p)[k].at {
      assert Of(x, p)[k] in x && Of(x, p)[k] in s.log;
    }
  }

  lemma {:induction false} OfMembers(log: seq<Fire>, p: Ptr)
    ensures forall e :: e in Of(log, p) ==> e in log
    decreases |log|
  {
    if log != [] { OfMembers(log[..|log| - 1], p); }
  }

  lemma ElapsedPeriods(t: Timer, now: nat)
    requires TimeOk(t, now) && t.mode != Disabled && now < t.deadline
    ensures var d := Ticks(t.periodMs); d > 0 && t.fired == (now - t.started) / d
  {
    var d := Ticks(t.periodMs);
    assert (t.fired + 1) * d == t.fired * d + d;
    Bits.ModUnique(now - t.started, d, t.fired, now - t.started - t.fired * d);
  }

  // ----- runs from boot

  /** A lone periodic timer that is due in `left` ticks. */
  ghost predicate DueIn(l: Live, ms: nat, left: nat) {
    && Inv(l.s, {}) && l.held == {} && l.s.ts.Keys == {7} && 7 in l.s.ts
    && var t := l.s.ts[7];
       t.id == FIRST_ID && t.mode == AutoReload && t.periodMs == ms && t.deadline == l.s.now + left
  }

  lemma CreateFirst(ms: nat) returns (l': Live)
    requires ms > 0
    ensures Enabled(Initial(), CreateAt(7, ms)) && l' == Step(Initial(), CreateAt(7, ms))
    ensures Inv(l'.s, {}) && l'.held == {} && l'.s.ts == map[7 := Fresh(FIRST_ID, ms)]
  {
    InitialInv();
    assert Pending(Initial()) == {};
    hide Core, Logs;
    CreateKeeps(Initial().s, 7, ms, {});
    l' := Step(Initial(), CreateAt(7, ms));
    hide Create;
  }

  lemma FirstStarted(s: Sys, ms: nat)
    requires Inv(s, {}) && s.ts == map[7 := Fresh(FIRST_ID, ms)]
    ensures Wf(s) && var s' := Start(s, FIRST_ID, AutoReload).0;
      && Inv(s', {}) && s'.now == s.now && s'.ts.Keys == {7} && 7 in s'.ts
      && s'.ts[7] == Armed(Fresh(FIRST_ID, ms), AutoReload, s.now, |s.log|).(stamp := s.stamp)
  {
    InvWf(s, {});
    LookupFinds(s, {}, 7);
    hide Inv, Start, Lookup, Wf;
    StartKeeps(s, FIRST_ID, AutoReload, {});
  }

  lemma StartFirst(l: Live, ms: nat) returns (l': Live)
    requires Inv(l.s, {}) && l.held == {} && l.s.ts == map[7 := Fresh(FIRST_ID, ms)]
    ensures Enabled(l, StartId(FIRST_ID, AutoReload)) && l' == Step(l, StartId(FIRST_ID, AutoReload))
    ensures DueIn(l', ms, Ticks(ms))
  {
    hide Inv, Start, Lookup, Wf;
    FirstStarted(l.s, ms);
    l' := Step(l, StartId(FIRST_ID, AutoReload));
  }

  /** Create and start from boot. */
  lemma StartedRun(ms: nat) returns (ls: seq<Live>, events: seq<Event>)
    requires ms > 0
    ensures IsRun(ls, events) && ls != [] && ls[0] == Initial() && DueIn(ls[|ls| - 1], ms, Ticks(ms))
  {
    hide Inv, LiveInv, Enabled, Step, Initial, IsRun, DueIn;
    var l1 := CreateFirst(ms);
    var l2 := StartFirst(l1, ms);
    var e, f := CreateAt(7, ms), StartId(FIRST_ID, AutoReload);
    OneStep(Initial(), e);
    OneStep(l1, f);
    JoinRuns([Initial(), l1], [e], [l1, l2], [f]);
    ls, events := [Initial(), l1] + [l1, l2][1..], [e] + [f];
  }

  /** From boot: a timer of 5 ms, created and started, is due at once and its period is less than a tick. */
  lemma NeverDrainedReachable() returns (ls: seq<Live>, events: seq<Event>)
    ensures IsRun(ls, events) && ls != [] && ls[0] == Initial()
    ensures var s := ls[|ls| - 1].s; Inv(s, {}) && Due(s, 7) && s.ts[7].periodMs < 10
  {
    hide Inv, Initial, IsRun;
    ls, events := StartedRun(5);
  }

  lemma OneTick(l: Live, ms: nat, left: nat)
    requires DueIn(l, ms, left) && left > 0
    ensures Enabled(l, Tick) && DueIn(Step(l, Tick), ms, left - 1)
  {
    InvWf(l.s, {});
    TickKeeps(l.s, {});
    hide Inv;
  }

  lemma {:induction false} WaitOut(l: Live, ms: nat, left: nat) returns (ls: seq<Live>, events: seq<Event>)
    requires DueIn(l, ms, left)
    ensures IsRun(ls, events) && ls != [] && ls[0] == l && DueIn(ls[|ls| - 1], ms, 0)
    decreases left
  {
    if left == 0 {
      ls, events := [l], [];
    } else {
      hide IsRun, DueIn, Enabled, Step;
      OneTick(l, ms, left);
      OneStep(l, Tick);
      var rest, later := WaitOut(Step(l, Tick), ms, left - 1);
      JoinRuns([l, Step(l, Tick)], [Tick], rest, later);
      ls, events := [l, Step(l, Tick)] + rest[1..], [Tick] + later;
    }
  }

  lemma FirstIsDue(l: Live, ms: nat)
    requires DueIn(l, ms, 0)
    ensures Wf(l.s) && Enabled(l, TakeFirst) && l.s.active[0].timer == 7 && LiveInv(l)
  {
    InvWf(l.s, {});
    DueIsExpired(l.s, 7);
    assert l.s.active[0] in l.s.active;
    assert Pending(l) == {};
    hide Inv;
  }

  /** The handler takes the due timer. */
  lemma TakeHeld(l: Live, ms: nat) returns (l': Live)
    requires DueIn(l, ms, 0)
    ensures Enabled(l, TakeFirst) && l' == Step(l, TakeFirst)
    ensures LiveInv(l') && Wf(l'.s) && Lookup(l'.s, FIRST_ID) in Pending(l')
  {
    FirstIsDue(l, ms);
    StepKeeps(l, TakeFirst);
    l' := Step(l, TakeFirst);
    LiveFacts(l');
    LookupFinds(l'.s, Pending(l'), 7);
    hide LiveInv, Core, Logs, Lookup;
  }

  /** From boot, for a timer of any period: created, started and, when it is due, taken by the handler, it is
      held and running; the next call may be a cancel, a start or a destroy of it. */
  lemma HeldReachable(ms: nat) returns (ls: seq<Live>, events: seq<Event>)
    requires ms > 0
    ensures IsRun(ls, events) && ls != [] && ls[0] == Initial()
    ensures var l := ls[|ls| - 1]; LiveInv(l) && Wf(l.s) && Lookup(l.s, FIRST_ID) in Pending(l)
  {
    hide LiveInv, Initial, IsRun, DueIn, Enabled, Step, Lookup, Wf;
    var a, x := StartedRun(ms);
    var b, y := WaitOut(a[|a| - 1], ms, Ticks(ms));
    var l := b[|b| - 1];
    var l' := TakeHeld(l, ms);
    OneStep(l, TakeFirst);
    JoinRuns(a, x, b, y);
    JoinRuns(a + b[1..], x + y, [l, l'], [TakeFirst]);
    ls, events := a + b[1..] + [l, l'][1..], x + y + [TakeFirst];
  }

  // ----- what a call on a held timer does

  /** A cancel that falls between taking and processing succeeds and yet the callback runs. */
  lemma CancelledStillFires(l: Live, id: nat)
    requires LiveInv(l) && Wf(l.s) && Lookup(l.s, id) in Pending(l)
    ensures Cancel(l.s, id).1 == ERR_OK
    ensures var p, l' := Lookup(l.s, id), l.(s := Cancel(l.s, id).0);
      && p in l.s.ts && Enabled(l', FireHeld(p))
      && FireOne(l'.s, p).log == l.s.log + [Fire(p, l.s.now, l.s.ts[p].deadline)]
  {
    LiveFacts(l);
    CancelHeldKeeps(l, id);
    LiveFacts(l.(s := Cancel(l.s, id).0));
    hide LiveInv, Core, Logs, FireOne;
    CancelHeld(l, id);
    CancelSucceeds(l.s, id, Pending(l));
    hide Cancel, Lookup, Wf;
    FireOneLog(Cancel(l.s, id).0, Lookup(l.s, id));
  }

  lemma CancelSucceeds(s: Sys, id: nat, pending: set<Ptr>)
    requires Core(s, pending) && Wf(s) && Lookup(s, id) in Running(s.ts)
    ensures Cancel(s, id).1 == ERR_OK
  {
    FindFastIsScan(s, pending, id);
    hide Core;
  }

  lemma FireOneLog(s: Sys, p: Ptr)
    requires Wf(s) && p in s.ts
    ensures FireOne(s, p).log == s.log + [Fire(p, s.now, s.ts[p].deadline)]
  {
  }

  /** A start that falls there links the timer although the handler is about to: whatever is still pending,
      the lists are no longer in order once it has. */
  lemma StartHeldBreaks(l: Live, id: nat, mode: Mode, pending: set<Ptr>)
    requires LiveInv(l) && Wf(l.s) && Lookup(l.s, id) in l.held && mode != Disabled
    ensures var p, s1 := Lookup(l.s, id), Start(l.s, id, mode).0;
      p in s1.ts && Wf(s1) && Start(l.s, id, mode).1 == ERR_OK && !Core(FireOne(s1, p), pending)
  {
    LiveFacts(l);
    FindFastIsScan(l.s, Pending(l), id);
    var (s0, p) := FindFast(l.s, id);
    NotListed(s0.active, p);
    assert Stop(s0, p) == s0;
    var t := Armed(s0.ts[p], mode, l.s.now, |l.s.log|);
    LinkedTwice(s0, p, t, pending);
    hide LiveInv, Core, Logs;
  }

  lemma LinkedTwice(s: Sys, p: Ptr, t: Timer, pending: set<Ptr>)
    requires Wf(s) && p in s.ts && t.mode != Disabled
    ensures var s1 := Link(s, p, t); p in s1.ts && Wf(s1) && !Core(FireOne(s1, p), pending)
  {
    var ts := s.ts[p := t.(stamp := s.stamp)];
    var c := Cell(Take(s.free, s.nextNode).0, p);
    InsertMembers(s.active, ts, ByDeadline, c);
    InsertListed(s.active, ts, ByDeadline, c);
    var s1 := Link(s, p, t);
    if t.mode == AutoReload {
      var ts2 := s1.ts[p := Reloaded(s1.ts[p]).(stamp := s1.stamp)];
      TwiceListed(s1.active, ts2, Cell(Take(s1.free, s1.nextNode).0, p));
    } else {
      assert p in Listed(FireOne(s1, p).active) && p !in Running(FireOne(s1, p).ts);
    }
  }

  lemma TwiceListed(cells: seq<Cell>, ts: Timers, c: Cell)
    requires Known(cells, ts) && c.timer in ts && c.timer in Listed(cells)
    ensures !Unique(Insert(cells, ts, ByDeadline, c))
  {
    var i := Position(cells, ts, ByDeadline, ts[c.timer].deadline);
    var j :| 0 <= j < |cells| && cells[j].timer == c.timer;
    var r := Insert(cells, ts, ByDeadline, c);
    assert r[i] == c && r[if j < i then j else j + 1] == cells[j];
  }

  /** A destroy that falls there frees a block that the handler is about to read. */
  lemma DestroyHeldBreaks(l: Live, id: nat)
    requires LiveInv(l) && Wf(l.s) && Lookup(l.s, id) in l.held
    ensures var p := Lookup(l.s, id); Destroy(l.s, id).1 == ERR_OK && p in l.held && p !in Destroy(l.s, id).0.ts
  {
  }
}
