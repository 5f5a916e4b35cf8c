/** What every dispatch keeps, fairness of round robin, exactness of delays, and the EDF choice. */
module SchedLaws {
  import opened Tasks
  import opened SchedSpec

  // ----- the circular search

  /** How many steps along the list lead from `i` to `d`, at least one. */
  function Distance(i: nat, d: nat, n: nat): (r: nat)
    requires i < n && d < n
    ensures 1 <= r <= n
  {
    if d > i then d - i else d + n - i
  }

  /** The search finds the nearest ready task. */
  lemma {:induction false} SearchFinds(tasks: seq<Task>, i: nat, steps: nat, d: nat)
    requires i < |tasks| && d < |tasks| && tasks[d].state == Ready && Distance(i, d, |tasks|) <= steps
    ensures var j := SearchReady(tasks, i, steps);
      j < |tasks| && Distance(i, j, |tasks|) <= Distance(i, d, |tasks|)
    decreases steps
  {
    var j := Next(i, |tasks|);
    if tasks[j].state != Ready {
      SearchFinds(tasks, j, steps - 1, d);
    }
  }

  lemma {:induction false} SearchNear(tasks: seq<Task>, i: nat, steps: nat)
    requires i < |tasks|
    ensures var j := SearchReady(tasks, i, steps); j < |tasks| && steps <= |tasks| ==> Distance(i, j, |tasks|) <= steps
    decreases steps
  {
    if steps > 0 { SearchNear(tasks, Next(i, |tasks|), steps - 1); }
  }

  /** `sched_select_next_task` finds a ready task if and only if one is within 500 places. */
  lemma SearchIff(tasks: seq<Task>, i: nat)
    requires i < |tasks|
    ensures SearchReady(tasks, i, Round(|tasks|)) < |tasks| <==>
      exists d :: 0 <= d < |tasks| && tasks[d].state == Ready && Distance(i, d, |tasks|) <= 500
  {
    var j := SearchReady(tasks, i, Round(|tasks|));
    if j < |tasks| {
      SearchNear(tasks, i, Round(|tasks|));
    } else if d :| 0 <= d < |tasks| && tasks[d].state == Ready && Distance(i, d, |tasks|) <= 500 {
      SearchFinds(tasks, i, Round(|tasks|), d);
    }
  }

  // ----- the invariant

  ghost predicate UniqueIds(tasks: seq<Task>) {
    forall i, j :: 0 <= i < j < |tasks| ==> tasks[i].id != tasks[j].id
  }

  /** Only a blocked task sleeps, and it wakes when its delay says. */
  ghost predicate SleepOk(t: Task, ticks: nat) {
    t.delay > 0 ==> t.state == Blocked && t.wake == ticks + t.delay
  }

  /** At most the current task is running. */
  ghost predicate OneRunning(k: Kernel) {
    forall i :: 0 <= i < |k.tasks| && k.tasks[i].state == Running ==> i == k.current
  }

  predicate Runnable(t: Task) {
    t.state == Ready || t.state == Running
  }

  /** `now` is the tick up to which delays have been counted down. */
  ghost predicate Good(k: Kernel, idle: nat, now: nat) {
    && Wf(k) && |k.tasks| <= SCHED_IMAX && UniqueIds(k.tasks) && OneRunning(k)
    && (forall i :: 0 <= i < |k.tasks| ==> SleepOk(k.tasks[i], now))
    && idle < |k.tasks| && Runnable(k.tasks[idle])
  }

  ghost predicate Inv(k: Kernel, idle: nat) {
    Good(k, idle, k.ticks) && k.lastDelayTick == k.ticks
  }

  // ----- dispatch

  lemma TickCurrentGood(k: Kernel, idle: nat, now: nat)
    requires Good(k, idle, now)
    ensures Good(TickCurrent(k), idle, now)
  {
  }

  lemma ProcessDelaysGood(k: Kernel, idle: nat)
    requires Good(k, idle, k.lastDelayTick) && k.lastDelayTick <= k.ticks <= k.lastDelayTick + 1
    ensures Good(ProcessDelays(k), idle, k.ticks)
  {
    if k.ticks != k.lastDelayTick {
      forall i | 0 <= i < |k.tasks| ensures Counted(k.tasks[i], DelayUpdate(k.tasks[i], k.ticks), k.ticks) {
        DelayUpdateOk(k.tasks[i], k.ticks);
      }
      hide DelayUpdate;
    }
  }

  ghost predicate Counted(t: Task, t': Task, now: nat) {
    t'.id == t.id && SleepOk(t', now) && (t'.state == Running <==> t.state == Running) && (Runnable(t) ==> Runnable(t'))
  }

  lemma DelayUpdateOk(t: Task, now: nat)
    requires now > 0 && SleepOk(t, now - 1)
    ensures Counted(t, DelayUpdate(t, now), now)
  {
  }

  lemma SelectGood(k: Kernel, idle: nat, now: nat)
    requires Good(k, idle, now)
    ensures Good(Select(k), idle, now)
    ensures var k' := Select(k); k'.tasks[k'.current].state == Running
  {
    var k1 := SetTask(k, k.current, Preempt(k.tasks[k.current]));
    SearchFinds(k1.tasks, k.current, |k.tasks|, idle);
  }

  lemma FindIdUnique(tasks: seq<Task>, j: nat)
    requires UniqueIds(tasks) && j < |tasks|
    ensures FindId(tasks, tasks[j].id) == j
  {
  }

  lemma ChooseGood(k: Kernel, idle: nat, now: nat, rt: int)
    requires Good(k, idle, now)
    requires rt >= 0 && FindId(k.tasks, rt) < |k.tasks| ==> Runnable(k.tasks[FindId(k.tasks, rt)])
    ensures Good(Choose(k, rt), idle, now)
    ensures var k' := Choose(k, rt); Runnable(k'.tasks[k'.current])
  {
    if rt < 0 || FindId(k.tasks, rt) == |k.tasks| { SelectGood(k, idle, now); }
  }

  // ----- earliest deadline first

  predicate RealTime(t: Task) {
    Runnable(t) && t.edf.Edf?
  }

  /** `r` is the first task in list order with the least deadline among the runnable real-time tasks
      whose deadline is below UINT32_MAX. */
  ghost predicate IsEarliest(tasks: seq<Task>, n: nat, r: nat)
    requires n <= |tasks|
  {
    && r < n && RealTime(tasks[r]) && tasks[r].edf.deadline < 0xFFFF_FFFF
    && forall j :: 0 <= j < n && RealTime(tasks[j]) ==>
         tasks[r].edf.deadline <= tasks[j].edf.deadline &&
         (j < r ==> tasks[r].edf.deadline < tasks[j].edf.deadline)
  }

  ghost predicate NoneBelowMax(tasks: seq<Task>, n: nat)
    requires n <= |tasks|
  {
    forall j :: 0 <= j < n && RealTime(tasks[j]) ==> tasks[j].edf.deadline >= 0xFFFF_FFFF
  }

  lemma {:induction false} EdfScanEarliest(tasks: seq<Task>, i: nat, best: nat, bestDeadline: nat)
    requires i <= |tasks| && best <= |tasks|
    requires if best == |tasks| then bestDeadline == UINT32_MAX && NoneBelowMax(tasks, i)
             else IsEarliest(tasks, i, best) && bestDeadline == tasks[best].edf.deadline
    ensures var r := EdfScan(tasks, i, best, bestDeadline);
      if r == |tasks| then NoneBelowMax(tasks, |tasks|) else IsEarliest(tasks, |tasks|, r)
    decreases |tasks| - i
  {
    if i < |tasks| {
      if RtRunnable(tasks[i]) && tasks[i].edf.deadline < bestDeadline {
        EdfScanEarliest(tasks, i + 1, i, tasks[i].edf.deadline);
      } else {
        EdfScanEarliest(tasks, i + 1, best, bestDeadline);
      }
    }
  }

  /** The hook returns the earliest-deadline task, and -1 exactly if there is none. */
  lemma EdfSchedEarliest(tasks: seq<Task>)
    requires UniqueIds(tasks)
    ensures EdfSched(tasks) >= -1
    ensures EdfSched(tasks) == -1 <==> NoneBelowMax(tasks, |tasks|)
    ensures EdfSched(tasks) >= 0 ==>
      FindId(tasks, EdfSched(tasks)) < |tasks| && IsEarliest(tasks, |tasks|, FindId(tasks, EdfSched(tasks)))
  {
    EdfScanEarliest(tasks, 0, |tasks|, UINT32_MAX);
    var r := EdfScan(tasks, 0, |tasks|, UINT32_MAX);
    if r < |tasks| { FindIdUnique(tasks, r); }
  }

  // ----- every dispatch

  lemma DispatchGood(k: Kernel, idle: nat, edf: bool)
    requires Good(k, idle, k.lastDelayTick) && k.lastDelayTick <= k.ticks <= k.lastDelayTick + 1
    ensures Inv(Dispatch(k, edf), idle)
    ensures var k' := Dispatch(k, edf);
      k'.ticks == k.ticks && k'.tasks[k'.current].state == Running && k'.tasks[k'.current].delay == 0
  {
    var k1 := ProcessDelays(k);
    ProcessDelaysGood(k, idle);
    var rt := if edf then EdfSched(k1.tasks) else -1;
    if edf { EdfSchedEarliest(k1.tasks); }
    ChooseGood(k1, idle, k.ticks, rt);
    ChooseRest(k1, rt);
    RunChosen(Choose(k1, rt), idle);
  }

  lemma ChooseRest(k: Kernel, rt: int)
    requires Wf(k)
    ensures Choose(k, rt).ticks == k.ticks && Choose(k, rt).lastDelayTick == k.lastDelayTick
  {
  }

  /** A runnable choice does not sleep, so the search for another one stops at once. */
  lemma RunChosen(k: Kernel, idle: nat)
    requires Good(k, idle, k.ticks) && k.lastDelayTick == k.ticks && Runnable(k.tasks[k.current])
    ensures SkipSleepers(k, ATTEMPTS) == k && k.tasks[k.current].delay == 0
    ensures Inv(SetTask(k, k.current, Run(k.tasks[k.current])), idle)
  {
  }

  /** The kernel when `dispatch` is entered. */
  ghost function Entered(k: Kernel, fromTimer: bool): Kernel
    requires Wf(k)
  {
    TickCurrent(if fromTimer then k.(ticks := k.ticks + 1) else k)
  }

  lemma EnteredGood(k: Kernel, idle: nat, fromTimer: bool)
    requires Inv(k, idle)
    ensures var k0 := Entered(k, fromTimer);
      && Good(k0, idle, k0.lastDelayTick) && k0.lastDelayTick == k.ticks
      && k0.ticks == k.ticks + if fromTimer then 1 else 0
  {
    TickCurrentGood(if fromTimer then k.(ticks := k.ticks + 1) else k, idle, k.ticks);
  }

  /** Every dispatch, from the timer or from an ecall, with or without the EDF hook, keeps the
      invariant and leaves exactly the current task running, awake. */
  lemma DispatcherKeeps(k: Kernel, idle: nat, fromTimer: bool, edf: bool)
    requires Inv(k, idle) && Wf(k)
    ensures var k' := Dispatcher(k, fromTimer, edf);
      && Inv(k', idle) && k'.ticks == k.ticks + (if fromTimer then 1 else 0)
      && k'.tasks[k'.current].state == Running && k'.tasks[k'.current].delay == 0
  {
    hide Inv, Good, Dispatch, TickCurrent;
    EnteredGood(k, idle, fromTimer);
    DispatchGood(Entered(k, fromTimer), idle, edf);
  }

  /** The tasks the hook sees: delays of the tick already counted down. */
  ghost function Released(k: Kernel, fromTimer: bool): Kernel
    requires Wf(k)
  {
    ProcessDelays(Entered(k, fromTimer))
  }

  lemma DispatchRuns(k: Kernel, idle: nat, edf: bool)
    requires Good(k, idle, k.lastDelayTick) && k.lastDelayTick <= k.ticks <= k.lastDelayTick + 1
    ensures var k1 := ProcessDelays(k);
      Dispatch(k, edf).current == Choose(k1, if edf then EdfSched(k1.tasks) else -1).current
    ensures UniqueIds(ProcessDelays(k).tasks)
  {
    var k1 := ProcessDelays(k);
    ProcessDelaysGood(k, idle);
    var rt := if edf then EdfSched(k1.tasks) else -1;
    if edf { EdfSchedEarliest(k1.tasks); }
    ChooseGood(k1, idle, k.ticks, rt);
    ChooseRest(k1, rt);
    RunChosen(Choose(k1, rt), idle);
  }

  /** With the EDF hook the task that runs is the earliest-deadline one; round robin chooses exactly
      when there is none. */
  lemma EdfDispatch(k: Kernel, idle: nat, fromTimer: bool)
    requires Inv(k, idle) && Wf(k)
    ensures var tasks := Released(k, fromTimer).tasks; var c := Dispatcher(k, fromTimer, true).current;
      if NoneBelowMax(tasks, |tasks|) then c == Select(Released(k, fromTimer)).current
      else c < |tasks| && IsEarliest(tasks, |tasks|, c)
  {
    hide Inv, Good, Dispatch, TickCurrent, ProcessDelays, Select, EdfSched;
    EnteredGood(k, idle, fromTimer);
    DispatchRuns(Entered(k, fromTimer), idle, true);
    EdfSchedEarliest(Released(k, fromTimer).tasks);
  }

  /** A task that is runnable once chosen was so before. */
  lemma ChosenWasRunnable(k: Kernel, rt: int)
    requires Wf(k) && (rt >= 0 && FindId(k.tasks, rt) < |k.tasks| ==> Runnable(k.tasks[FindId(k.tasks, rt)]))
    requires Runnable(Choose(k, rt).tasks[Choose(k, rt).current])
    ensures Runnable(k.tasks[Choose(k, rt).current])
  {
  }

  /** Without the idle task the promise can fail.  A dispatch, with or without the hook, switches to a task
      that was runnable if and only if there is one; otherwise it marks a blocked or suspended task as
      running. */
  lemma RunsRunnableIff(k: Kernel, edf: bool)
    requires Wf(k) && |k.tasks| <= SCHED_IMAX && UniqueIds(k.tasks) && OneRunning(k)
    requires k.lastDelayTick <= k.ticks <= k.lastDelayTick + 1
    requires forall i :: 0 <= i < |k.tasks| ==> SleepOk(k.tasks[i], k.lastDelayTick)
    ensures var tasks, k' := ProcessDelays(k).tasks, Dispatch(k, edf);
      && k'.current < |tasks| == |k'.tasks| && k'.tasks[k'.current].state == Running
      && (Runnable(tasks[k'.current]) <==> exists i :: 0 <= i < |tasks| && Runnable(tasks[i]))
  {
    var k1 := ProcessDelays(k);
    if i :| 0 <= i < |k1.tasks| && Runnable(k1.tasks[i]) {
      CountedGood(k, i);
      hide Good, Select, EdfSched, ProcessDelays;
      GoodIds(k1, i, k.ticks);
      var rt := if edf then EdfSched(k1.tasks) else -1;
      if edf { EdfSchedEarliest(k1.tasks); }
      ChooseGood(k1, i, k.ticks, rt);
      ChooseRest(k1, rt);
      ChosenWasRunnable(k1, rt);
      RunChosen(Choose(k1, rt), i);
    }
  }

  lemma GoodIds(k: Kernel, idle: nat, now: nat)
    requires Good(k, idle, now)
    ensures Wf(k) && UniqueIds(k.tasks) && OneRunning(k) && |k.tasks| <= SCHED_IMAX
  {
  }

  lemma CountedGood(k: Kernel, i: nat)
    requires Wf(k) && |k.tasks| <= SCHED_IMAX && UniqueIds(k.tasks) && OneRunning(k)
    requires k.lastDelayTick <= k.ticks <= k.lastDelayTick + 1
    requires forall j :: 0 <= j < |k.tasks| ==> SleepOk(k.tasks[j], k.lastDelayTick)
    requires i < |k.tasks| && Runnable(ProcessDelays(k).tasks[i])
    ensures Good(ProcessDelays(k), i, k.ticks)
  {
    if k.ticks != k.lastDelayTick {
      forall j | 0 <= j < |k.tasks| ensures Counted(k.tasks[j], DelayUpdate(k.tasks[j], k.ticks), k.ticks) {
        DelayUpdateOk(k.tasks[j], k.ticks);
      }
      hide DelayUpdate;
    }
  }

  // ----- delays

  /** Choosing and running a task leaves blocked tasks alone and keeps runnable ones runnable. */
  ghost predicate Kept(t: Task, t': Task) {
    && t'.delay == t.delay && t'.wake == t.wake
    && (t.state == Blocked ==> t'.state == Blocked) && (Runnable(t) ==> Runnable(t'))
  }

  lemma ChooseKept(k: Kernel, rt: int, i: nat)
    requires Wf(k) && i < |k.tasks|
    requires rt >= 0 && FindId(k.tasks, rt) < |k.tasks| ==> Runnable(k.tasks[FindId(k.tasks, rt)])
    ensures Kept(k.tasks[i], Choose(k, rt).tasks[i])
  {
  }

  lemma DispatchKept(k: Kernel, idle: nat, edf: bool, i: nat)
    requires Good(k, idle, k.lastDelayTick) && k.lastDelayTick <= k.ticks <= k.lastDelayTick + 1 && i < |k.tasks|
    ensures |Dispatch(k, edf).tasks| == |k.tasks|
    ensures Kept(ProcessDelays(k).tasks[i], Dispatch(k, edf).tasks[i])
  {
    var k1 := ProcessDelays(k);
    ProcessDelaysGood(k, idle);
    var rt := if edf then EdfSched(k1.tasks) else -1;
    if edf { EdfSchedEarliest(k1.tasks); }
    ChooseGood(k1, idle, k.ticks, rt);
    ChooseKept(k1, rt, i);
    ChooseRest(k1, rt);
    RunChosen(Choose(k1, rt), idle);
  }

  /** A sleeping task after a dispatch: an ecall leaves it asleep with the same delay; a tick takes
      one off the delay and wakes the task exactly when that was the last one. */
  ghost predicate Napped(t: Task, t': Task, tick: bool) {
    if tick && t.delay == 1 then t'.delay == 0 && Runnable(t')
    else t'.state == Blocked && t'.wake == t.wake && t'.delay == t.delay - if tick then 1 else 0
  }

  lemma ReleasedNaps(k: Kernel, idle: nat, fromTimer: bool, i: nat)
    requires Inv(k, idle) && Wf(k) && i < |k.tasks| && k.tasks[i].delay > 0
    ensures |Released(k, fromTimer).tasks| == |k.tasks|
    ensures Napped(k.tasks[i], Released(k, fromTimer).tasks[i], fromTimer)
  {
    var k0 := Entered(k, fromTimer);
    assert k0.tasks[i].state == Blocked && k0.tasks[i].delay == k.tasks[i].delay;
  }

  lemma DispatcherNaps(k: Kernel, idle: nat, fromTimer: bool, edf: bool, i: nat)
    requires Inv(k, idle) && Wf(k) && i < |k.tasks| && k.tasks[i].delay > 0
    ensures |Dispatcher(k, fromTimer, edf).tasks| == |k.tasks|
    ensures Napped(k.tasks[i], Dispatcher(k, fromTimer, edf).tasks[i], fromTimer)
  {
    hide Inv, Good, Dispatch, TickCurrent, ProcessDelays;
    EnteredGood(k, idle, fromTimer);
    ReleasedNaps(k, idle, fromTimer, i);
    EnteredSize(k, fromTimer);
    DispatchKept(Entered(k, fromTimer), idle, edf, i);
  }

  lemma EnteredSize(k: Kernel, fromTimer: bool)
    requires Wf(k)
    ensures |Entered(k, fromTimer).tasks| == |k.tasks|
  {
  }

  // ----- what a dispatch does to each task

  /** All but the state and the time slice. */
  ghost predicate Same(t: Task, t': Task) {
    t'.id == t.id && t'.level == t.level && t'.edf == t.edf && t'.delay == t.delay && t'.wake == t.wake
  }

  lemma EnteredTask(k: Kernel, fromTimer: bool, i: nat)
    requires Wf(k) && i < |k.tasks|
    ensures var t, t' := k.tasks[i], Entered(k, fromTimer).tasks[i];
      && Same(t, t') && t'.state == (if i == k.current && t.slice <= 1 && t.state == Running then Ready else t.state)
      && t'.slice == if i == k.current && t.slice > 0 then t.slice - 1 else t.slice
  {
  }

  /** The delay of the task ends with this tick. */
  predicate Expires(t: Task, tick: bool) {
    tick && t.state == Blocked && t.delay == 1
  }

  /** A real-time task starts its next job when it wakes: its deadline is one period from then. */
  function NextJob(e: Edf, now: nat): Edf {
    if e.Edf? then Edf(e.period, now + e.period) else NoEdf
  }

  lemma CountedTask(k: Kernel, i: nat)
    requires i < |k.tasks|
    ensures var t, t', tick := k.tasks[i], ProcessDelays(k).tasks[i], k.ticks != k.lastDelayTick;
      && t'.id == t.id && t'.level == t.level && t'.wake == t.wake
      && t'.edf == (if Expires(t, tick) then NextJob(t.edf, k.ticks) else t.edf)
      && t'.delay == (if tick && t.state == Blocked && t.delay > 0 then t.delay - 1 else t.delay)
      && t'.state == (if Expires(t, tick) then Ready else t.state)
      && t'.slice == (if Expires(t, tick) then Timeslice(t.level) else t.slice)
  {
  }

  lemma ChooseTask(k: Kernel, rt: int, i: nat)
    requires Wf(k) && OneRunning(k) && i < |k.tasks|
    ensures var k' := Choose(k, rt);
      && Same(k.tasks[i], k'.tasks[i])
      && (i != k'.current ==> k'.tasks[i].slice == k.tasks[i].slice)
      && (i != k'.current ==> k'.tasks[i].state == if k.tasks[i].state == Running then Ready else k.tasks[i].state)
  {
  }

  /** A task after a dispatch; `ran` says whether it was the current one, `picked` whether it is now. */
  ghost predicate Dispatched(t: Task, t': Task, tick: bool, ran: bool, picked: bool, now: nat) {
    && t'.id == t.id && t'.level == t.level && t'.wake == t.wake
    && t'.edf == (if Expires(t, tick) then NextJob(t.edf, now) else t.edf)
    && t'.delay == (if tick && t.state == Blocked && t.delay > 0 then t.delay - 1 else t.delay)
    && t'.state == (if picked then Running else if Expires(t, tick) || t.state == Running then Ready else t.state)
    && t'.slice == (if picked || Expires(t, tick) then Timeslice(t.level) else if ran && t.slice > 0 then t.slice - 1 else t.slice)
  }

  lemma DispatchTask(k: Kernel, idle: nat, edf: bool, i: nat)
    requires Good(k, idle, k.lastDelayTick) && k.lastDelayTick <= k.ticks <= k.lastDelayTick + 1 && i < |k.tasks|
    ensures var k' := Dispatch(k, edf);
      |k'.tasks| == |k.tasks| && Dispatched(k.tasks[i], k'.tasks[i], k.ticks != k.lastDelayTick, false, i == k'.current, k.ticks)
  {
    DispatchGood(k, idle, edf);
    DispatchRuns(k, idle, edf);
    var k1 := ProcessDelays(k);
    ProcessDelaysGood(k, idle);
    CountedTask(k, i);
    var rt := if edf then EdfSched(k1.tasks) else -1;
    if edf { EdfSchedEarliest(k1.tasks); }
    ChooseGood(k1, idle, k.ticks, rt);
    ChooseRest(k1, rt);
    RunChosen(Choose(k1, rt), idle);
    ChooseTask(k1, rt, i);
    hide Choose, ProcessDelays, Good, EdfSched;
  }

  /** Every dispatch: the picked task runs, a task whose delay ends becomes ready and, if it is a real-time
      one, gets its next deadline; the task that ran has used up one unit of its time slice and becomes
      ready; of any other task nothing changes but its delay. */
  lemma DispatcherTask(k: Kernel, idle: nat, fromTimer: bool, edf: bool, i: nat)
    requires Inv(k, idle) && Wf(k) && i < |k.tasks|
    ensures var k' := Dispatcher(k, fromTimer, edf);
      |k'.tasks| == |k.tasks| && Dispatched(k.tasks[i], k'.tasks[i], fromTimer, i == k.current, i == k'.current, k'.ticks)
  {
    EnteredGood(k, idle, fromTimer);
    EnteredSize(k, fromTimer);
    EnteredTask(k, fromTimer, i);
    DispatcherKeeps(k, idle, fromTimer, edf);
    hide Inv, Good, Dispatch, TickCurrent;
    DispatchTask(Entered(k, fromTimer), idle, edf, i);
  }

  /** The slice of each of the eight levels, the last for any level beyond. */
  lemma Timeslices(level: nat)
    ensures Timeslice(level) == [1, 2, 3, 4, 5, 7, 10, 15][if level < 8 then level else 7]
  {
  }

  // ----- when no task is runnable

  /** The task `d` places on along the ring. */
  function Ahead(i: nat, d: nat, n: nat): (j: nat)
    requires i < n
    ensures j < n && (i + d < n ==> j == i + d)
    decreases d
  {
    if d == 0 then i else Ahead(Next(i, n), d - 1, n)
  }

  /** The retry stops at the first task without a delay, or after `attempts` places. */
  ghost predicate SkipsTo(tasks: seq<Task>, i: nat, attempts: nat, d: nat)
    requires i < |tasks|
  {
    && d <= attempts && (d < attempts ==> tasks[Ahead(i, d, |tasks|)].delay == 0)
    && forall e :: 0 <= e < d ==> tasks[Ahead(i, e, |tasks|)].delay > 0
  }

  lemma {:induction false} SkipMeans(k: Kernel, attempts: nat) returns (d: nat)
    requires Wf(k)
    ensures SkipsTo(k.tasks, k.current, attempts, d)
    ensures SkipSleepers(k, attempts).current == Ahead(k.current, d, |k.tasks|)
    decreases attempts
  {
    if attempts == 0 || k.tasks[k.current].delay == 0 {
      d := 0;
    } else {
      var j := Next(k.current, |k.tasks|);
      var d' := SkipMeans(k.(current := j), attempts - 1);
      d := d' + 1;
      forall e | 0 <= e < d ensures k.tasks[Ahead(k.current, e, |k.tasks|)].delay > 0 {
        if e > 0 { assert k.tasks[Ahead(j, e - 1, |k.tasks|)].delay > 0; }
      }
    }
  }

  lemma {:induction false} NoneReady(tasks: seq<Task>, i: nat, steps: nat)
    requires i < |tasks| && forall j :: 0 <= j < |tasks| ==> tasks[j].state != Ready
    ensures SearchReady(tasks, i, steps) == |tasks|
    decreases steps
  {
    if steps > 0 { NoneReady(tasks, Next(i, |tasks|), steps - 1); }
  }

  /** Without a runnable task, selection takes the first task of the list and changes none. */
  lemma SelectPlaceholder(k: Kernel)
    requires Wf(k) && forall i :: 0 <= i < |k.tasks| ==> !Runnable(k.tasks[i])
    ensures Select(k) == k.(current := 0)
  {
    assert k.tasks[k.current := k.tasks[k.current]] == k.tasks;
    NoneReady(k.tasks, k.current, Round(|k.tasks|));
  }

  /** A dispatch without a runnable task marks as running the first task of the list, or, as long as it finds
      a delay, one up to ten places on; with or without the hook. */
  lemma PlaceholderRuns(k: Kernel, edf: bool) returns (d: nat)
    requires Wf(k) && UniqueIds(ProcessDelays(k).tasks)
    requires forall i :: 0 <= i < |k.tasks| ==> !Runnable(ProcessDelays(k).tasks[i])
    ensures SkipsTo(ProcessDelays(k).tasks, 0, 10, d)
    ensures Dispatch(k, edf).current == Ahead(0, d, |k.tasks|)
  {
    var k1 := ProcessDelays(k);
    SelectPlaceholder(k1);
    if edf { EdfSchedEarliest(k1.tasks); }
    hide ProcessDelays, Select, EdfSched, SkipsTo;
    assert Choose(k1, if edf then EdfSched(k1.tasks) else -1) == k1.(current := 0);
    d := SkipMeans(k1.(current := 0), ATTEMPTS);
  }

  // ----- whole runs

  datatype Event = Interrupt(edf: bool) | Ecall(edf: bool) | SleepFor(d: nat) | BlockSelf | Wake(i: nat)

  /** The idle task never blocks; only tasks blocked without a delay are woken by others. */
  ghost predicate Enabled(k: Kernel, idle: nat, e: Event) {
    Wf(k) && match e
      case Interrupt(_) => true
      case Ecall(_) => true
      case SleepFor(d) => k.current != idle && k.tasks[k.current].state == Running
      case BlockSelf => k.current != idle && k.tasks[k.current].state == Running
      case Wake(i) => i < |k.tasks| && k.tasks[i].state == Blocked && k.tasks[i].delay == 0
  }

  ghost function Step(k: Kernel, e: Event): Kernel
    requires exists idle :: Enabled(k, idle, e)
  {
    match e
    case Interrupt(edf) => Dispatcher(k, true, edf)
    case Ecall(edf) => Dispatcher(k, false, edf)
    case SleepFor(d) => Sleep(k, d)
    case BlockSelf => SetTask(k, k.current, k.tasks[k.current].(state := Blocked))
    case Wake(i) => SetTask(k, i, k.tasks[i].(state := Ready))
  }

  lemma StepKeeps(k: Kernel, idle: nat, e: Event)
    requires Inv(k, idle) && Enabled(k, idle, e)
    ensures Inv(Step(k, e), idle)
  {
    match e {
      case Interrupt(edf) => DispatcherKeeps(k, idle, true, edf);
      case Ecall(edf) => DispatcherKeeps(k, idle, false, edf);
      case SleepFor(d) =>
      case BlockSelf =>
      case Wake(i) =>
    }
  }

  ghost predicate IsRun(ks: seq<Kernel>, events: seq<Event>, idle: nat) {
    && |ks| == |events| + 1
    && forall i :: 0 <= i < |events| ==> Enabled(ks[i], idle, events[i]) && Step(ks[i], events[i]) == ks[i + 1]
  }

  /** In every state of every run a task with a delay is blocked and at most the current task is
      running. */
  lemma {:induction false} RunsKeepInv(ks: seq<Kernel>, events: seq<Event>, idle: nat, i: nat)
    requires IsRun(ks, events, idle) && Inv(ks[0], idle) && i < |ks|
    ensures Inv(ks[i], idle)
  {
    hide Inv;
    if i > 0 {
      RunsKeepInv(ks, events, idle, i - 1);
      StepKeeps(ks[i - 1], idle, events[i - 1]);
    }
  }

  /** A sleeping task after some event: still blocked before its wake-up tick, runnable at it. */
  ghost predicate OnTime(t: Task, t': Task, ticks: nat) {
    if ticks < t.wake then t'.delay == t.wake - ticks && t'.state == Blocked && t'.wake == t.wake
    else ticks == t.wake && t'.delay == 0 && Runnable(t')
  }

  lemma SleeperStep(k: Kernel, idle: nat, e: Event, i: nat)
    requires Inv(k, idle) && Enabled(k, idle, e) && i < |k.tasks| && k.tasks[i].delay > 0
    ensures |Step(k, e).tasks| == |k.tasks| && k.ticks <= Step(k, e).ticks
    ensures OnTime(k.tasks[i], Step(k, e).tasks[i], Step(k, e).ticks)
  {
    match e {
      case Interrupt(edf) =>
        DispatcherKeeps(k, idle, true, edf);
        DispatcherNaps(k, idle, true, edf, i);
      case Ecall(edf) =>
        DispatcherKeeps(k, idle, false, edf);
        DispatcherNaps(k, idle, false, edf, i);
      case SleepFor(d) =>
      case BlockSelf =>
      case Wake(j) =>
    }
  }

  /** A task that sleeps until tick `wake` is blocked in every later state of the run whose tick is
      below `wake`, whatever dispatches happen in between. */
  lemma {:induction false} NeverWokenEarly(ks: seq<Kernel>, events: seq<Event>, idle: nat, i: nat, j: nat)
    requires IsRun(ks, events, idle) && Inv(ks[0], idle) && i < |ks[0].tasks| && ks[0].tasks[i].delay > 0
    requires j < |ks| && ks[j].ticks < ks[0].tasks[i].wake
    ensures i < |ks[j].tasks| && ks[j].tasks[i].state == Blocked && ks[j].tasks[i].wake == ks[0].tasks[i].wake
    ensures ks[j].tasks[i].delay == ks[0].tasks[i].wake - ks[j].ticks
  {
    hide Inv, Step;
    if j == 0 {
      AsleepNow(ks[0], idle, i);
    } else {
      RunsKeepInv(ks, events, idle, j - 1);
      TicksGrow(ks, events, idle, j - 1);
      NeverWokenEarly(ks, events, idle, i, j - 1);
      SleeperStep(ks[j - 1], idle, events[j - 1], i);
    }
  }

  lemma AsleepNow(k: Kernel, idle: nat, i: nat)
    requires Inv(k, idle) && i < |k.tasks| && k.tasks[i].delay > 0
    ensures k.tasks[i].state == Blocked && k.tasks[i].wake == k.ticks + k.tasks[i].delay
  {
  }

  lemma TicksGrow(ks: seq<Kernel>, events: seq<Event>, idle: nat, j: nat)
    requires IsRun(ks, events, idle) && j + 1 < |ks| && Inv(ks[j], idle)
    ensures ks[j].ticks <= ks[j + 1].ticks
  {
    match events[j] {
      case Interrupt(edf) => DispatcherKeeps(ks[j], idle, true, edf);
      case Ecall(edf) => DispatcherKeeps(ks[j], idle, false, edf);
      case SleepFor(d) =>
      case BlockSelf =>
      case Wake(_) =>
    }
  }

  /** A task that calls `mo_task_delay(d)` at tick T is runnable right after the dispatch that
      reaches tick T + d, and was blocked in every state before. */
  lemma WokenExactly(ks: seq<Kernel>, events: seq<Event>, idle: nat, i: nat, j: nat)
    requires IsRun(ks, events, idle) && Inv(ks[0], idle) && i < |ks[0].tasks| && ks[0].tasks[i].delay > 0
    requires 0 < j < |ks| && ks[j - 1].ticks < ks[0].tasks[i].wake <= ks[j].ticks
    ensures ks[j].ticks == ks[0].tasks[i].wake && i < |ks[j].tasks|
    ensures ks[j].tasks[i].delay == 0 && Runnable(ks[j].tasks[i])
  {
    hide Inv, Step;
    NeverWokenEarly(ks, events, idle, i, j - 1);
    RunsKeepInv(ks, events, idle, j - 1);
    SleeperStep(ks[j - 1], idle, events[j - 1], i);
  }

  /** Every event leaves the real-time record of every task as it was, except that a task whose delay ends
      gets a deadline one period from then. */
  lemma StepDeadlines(k: Kernel, idle: nat, e: Event, i: nat)
    requires Inv(k, idle) && Enabled(k, idle, e) && i < |k.tasks|
    ensures |Step(k, e).tasks| == |k.tasks|
    ensures Step(k, e).tasks[i].edf == if Expires(k.tasks[i], e.Interrupt?) then NextJob(k.tasks[i].edf, Step(k, e).ticks) else k.tasks[i].edf
  {
    hide Inv;
    match e {
      case Interrupt(edf) => DispatcherTask(k, idle, true, edf, i);
      case Ecall(edf) => DispatcherTask(k, idle, false, edf, i);
      case SleepFor(d) =>
      case BlockSelf =>
      case Wake(j) =>
    }
  }

  lemma {:induction false} DeadlineWhileAsleep(ks: seq<Kernel>, events: seq<Event>, idle: nat, i: nat, j: nat)
    requires IsRun(ks, events, idle) && Inv(ks[0], idle) && i < |ks[0].tasks| && ks[0].tasks[i].delay > 0
    requires j < |ks| && ks[j].ticks < ks[0].tasks[i].wake
    ensures i < |ks[j].tasks| && ks[j].tasks[i].edf == ks[0].tasks[i].edf
  {
    hide Inv, Step;
    if j > 0 {
      RunsKeepInv(ks, events, idle, j - 1);
      TicksGrow(ks, events, idle, j - 1);
      DeadlineWhileAsleep(ks, events, idle, i, j - 1);
      NeverWokenEarly(ks, events, idle, i, j - 1);
      NeverWokenEarly(ks, events, idle, i, j);
      StepDeadlines(ks[j - 1], idle, events[j - 1], i);
      TicksByInterrupt(ks[j - 1], idle, events[j - 1]);
    }
  }

  /** A real-time task that sleeps until tick `wake` has, in the state in which it wakes, the deadline one
      period after that tick. */
  lemma DeadlineOnWaking(ks: seq<Kernel>, events: seq<Event>, idle: nat, i: nat, j: nat)
    requires IsRun(ks, events, idle) && Inv(ks[0], idle) && i < |ks[0].tasks| && ks[0].tasks[i].delay > 0
    requires 0 < j < |ks| && ks[j - 1].ticks < ks[0].tasks[i].wake <= ks[j].ticks && ks[0].tasks[i].edf.Edf?
    ensures i < |ks[j].tasks| && var p := ks[0].tasks[i].edf.period; ks[j].tasks[i].edf == Edf(p, ks[j].ticks + p)
  {
    hide Inv, Step;
    WokenExactly(ks, events, idle, i, j);
    NeverWokenEarly(ks, events, idle, i, j - 1);
    DeadlineWhileAsleep(ks, events, idle, i, j - 1);
    RunsKeepInv(ks, events, idle, j - 1);
    TicksByInterrupt(ks[j - 1], idle, events[j - 1]);
    StepDeadlines(ks[j - 1], idle, events[j - 1], i);
  }

  /** Only the timer interrupt advances the tick, by one. */
  lemma TicksByInterrupt(k: Kernel, idle: nat, e: Event)
    requires Inv(k, idle) && Enabled(k, idle, e)
    ensures Step(k, e).ticks == k.ticks + if e.Interrupt? then 1 else 0
  {
    match e {
      case Interrupt(edf) => DispatcherKeeps(k, idle, true, edf);
      case Ecall(edf) => DispatcherKeeps(k, idle, false, edf);
      case SleepFor(d) =>
      case BlockSelf =>
      case Wake(_) =>
    }
  }

  /** The state right after `mo_task_delay(d)`: the wake-up tick is the current one plus `d`. */
  lemma SleepSetsWake(k: Kernel, idle: nat, d: nat)
    requires Inv(k, idle) && Enabled(k, idle, SleepFor(d))
    ensures var k' := Sleep(k, d);
      && Inv(k', idle) && |k'.tasks| == |k.tasks| && k' == k.(tasks := k'.tasks)
      && (forall i :: 0 <= i < |k.tasks| && i != k.current ==> k'.tasks[i] == k.tasks[i])
      && (d == 0 ==> k' == k)
      && (d > 0 ==> var t := k'.tasks[k.current]; t.state == Blocked && t.delay == d && t.wake == k.ticks + d)
  {
    StepKeeps(k, idle, SleepFor(d));
  }

  // ----- fairness

  /** A selection picks a runnable task or moves nearer to it. */
  lemma SelectApproaches(k: Kernel, d: nat)
    requires Wf(k) && d < |k.tasks| <= SCHED_IMAX && OneRunning(k) && Runnable(k.tasks[d])
    ensures var k' := Select(k);
      k'.current == d || Distance(k'.current, d, |k.tasks|) < Distance(k.current, d, |k.tasks|)
  {
    var k1 := SetTask(k, k.current, Preempt(k.tasks[k.current]));
    SearchFinds(k1.tasks, k.current, |k.tasks|, d);
  }

  /** So does every dispatch without the hook. */
  lemma DispatchApproaches(k: Kernel, idle: nat, fromTimer: bool, d: nat)
    requires Inv(k, idle) && Wf(k) && d < |k.tasks| && Runnable(k.tasks[d])
    ensures var k' := Dispatcher(k, fromTimer, false);
      && |k'.tasks| == |k.tasks|
      && (k'.current == d || Distance(k'.current, d, |k.tasks|) < Distance(k.current, d, |k.tasks|))
  {
    hide Inv, Good, Dispatch, TickCurrent, Select, Choose, ProcessDelays, Distance, OneRunning;
    var k0 := Entered(k, fromTimer);
    EnteredSize(k, fromTimer);
    EnteredGood(k, idle, fromTimer);
    EnteredRunnable(k, fromTimer, d);
    DispatchRuns(k0, idle, false);
    DispatchKept(k0, idle, false, d);
    ReleasedOk(k0, idle, d);
    NoHook(ProcessDelays(k0));
    SelectApproaches(ProcessDelays(k0), d);
  }

  lemma NoHook(k: Kernel)
    requires Wf(k)
    ensures Choose(k, -1) == Select(k)
  {
  }

  lemma EnteredRunnable(k: Kernel, fromTimer: bool, d: nat)
    requires Wf(k) && d < |k.tasks| && Runnable(k.tasks[d])
    ensures var k0 := Entered(k, fromTimer); k0.current == k.current && d < |k0.tasks| && Runnable(k0.tasks[d])
  {
  }

  lemma ReleasedOk(k: Kernel, idle: nat, d: nat)
    requires Good(k, idle, k.lastDelayTick) && k.lastDelayTick <= k.ticks <= k.lastDelayTick + 1
    requires d < |k.tasks| && Runnable(k.tasks[d])
    ensures var k1 := ProcessDelays(k);
      Wf(k1) && d < |k1.tasks| <= SCHED_IMAX && OneRunning(k1) && Runnable(k1.tasks[d]) && k1.current == k.current
  {
    ProcessDelaysGood(k, idle);
  }

  predicate IsDispatch(e: Event) {
    e.Interrupt? || e.Ecall?
  }

  /** How many dispatches the events contain. */
  function Dispatches(events: seq<Event>): nat {
    if events == [] then 0
    else Dispatches(events[..|events| - 1]) + if IsDispatch(events[|events| - 1]) then 1 else 0
  }

  /** A run of dispatches without the hook, mixed with whatever other tasks do, in which `d` stays runnable. */
  ghost predicate StaysRunnable(ks: seq<Kernel>, events: seq<Event>, idle: nat, d: nat) {
    && IsRun(ks, events, idle) && Inv(ks[0], idle)
    && (forall i :: 0 <= i < |ks| ==> d < |ks[i].tasks| == |ks[0].tasks| && Wf(ks[i]) && Runnable(ks[i].tasks[d]))
    && forall i :: 0 <= i < |events| && IsDispatch(events[i]) ==> !events[i].edf
  }

  /** While no dispatch has picked `d`, each has moved one step nearer at least. */
  lemma {:induction false} StillAhead(ks: seq<Kernel>, events: seq<Event>, idle: nat, d: nat, i: nat)
    requires StaysRunnable(ks, events, idle, d) && i < |ks|
    requires forall j :: 0 <= j < i && IsDispatch(events[j]) ==> ks[j + 1].current != d
    ensures Distance(ks[i].current, d, |ks[0].tasks|) + Dispatches(events[..i]) <= |ks[0].tasks|
    decreases i
  {
    if i > 0 {
      StillAhead(ks, events, idle, d, i - 1);
      RunsKeepInv(ks, events, idle, i - 1);
      var k, e := ks[i - 1], events[i - 1];
      assert Enabled(k, idle, e) && Step(k, e) == ks[i];
      assert events[..i][..i - 1] == events[..i - 1] && events[..i][i - 1] == e;
      hide Inv, Dispatcher, Distance;
      if IsDispatch(e) { DispatchApproaches(k, idle, e.Interrupt?, d); }
    }
  }

  /** Round robin is fair: among n tasks, one that stays runnable is picked by one of any n dispatches. */
  lemma ReadyTaskRuns(ks: seq<Kernel>, events: seq<Event>, idle: nat, d: nat)
    requires StaysRunnable(ks, events, idle, d) && Dispatches(events) >= |ks[0].tasks|
    ensures exists j :: 0 <= j < |events| && IsDispatch(events[j]) && ks[j + 1].current == d
  {
    hide Inv, Step;
    assert events[..|events|] == events;
    if forall j :: 0 <= j < |events| && IsDispatch(events[j]) ==> ks[j + 1].current != d {
      StillAhead(ks, events, idle, d, |events|);
    }
  }

  // ----- the start, and a system without an idle task

  /** At boot all tasks are ready. */
  lemma StartInv(tasks: seq<Task>, idle: nat)
    requires idle < |tasks| <= SCHED_IMAX && UniqueIds(tasks)
    requires forall i :: 0 <= i < |tasks| ==> tasks[i].state == Ready && tasks[i].delay == 0
    ensures Inv(Kernel(tasks, 0, 0, 0), idle)
  {
  }

  /** A lone task that goes to sleep is dispatched again at once, its delay still running. */
  lemma LoneSleeperResumed(t: Task, d: nat) returns (ks: seq<Kernel>, events: seq<Event>)
    requires t.state == Running && t.delay == 0 && d > 0
    ensures IsRun(ks, events, 1) && ks[0] == Kernel([t], 0, 0, 0)
    ensures var k := ks[|ks| - 1]; Wf(k) && k.tasks[k.current].state == Running && k.tasks[k.current].delay == d && k.ticks == 0
  {
    var k0 := Kernel([t], 0, 0, 0);
    var k1 := Sleep(k0, d);
    var k2 := Dispatcher(k1, false, false);
    EcallResumes(k1, d);
    assert Enabled(k0, 1, SleepFor(d)) && Enabled(k1, 1, Ecall(false));
    hide Dispatcher, Sleep, Enabled;
    ks, events := [k0, k1, k2], [SleepFor(d), Ecall(false)];
  }

  lemma EcallResumes(k: Kernel, d: nat)
    requires |k.tasks| == 1 && k.current == 0 && k.ticks == k.lastDelayTick && d > 0
    requires k.tasks[0].state == Blocked && k.tasks[0].delay == d
    ensures var k' := Dispatcher(k, false, false);
      |k'.tasks| == 1 && k'.current == 0 && k'.ticks == k.ticks && k'.tasks[0].state == Running && k'.tasks[0].delay == d
  {
  }
}
