/** The preemptive scheduler (kernel/task.c) and the EDF hook (app/rtsched.c).

    The master list is a sequence and `current` an index into it, so that `list_cnext` is the
    successor modulo the length. */
module SchedSpec {
  import opened Tasks

  const SCHED_IMAX: nat := 500
  const UINT32_MAX: nat := 0xFFFF_FFFF
  const ATTEMPTS: nat := 10

  /** A real-time record: `rt_prio` of a task that has one. */
  datatype Edf = NoEdf | Edf(period: nat, deadline: nat)

  /** The scheduling part of a task control block.  `wake` is history: the tick at which the last
      `mo_task_delay` of the task ends. */
  datatype Task = Task(id: Tid, state: TaskState, delay: nat, edf: Edf, level: nat, slice: nat, wake: nat)

  datatype Kernel = Kernel(tasks: seq<Task>, current: nat, ticks: nat, lastDelayTick: nat)

  predicate Wf(k: Kernel) {
    k.current < |k.tasks|
  }

  /** `get_priority_timeslice` */
  function Timeslice(level: nat): nat {
    if level == 0 then 1 else if level == 1 then 2 else if level == 2 then 3 else if level == 3 then 4
    else if level == 4 then 5 else if level == 5 then 7 else if level == 6 then 10 else 15
  }

  function Next(i: nat, n: nat): nat
    requires i < n
  {
    if i + 1 == n then 0 else i + 1
  }

  function SetTask(k: Kernel, i: nat, t: Task): Kernel
    requires i < |k.tasks|
  {
    k.(tasks := k.tasks[i := t])
  }

  function Run(t: Task): Task {
    t.(state := Running, slice := Timeslice(t.level))
  }

  function Preempt(t: Task): Task {
    if t.state == Running then t.(state := Ready) else t
  }

  // ----- round robin

  /** The circular search from the successor of `i`: the first ready task within `steps` tasks, or
      the length of the list. */
  function SearchReady(tasks: seq<Task>, i: nat, steps: nat): (j: nat)
    requires i < |tasks|
    ensures j <= |tasks| && (j < |tasks| ==> tasks[j].state == Ready)
    decreases steps
  {
    if steps == 0 then |tasks|
    else
      var j := Next(i, |tasks|);
      if tasks[j].state == Ready then j else SearchReady(tasks, j, steps - 1)
  }

  /** Tasks the loop of `sched_select_next_task` visits: one round, at most SCHED_IMAX. */
  function Round(n: nat): nat {
    if n < SCHED_IMAX then n else SCHED_IMAX
  }

  /** `sched_select_next_task` in preemptive mode.  Without a ready task the first task of the list
      becomes a placeholder. */
  function Select(k: Kernel): (r: Kernel)
    requires Wf(k)
    ensures Wf(r) && |r.tasks| == |k.tasks|
  {
    var k1 := SetTask(k, k.current, Preempt(k.tasks[k.current]));
    var j := SearchReady(k1.tasks, k.current, Round(|k.tasks|));
    if j < |k.tasks| then SetTask(k1, j, Run(k1.tasks[j])).(current := j) else k1.(current := 0)
  }

  // ----- ticks and delays

  /** `sched_tick_current_task` */
  function TickCurrent(k: Kernel): (r: Kernel)
    requires Wf(k)
    ensures Wf(r)
  {
    var t := k.tasks[k.current];
    var t1 := if t.slice > 0 then t.(slice := t.slice - 1) else t;
    SetTask(k, k.current, if t1.slice == 0 then Preempt(t1) else t1)
  }

  /** `delay_update_batch` on one task at tick `now`. */
  function DelayUpdate(t: Task, now: nat): Task {
    if t.state != Blocked || t.delay == 0 then t
    else if t.delay == 1 then
      t.(delay := 0, state := Ready, slice := Timeslice(t.level),
         edf := if t.edf.Edf? then t.edf.(deadline := now + t.edf.period) else t.edf)
    else t.(delay := t.delay - 1)
  }

  function UpdateAll(tasks: seq<Task>, now: nat): (r: seq<Task>)
    ensures |r| == |tasks|
    ensures forall i :: 0 <= i < |tasks| ==> r[i] == DelayUpdate(tasks[i], now)
  {
    if tasks == [] then [] else [DelayUpdate(tasks[0], now)] + UpdateAll(tasks[1..], now)
  }

  /** Delays are counted down once per distinct tick. */
  function ProcessDelays(k: Kernel): (r: Kernel)
    ensures r == k.(tasks := r.tasks, lastDelayTick := k.ticks) && |r.tasks| == |k.tasks|
  {
    if k.ticks != k.lastDelayTick then k.(tasks := UpdateAll(k.tasks, k.ticks), lastDelayTick := k.ticks)
    else k
  }

  // ----- the real-time hook

  predicate RtRunnable(t: Task) {
    (t.state == Ready || t.state == Running) && t.edf.Edf?
  }

  /** `edf_sched`: scan with the best index so far and its deadline; `|tasks|` for none. */
  function EdfScan(tasks: seq<Task>, i: nat, best: nat, bestDeadline: nat): (r: nat)
    requires i <= |tasks| && best <= |tasks|
    ensures r <= |tasks|
    decreases |tasks| - i
  {
    if i == |tasks| then best
    else if RtRunnable(tasks[i]) && tasks[i].edf.deadline < bestDeadline
    then EdfScan(tasks, i + 1, i, tasks[i].edf.deadline)
    else EdfScan(tasks, i + 1, best, bestDeadline)
  }

  function EdfSched(tasks: seq<Task>): (r: int) {
    var j := EdfScan(tasks, 0, |tasks|, UINT32_MAX);
    if j < |tasks| then tasks[j].id else -1
  }

  /** The plain search of `find_task_node_by_id`; `|tasks|` for none. */
  function FindId(tasks: seq<Task>, id: int): (i: nat)
    ensures i <= |tasks| && (i < |tasks| ==> tasks[i].id == id)
    ensures forall j :: 0 <= j < i ==> tasks[j].id != id
  {
    if tasks == [] || tasks[0].id == id then 0 else 1 + FindId(tasks[1..], id)
  }

  // ----- dispatch

  /** The switch to the task `rt` the hook chose, or round robin when it is negative or unknown. */
  function Choose(k: Kernel, rt: int): (r: Kernel)
    requires Wf(k)
    ensures Wf(r) && |r.tasks| == |k.tasks|
  {
    var j := FindId(k.tasks, rt);
    if rt < 0 || j == |k.tasks| then Select(k)
    else if j != k.current then
      var k1 := SetTask(k, k.current, Preempt(k.tasks[k.current]));
      SetTask(k1, j, Run(k1.tasks[j])).(current := j)
    else k
  }

  /** Up to ten steps along the list while the chosen task still sleeps. */
  function SkipSleepers(k: Kernel, attempts: nat): (r: Kernel)
    requires Wf(k)
    ensures Wf(r) && r.tasks == k.tasks && r.ticks == k.ticks && r.lastDelayTick == k.lastDelayTick
    decreases attempts
  {
    if attempts == 0 || k.tasks[k.current].delay == 0 then k
    else SkipSleepers(k.(current := Next(k.current, |k.tasks|)), attempts - 1)
  }

  /** `dispatch`, with `edf` telling whether the EDF hook is installed. */
  function Dispatch(k: Kernel, edf: bool): (r: Kernel)
    requires Wf(k)
    ensures Wf(r)
  {
    var k1 := ProcessDelays(k);
    var k2 := Choose(k1, if edf then EdfSched(k1.tasks) else -1);
    var k3 := SkipSleepers(k2, ATTEMPTS);
    SetTask(k3, k3.current, Run(k3.tasks[k3.current]))
  }

  /** `dispatcher`: entered from the timer interrupt or from an ecall. */
  function Dispatcher(k: Kernel, fromTimer: bool, edf: bool): (r: Kernel)
    requires Wf(k)
    ensures Wf(r)
  {
    Dispatch(TickCurrent(if fromTimer then k.(ticks := k.ticks + 1) else k), edf)
  }

  /** `mo_task_delay` by the current task, up to the yield. */
  function Sleep(k: Kernel, d: nat): Kernel
    requires Wf(k)
  {
    if d == 0 then k
    else SetTask(k, k.current, k.tasks[k.current].(delay := d, state := Blocked, wake := k.ticks + d))
  }
}
