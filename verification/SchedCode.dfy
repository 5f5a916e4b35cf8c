/** The loops of kernel/task.c and of `edf_sched` (app/rtsched.c), proved to compute SchedSpec. */
module SchedCode {
  import opened Tasks
  import opened SchedSpec
  import SchedLaws

  class Scheduler {
    var tasks: seq<Task>
    var current: nat
    var ticks: nat
    var lastDelayTick: nat

    ghost function Abs(): Kernel
      reads this
    {
      Kernel(tasks, current, ticks, lastDelayTick)
    }

    ghost predicate Valid()
      reads this
    {
      current < |tasks|
    }

    /** `sched_select_next_task` */
    method SelectNextTask()
      requires Valid()
      modifies this`tasks, this`current
      ensures Valid() && Abs() == Select(old(Abs()))
    {
      hide Run, Preempt;
      tasks := tasks[current := Preempt(tasks[current])];
      var n, node, iterations := |tasks|, current, 0;
      ghost var left := Round(n);
      while true
        invariant 0 <= node < n == |tasks| && tasks == old(tasks)[current := Preempt(old(tasks)[current])]
        invariant current == old(current) && left == Round(n) - iterations && left > 0
        invariant SearchReady(tasks, node, left) == SearchReady(tasks, current, Round(n))
        invariant node == if current + iterations < n then current + iterations else current + iterations - n
        decreases left
      {
        node := if node + 1 == n then 0 else node + 1;
        if tasks[node].state == Ready {
          current := node;
          tasks := tasks[node := Run(tasks[node])];
          return;
        }
        if node == current {
          break;
        }
        iterations := iterations + 1;
        left := left - 1;
        if iterations >= SCHED_IMAX {
          break;
        }
      }
      current := 0;
    }

    /** `list_foreach` with `delay_update_batch`, once per distinct tick. */
    method UpdateDelays()
      modifies this`tasks, this`lastDelayTick
      ensures Abs() == ProcessDelays(old(Abs()))
    {
      if ticks != lastDelayTick {
        var i := 0;
        while i < |tasks|
          invariant 0 <= i <= |tasks| == |old(tasks)|
          invariant forall j :: 0 <= j < i ==> tasks[j] == DelayUpdate(old(tasks)[j], ticks)
          invariant forall j :: i <= j < |tasks| ==> tasks[j] == old(tasks)[j]
        {
          tasks := tasks[i := DelayUpdate(tasks[i], ticks)];
          i := i + 1;
        }
        lastDelayTick := ticks;
      }
    }

    /** `edf_sched` */
    method EdfSched() returns (r: int)
      ensures r == SchedSpec.EdfSched(tasks)
    {
      var earliest, earliestDeadline := |tasks|, UINT32_MAX;
      var i := 0;
      while i < |tasks|
        invariant 0 <= i <= |tasks| && 0 <= earliest <= |tasks| && 0 <= earliestDeadline
        invariant EdfScan(tasks, i, earliest, earliestDeadline) == EdfScan(tasks, 0, |tasks|, UINT32_MAX)
      {
        var task := tasks[i];
        if (task.state == Ready || task.state == Running) && task.edf.Edf? {
          if task.edf.deadline < earliestDeadline {
            earliestDeadline := task.edf.deadline;
            earliest := i;
          }
        }
        i := i + 1;
      }
      r := if earliest < |tasks| then tasks[earliest].id else -1;
    }

    method FindById(id: int) returns (i: nat)
      ensures i == FindId(tasks, id)
    {
      i := 0;
      while i < |tasks|
        invariant 0 <= i <= |tasks| && i + FindId(tasks[i..], id) == FindId(tasks, id)
      {
        if tasks[i].id == id {
          return;
        }
        assert tasks[i..][1..] == tasks[i + 1..];
        i := i + 1;
      }
    }

    method ChooseTask(rt: int)
      requires Valid()
      modifies this`tasks, this`current
      ensures Valid() && Abs() == Choose(old(Abs()), rt)
    {
      if rt < 0 {
        SelectNextTask();
        return;
      }
      var node := FindById(rt);
      if node < |tasks| {
        if node != current {
          tasks := tasks[current := Preempt(tasks[current])];
          tasks := tasks[node := Run(tasks[node])];
          current := node;
        }
      } else {
        SelectNextTask();
      }
    }

    /** The loop of `dispatch` that moves on from a task with a pending delay. */
    method SkipDelayed()
      requires Valid()
      modifies this`current
      ensures Valid() && Abs() == SkipSleepers(old(Abs()), ATTEMPTS)
    {
      var attempts := 0;
      while tasks[current].delay > 0 && attempts < ATTEMPTS
        invariant Valid() && attempts <= ATTEMPTS
        invariant SkipSleepers(Abs(), ATTEMPTS - attempts) == SkipSleepers(old(Abs()), ATTEMPTS)
        decreases ATTEMPTS - attempts
      {
        current := if current + 1 == |tasks| then 0 else current + 1;
        attempts := attempts + 1;
      }
    }

    /** `dispatch` */
    method Dispatch(edf: bool)
      requires Valid()
      modifies this
      ensures Valid() && Abs() == SchedSpec.Dispatch(old(Abs()), edf)
    {
      hide Choose, SkipSleepers, SchedSpec.EdfSched;
      UpdateDelays();
      var rt := -1;
      if edf {
        rt := EdfSched();
      }
      ChooseTask(rt);
      SkipDelayed();
      tasks := tasks[current := Run(tasks[current])];
    }

    /** `dispatcher` */
    method Dispatcher(fromTimer: bool, edf: bool)
      requires Valid()
      modifies this
      ensures Valid() && Abs() == SchedSpec.Dispatcher(old(Abs()), fromTimer, edf)
    {
      hide SchedSpec.Dispatch;
      if fromTimer {
        ticks := ticks + 1;
      }
      var t := tasks[current];
      if t.slice > 0 {
        t := t.(slice := t.slice - 1);
      }
      if t.slice == 0 {
        t := Preempt(t);
      }
      tasks := tasks[current := t];
      Dispatch(edf);
    }

    /** `mo_task_delay` up to the yield. */
    method Delay(d: nat)
      requires Valid()
      modifies this`tasks
      ensures Valid() && Abs() == Sleep(old(Abs()), d)
      ensures forall idle {:trigger SchedLaws.Inv(Abs(), idle)} ::
        old(SchedLaws.Inv(Abs(), idle) && SchedLaws.Enabled(Abs(), idle, SchedLaws.SleepFor(d))) ==> SchedLaws.Inv(Abs(), idle)
    {
      hide SchedLaws.Inv, SchedLaws.Enabled;
      ghost var k := Abs();
      forall idle | SchedLaws.Inv(k, idle) && SchedLaws.Enabled(k, idle, SchedLaws.SleepFor(d))
        ensures SchedLaws.Inv(Sleep(k, d), idle)
      {
        SchedLaws.StepKeeps(k, idle, SchedLaws.SleepFor(d));
      }
      if d == 0 {
        return;
      }
      tasks := tasks[current := tasks[current].(delay := d, state := Blocked, wake := ticks + d)];
    }
  }
}
