/** The code of kernel/semaphore.c over the ring of lib/queue.c, proved to take the steps of
    SemaphoreSpec. */
module SemaphoreCode {
  import opened Tasks
  import opened SemaphoreSpec
  import Queue

  class Semaphore {
    var count: nat
    var waitQ: Queue.Ring
    var maxWaiters: nat
    const tasks: TaskTable

    ghost predicate Valid()
      reads this, waitQ, waitQ.buf
    {
      && waitQ.Valid() && maxWaiters > 0 && waitQ.size == Queue.RingSize(maxWaiters)
      && forall i :: 0 <= i < |waitQ.Contents()| ==> waitQ.Contents()[i] > 0
    }

    ghost function Abs(): Sem
      requires Valid()
      reads this, waitQ, waitQ.buf, tasks
    {
      Sem(count, waitQ.Contents(), maxWaiters, tasks.state)
    }

    /** The initialisation in `mo_sem_create`, with successful allocations. */
    constructor (tasks: TaskTable, maxWaiters: nat, initial: nat)
      requires 0 < maxWaiters < 65536 && initial <= SEM_MAX_COUNT
      ensures Valid() && fresh(waitQ) && fresh(waitQ.buf) && this.tasks == tasks
      ensures Abs() == Start(maxWaiters, initial, tasks.state).s
    {
      this.tasks := tasks;
      this.maxWaiters := maxWaiters;
      count := initial;
      waitQ := new Queue.Ring(maxWaiters);
    }

    /** `mo_sem_wait` up to the point where the caller returns or is switched away from. */
    method Wait(t: Tid) returns (o: Outcome)
      requires Valid()
      modifies this`count, waitQ`tail, waitQ.buf, tasks
      ensures Valid()
      ensures (Abs(), o) == SemaphoreSpec.Wait(old(Abs()), t)
    {
      var n := waitQ.Count();
      if count > 0 && n == 0 {
        count := count - 1;
        return Done;
      }
      if n >= maxWaiters {
        return Panics;
      }
      var err := waitQ.Enqueue(t);
      if err != Queue.ERR_OK {
        return Panics;
      }
      tasks.state := tasks.state[t := Blocked];
      o := Waits;
    }

    method TryWait() returns (o: Outcome)
      requires Valid()
      modifies this`count
      ensures Valid()
      ensures (Abs(), o) == SemaphoreSpec.TryWait(old(Abs()))
    {
      o := Failed;
      var n := waitQ.Count();
      if count > 0 && n == 0 {
        count := count - 1;
        o := Done;
      }
    }

    method Signal() returns (o: Outcome)
      requires Valid() && forall w :: w in Abs().waiters ==> w in tasks.state
      modifies this`count, waitQ`head, tasks
      ensures Valid()
      ensures (Abs(), o) == SemaphoreSpec.Signal(old(Abs()))
    {
      var n := waitQ.Count();
      o := Done;
      if n > 0 {
        ghost var q := waitQ.Contents();
        assert q[0] in q;
        var w := waitQ.Dequeue();
        if w != 0 {
          if tasks.state[w] == Blocked {
            tasks.state := tasks.state[w := Ready];
          } else {
            o := Panics;
          }
        }
      } else if count < SEM_MAX_COUNT {
        count := count + 1;
      }
    }
  }

  /** `mo_sem_create`: NULL exactly for no waiters or a count out of range. */
  method Create(tasks: TaskTable, maxWaiters: nat, initial: int) returns (s: Semaphore?)
    requires maxWaiters < 65536
    ensures s == null <==> maxWaiters == 0 || initial < 0 || initial > SEM_MAX_COUNT
    ensures s != null ==> s.Valid() && fresh(s) && s.tasks == tasks && s.Abs() == Start(maxWaiters, initial, tasks.state).s
  {
    if maxWaiters == 0 || initial < 0 || initial > SEM_MAX_COUNT {
      return null;
    }
    s := new Semaphore(tasks, maxWaiters, initial);
  }
}
