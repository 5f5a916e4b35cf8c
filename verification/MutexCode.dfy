/** The critical sections of kernel/mutex.c on mutable objects whose waiter lists are the linked lists of
    include/lib/list.h, proved to be those of MutexSpec. */
module MutexCode {
  import opened Tasks
  import opened MutexSpec
  import opened LinkedList

  /** The list is well-formed and its data are tasks. */
  ghost predicate HoldsTasks(q: List)
    reads q, q.spine
  {
    q.Valid() && forall i :: 0 <= i < q.length ==> q.Data()[i] > 0
  }

  ghost function TasksIn(q: List): (s: seq<Tid>)
    requires HoldsTasks(q)
    reads q, q.spine
    ensures s == q.Data()
  {
    q.Data()
  }

  /** `mutex_block_atomic` up to the yield. */
  method BlockOn(q: List, tasks: TaskTable, t: Tid)
    requires HoldsTasks(q)
    modifies q`length, q`spine, q.spine`next, tasks
    ensures HoldsTasks(q) && TasksIn(q) == old(TasksIn(q)) + [t]
    ensures tasks.state == old(tasks.state)[t := Blocked]
    ensures forall n :: n in q.spine ==> n in old(q.spine) || fresh(n)
  {
    hide LinkedList.Distinct, Linked;
    var _ := q.PushBack(t);
    tasks.state := tasks.state[t := Blocked];
  }

  /** Pops the oldest waiter and makes it ready; panics if it was not blocked. */
  method WakeFirst(q: List, tasks: TaskTable) returns (w: Tid, r: Result)
    requires HoldsTasks(q) && q.length > 0 && forall u :: u in TasksIn(q) ==> u in tasks.state
    modifies q`length, q`spine, q.head`next, tasks
    ensures HoldsTasks(q) && w == old(TasksIn(q))[0] && TasksIn(q) == old(TasksIn(q))[1..]
    ensures r == if old(tasks.state)[w] == Blocked then Ok else Panic
    ensures tasks.state == if r == Ok then old(tasks.state)[w := Ready] else old(tasks.state)
    ensures forall n :: n in q.spine ==> n in old(q.spine)
  {
    hide LinkedList.Distinct, Linked;
    var x := q.Pop();
    w := x;
    if tasks.state[w] == Blocked {
      tasks.state := tasks.state[w := Ready];
      r := Ok;
    } else {
      r := Panic;
    }
  }

  class MutexObject {
    var owner: nat
    const waiters: List
    const tasks: TaskTable

    ghost predicate Valid()
      reads this, waiters, waiters.spine
    {
      HoldsTasks(waiters)
    }

    ghost function Abs(): Mutex
      requires Valid()
      reads this, waiters, waiters.spine
    {
      Mutex(owner, TasksIn(waiters))
    }

    /** `mo_mutex_init` with a successful allocation. */
    constructor (tasks: TaskTable)
      ensures Valid() && Abs() == Mutex(0, []) && this.tasks == tasks && fresh(waiters) && fresh(waiters.spine)
    {
      this.tasks := tasks;
      owner := 0;
      waiters := new List();
    }

    /** `mo_mutex_lock` up to the point where the caller returns or is switched away from. */
    method Lock(t: Tid) returns (r: Result)
      requires Valid()
      modifies this`owner, waiters`length, waiters`spine, waiters.spine`next, tasks
      ensures Valid() && (Abs(), tasks.state, r) == MutexSpec.Lock(old(Abs()), old(tasks.state), t)
      ensures forall n :: n in waiters.spine ==> n in old(waiters.spine) || fresh(n)
    {
      if owner == t {
        return Busy;
      }
      if owner == 0 {
        owner := t;
        return Ok;
      }
      BlockOn(waiters, tasks, t);
      r := Blocks;
    }

    /** `mo_mutex_trylock`: what `mo_mutex_lock` does when it need not wait, and otherwise nothing. */
    method TryLock(t: Tid) returns (r: Result)
      requires Valid()
      modifies this`owner
      ensures Valid() && (Abs(), r) == MutexSpec.TryLock(old(Abs()), t)
      ensures var (x, _, q) := MutexSpec.Lock(old(Abs()), old(tasks.state), t);
        if q == Ok then Abs() == x && r == Ok else Abs() == old(Abs()) && r == Busy
    {
      r := Busy;
      if owner == t {
        r := Busy;
      } else if owner == 0 {
        owner := t;
        r := Ok;
      }
    }

    /** `mo_mutex_unlock` */
    method Unlock(t: Tid) returns (r: Result)
      requires Valid() && forall w :: w in Abs().waiters ==> w in tasks.state
      modifies this`owner, waiters`length, waiters`spine, waiters.head`next, tasks
      ensures Valid() && (Abs(), tasks.state, r) == MutexSpec.Unlock(old(Abs()), old(tasks.state), t)
      ensures forall n :: n in waiters.spine ==> n in old(waiters.spine)
    {
      hide LinkedList.Distinct, Linked, DataOf;
      if owner != t {
        return NotOwner;
      }
      if waiters.length == 0 {
        owner := 0;
        return Ok;
      }
      var next;
      next, r := WakeFirst(waiters, tasks);
      if r == Ok {
        owner := next;
      }
    }
  }

  class CondObject {
    const waiters: List
    const tasks: TaskTable

    ghost predicate Valid()
      reads this, waiters, waiters.spine
    {
      HoldsTasks(waiters)
    }

    ghost function Abs(): seq<Tid>
      requires Valid()
      reads this, waiters, waiters.spine
    {
      TasksIn(waiters)
    }

    /** `mo_cond_init` with a successful allocation. */
    constructor (tasks: TaskTable)
      ensures Valid() && Abs() == [] && this.tasks == tasks && fresh(waiters) && fresh(waiters.spine)
    {
      this.tasks := tasks;
      waiters := new List();
    }

    /** `mo_cond_signal` */
    method Signal() returns (r: Result)
      requires Valid() && forall w :: w in Abs() ==> w in tasks.state
      modifies waiters`length, waiters`spine, waiters.head`next, tasks
      ensures Valid() && (Abs(), tasks.state, r) == MutexSpec.Signal(old(Abs()), old(tasks.state))
    {
      r := Ok;
      if waiters.length > 0 {
        var w;
        w, r := WakeFirst(waiters, tasks);
      }
    }

    /** `mo_cond_broadcast` */
    method Broadcast() returns (r: Result)
      requires Valid() && forall w :: w in Abs() ==> w in tasks.state
      modifies waiters`length, waiters`spine, waiters.head`next, tasks
      ensures Valid() && (Abs(), tasks.state, r) == MutexSpec.Broadcast(old(Abs()), old(tasks.state))
    {
      hide LinkedList.Distinct, Linked;
      r := Ok;
      while waiters.length > 0 && r == Ok
        invariant Valid() && forall w :: w in Abs() ==> w in tasks.state
        invariant r == Ok ==>
          MutexSpec.Broadcast(Abs(), tasks.state) == MutexSpec.Broadcast(old(Abs()), old(tasks.state))
        invariant r != Ok ==>
          (Abs(), tasks.state, r) == MutexSpec.Broadcast(old(Abs()), old(tasks.state))
        decreases waiters.length, r == Ok
      {
        var w;
        w, r := WakeFirst(waiters, tasks);
      }
    }
  }

  /** `remove_self_from_waiters` */
  method RemoveSelf(q: List, t: Tid) returns (found: bool)
    requires HoldsTasks(q)
    modifies q`length, q`spine, q.spine`next
    ensures HoldsTasks(q) && TasksIn(q) == Without(old(TasksIn(q)), t) && (found <==> t in old(TasksIn(q)))
  {
    hide LinkedList.Distinct, Linked, DataOf, Without;
    var curr, i := FindTask(q, t);
    WithoutFirst(TasksIn(q), t, i);
    if curr == q.tail {
      return false;
    }
    var _, k := q.Remove(curr);
    return true;
  }

  lemma {:induction false} WithoutFirst(d: seq<Tid>, t: Tid, i: nat)
    requires i <= |d| && t !in d[..i] && (i < |d| ==> d[i] == t)
    ensures Without(d, t) == (if i < |d| then d[..i] + d[i + 1..] else d) && (t in d <==> i < |d|)
    decreases i
  {
    if i > 0 {
      assert d[..i] == [d[0]] + d[1..][..i - 1];
      WithoutFirst(d[1..], t, i - 1);
      assert d == [d[0]] + d[1..];
    }
  }

  /** The search for the first node that carries `t`; the tail sentinel if there is none. */
  method FindTask(q: List, t: Tid) returns (curr: Node, ghost i: nat)
    requires HoldsTasks(q)
    ensures curr != q.tail <==> t in TasksIn(q)
    ensures curr != q.tail ==> curr in q.Nodes() && curr.data == t
    ensures i <= q.length && t !in TasksIn(q)[..i]
    ensures if i < q.length then TasksIn(q)[i] == t && curr == q.Nodes()[i] && curr != q.tail else curr == q.tail
    ensures forall k :: 0 <= k < q.length && q.Nodes()[k] == curr ==> k == i
  {
    assert q.spine[0].next == q.spine[1];
    curr, i := q.head.next, 0;
    while curr != q.tail
      invariant i <= q.length && curr == q.spine[i + 1] && t !in TasksIn(q)[..i]
      decreases q.length - i
    {
      if curr.data == t {
        return;
      }
      assert q.spine[i + 1].next == q.spine[i + 2];
      curr := curr.next;
      i := i + 1;
    }
  }
}
