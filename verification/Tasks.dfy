/** Task states shared by the scheduler and the synchronisation primitives (include/sys/task.h). */
module Tasks {

  datatype TaskState = Stopped | Ready | Running | Blocked | Suspended

  // A task identifier; 0 is never one.  Pointers to tasks are modelled by the identifier.
  type Tid = t: nat | t > 0 witness 1

  type States = map<Tid, TaskState>

  ghost predicate Distinct(q: seq<Tid>) {
    forall i, j :: 0 <= i < j < |q| ==> q[i] != q[j]
  }

  /** What stays when the first task leaves a queue. */
  lemma TailMembers(q: seq<Tid>, u: Tid)
    requires q != [] && Distinct(q)
    ensures Distinct(q[1..]) && (u in q[1..] <==> u in q && u != q[0])
  {
  }

  class TaskTable {
    var state: States
  }
}
