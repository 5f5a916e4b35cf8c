/** Task lookup, spawn and cancel (kernel/task.c) with their loops, proved to compute
    TaskCacheSpec. */
module TaskCacheCode {
  import opened TaskCacheSpec

  class TaskList {
    var tcbs: map<Ptr, Tcb>
    var list: seq<Ptr>
    var cache: seq<Entry>
    var index: nat
    var nextTid: nat
    var count: int
    ghost var spawning: multiset<Ptr>

    ghost function Abs(): Table
      reads this
    {
      Table(tcbs, list, cache, index, nextTid, count, spawning)
    }

    ghost predicate Valid()
      reads this
    {
      Wf(Abs())
    }

    /** `cache_task` */
    method CacheTask(id: nat, p: Ptr)
      requires |cache| == CACHE_SIZE && index < CACHE_SIZE
      modifies this`cache, this`index
      ensures Abs() == TaskCacheSpec.CacheTask(old(Abs()), id, p) && index < CACHE_SIZE
    {
      cache := cache[index := Entry(id, p)];
      index := (index + 1) % CACHE_SIZE;
    }

    /** `cache_lookup_task` */
    method CacheLookup(id: nat) returns (p: nat)
      ensures p == TaskCacheSpec.CacheLookup(Abs(), id, 0)
    {
      var i := 0;
      while i < |cache|
        invariant 0 <= i <= |cache|
        invariant TaskCacheSpec.CacheLookup(Abs(), id, i) == TaskCacheSpec.CacheLookup(Abs(), id, 0)
      {
        var t := cache[i].task;
        if cache[i].id == id && t > 0 && t in tcbs && tcbs[t].id != 0 {
          return t;
        }
        i := i + 1;
      }
      p := 0;
    }

    method FindNode(p: nat) returns (i: nat)
      ensures i == NodeOf(list, p)
    {
      i := 0;
      while i < |list|
        invariant 0 <= i <= |list| && i + NodeOf(list[i..], p) == NodeOf(list, p)
      {
        if list[i] == p {
          return;
        }
        assert list[i..][1..] == list[i + 1..];
        i := i + 1;
      }
    }

    method ScanById(id: nat) returns (i: nat)
      requires Valid()
      ensures i == Scan(list, tcbs, id)
    {
      i := 0;
      while i < |list|
        invariant 0 <= i <= |list| && i + Scan(list[i..], tcbs, id) == Scan(list, tcbs, id)
      {
        if tcbs[list[i]].id == id {
          return;
        }
        assert list[i..][1..] == list[i + 1..];
        i := i + 1;
      }
    }

    /** `find_task_node_by_id` */
    method FindTaskNodeById(id: nat) returns (i: nat)
      requires Valid()
      modifies this`cache, this`index
      ensures Valid() && (Abs(), i) == Find(old(Abs()), id)
    {
      if id == 0 {
        return |list|;
      }
      var cached := CacheLookup(id);
      if cached > 0 {
        i := FindNode(cached);
        if i < |list| {
          return;
        }
      }
      i := ScanById(id);
      if i < |list| {
        CacheTask(id, list[i]);
      }
    }

    /** The two parts of `task_spawn_impl` that touch the task list and the cache. */
    method Register(p: Ptr)
      requires Valid()
      modifies this`tcbs, this`list, this`nextTid, this`count, this`spawning
      ensures Valid() && Abs() == TaskCacheSpec.Register(old(Abs()), p)
      ensures old(Inv(Abs()) && p !in tcbs) ==> Inv(Abs())
    {
      hide Inv;
      tcbs := tcbs[p := Tcb(nextTid, false)];
      list := list + [p];
      nextTid := nextTid + 1;
      count := count + 1;
      spawning := spawning + multiset{p};
      if old(Inv(Abs())) { SpawnKeeps(old(Abs()), p); }
    }

    method Publish(p: Ptr, seen: nat)
      requires Valid()
      modifies this`cache, this`index, this`spawning
      ensures Valid() && Abs() == TaskCacheSpec.Publish(old(Abs()), p, seen)
      ensures old(Inv(Abs()) && p in tcbs && tcbs[p].id == seen) ==> Inv(Abs())
    {
      hide Inv;
      spawning := spawning - multiset{p};
      CacheTask(seen, p);
      assert Abs() == TaskCacheSpec.Publish(old(Abs()), p, seen);
      hide TaskCacheSpec.Publish, TaskCacheSpec.CacheTask;
      if old(Inv(Abs()) && p in tcbs && tcbs[p].id == seen) { SpawnKeeps(old(Abs()), p); }
    }

    method ForgetTask(p: Ptr)
      modifies this`cache
      ensures cache == Forget(old(cache), p)
    {
      var i := 0;
      while i < |cache|
        invariant 0 <= i <= |cache| == |old(cache)| && cache[i..] == old(cache)[i..]
        invariant forall j :: 0 <= j < i ==> cache[j] == Forget(old(cache), p)[j]
      {
        if cache[i].task == p {
          cache := cache[i := Entry(0, 0)];
        }
        i := i + 1;
      }
    }

    /** `mo_task_cancel`, called by the task with identifier `self`. */
    method Cancel(id: nat, self: nat) returns (r: Code)
      requires Valid()
      modifies this
      ensures (Abs(), r) == TaskCacheSpec.Cancel(old(Abs()), id, self)
      ensures old(Distinct(list)) ==> Valid()
      ensures old(Inv(Abs()) && !CutsSpawn(Abs(), id, self)) ==> Inv(Abs())
    {
      hide Inv, CutsSpawn;
      ghost var s := Abs();
      if Inv(s) && !CutsSpawn(s, id, self) { CancelInv(s, id, self); }
      if id == 0 || id == self {
        return CantRemove;
      }
      var i := FindTaskNodeById(id);
      if i == |list| {
        return NotFound;
      }
      var p := list[i];
      if tcbs[p].running {
        return CantRemove;
      }
      list := list[..i] + list[i + 1..];
      count := count - 1;
      ForgetTask(p);
      tcbs := tcbs - {p};
      r := Ok;
    }
  }
}
