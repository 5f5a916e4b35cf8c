# Linmo, modelled and verified in Dafny

Linmo is a small preemptive kernel for 32-bit RISC-V, written in C. This project models its stateful core and its
hand-written arithmetic, and proves what they promise for every input, every run and every interleaving:

| part | modules |
|---|---|
| heap (`lib/malloc.c`) | `HeapChain` (block chain), `HeapLaws` (theorems over runs), `HeapAllocator` (header words in memory) |
| lists and rings (`include/lib/list.h`, `lib/queue.c`) | `LinkedList`, `Queue`, `Seqs` |
| mutexes and condition variables (`kernel/mutex.c`) | `MutexSpec`, `MutexLaws`, `MutexCode` |
| semaphores and the bounded buffer (`kernel/semaphore.c`, `app/prodcons.c`) | `SemaphoreSpec`, `SemaphoreCode`, `ProdCons` |
| software timers (`kernel/timer.c`) | `TimerLists`, `TimerSpec`, `TimerLaws`, `TimerFiring`, `TimerRuns`, `TimerCode` |
| scheduler and task lookup (`kernel/task.c`, `app/rtsched.c`) | `SchedSpec`, `SchedLaws`, `SchedCode`, `TaskCacheSpec`, `TaskCacheCode`, `Tasks` |
| pipes (`kernel/pipe.c`) | `Pipe`, `PipeRuns` |
| multiply and divide (`arch/riscv/muldiv.c`), bit tricks (`include/private/utils.h`) | `MulDiv`, `Bits` |
| number conversion and formatting (`lib/ctype.c`, `lib/stdio.c`) | `Numerals`, `Ctype`, `CtypeParse`, `Format`, `FormatLaws`, `Stdio` |

The layout is the same throughout. A `…Spec` module gives the operations as functions on values. A `…Laws` module
proves the invariants and the theorems over whole runs about those functions. A `…Code` module holds the source's
own form, classes with fields, arrays and loops, and every method is proved to compute the specification function of
its old state. Concurrency is a state machine whose steps are the critical sections of the source, taken in any
order. Two things the source leaves outside critical sections are split further: the tick handler takes an expired
timer and processes it in separate steps, and a spawn enters the task in the list and in the lookup cache in separate
steps. A single list or cache operation is one step everywhere.

Integer width is explicit wherever it matters: words are naturals below 2^32 or 2^64 and wrap-around is written out.
Signed overflow that the source relies on (`-INT32_MIN`, the sum `n * 10 + c - '0'`) is modelled as wrapping. Bitwise
`&` and `|` are defined bit by bit, so that masks and smears are proved and not assumed.

## What the proofs found

- Exhausting the heap does not return NULL. The search in `malloc` reaches the end sentinel, whose size 0 fails
  validation, and panics; the final `return NULL` is never reached (`HeapLaws.MallocOutcome`,
  `HeapLaws.ExhaustionPanics`).
- `free` accepts exactly the live pointers if and only if no words inside a payload look like the header of a used
  block: it validates whatever words lie in front of the pointer (`HeapAllocator.AcceptsOnlyLiveIff`,
  `HeapAllocator.InteriorPointerAccepted`).
- `mo_heap_init` rounds the length up, so a length that is not a multiple of 4 makes the heap end past the zone, and
  a zone that reaches the top of the address space gets the end address 0 (`HeapAllocator.Allocator.Init`).
- A semaphore created for a power of two of waiters above 1 panics one waiter early, because the ring keeps a slot
  free (`SemaphoreSpec.FillsThenPanics`, `SemaphoreSpec.EarlyPanicReachable`).
- `list_remove` does not guard against the tail sentinel, which it unlinks (`LinkedList.List.Remove`).
- An auto-reload timer with a period below 10 ms (one tick) is due again at once, and no number of handler calls
  drains it (`TimerFiring.DrainsIff`, `TimerRuns.NeverDrainedReachable`).
- The tick handler is preemptible. A cancel that falls between its taking a timer and processing it succeeds, and the
  callback runs all the same; a start there breaks the active list, and a destroy frees a block the handler then
  reads (`TimerRuns.CancelledStillFires`, `TimerRuns.StartHeldBreaks`, `TimerRuns.DestroyHeldBreaks`). With a timer of
  any period such a moment is reached from boot (`TimerRuns.HeldReachable`).
- A task cancelled before its spawner has cached it leaves a stale cache entry; once the block is reused, a lookup of
  the old identifier returns the new task (`TaskCacheSpec.LookupsStayRightIff`, `TaskCacheSpec.CutSpawnReachable`).
- Without a runnable task a dispatch marks a blocked or suspended one as running: the first of the list or, while
  that one sleeps, one up to ten places on. So a lone task returns from `mo_task_delay` at once, although comments in
  `kernel/task.c` say that the dispatcher does not switch to such a task and that the delay has then expired
  (`SchedLaws.RunsRunnableIff`, `SchedLaws.PlaceholderRuns`, `SchedLaws.LoneSleeperResumed`).
- Base-10 `itoa` moves the minus sign to the end (`CtypeParse.AtoiInvertsItoa`), and `strtol` stops after nine digits
  and then leaves `end` on the ninth (`CtypeParse.StrtolInvertsDecimal`).
- `%d` prints the sign before padding blanks, `%s` treats the width as an exact size, `%ld` prints unsigned, and `%X`
  prints lower-case digits (`FormatLaws`).
- `include/sys/pipe.h` documents a minimum size of 2 bytes; the code uses 4, and the model follows the code.

## Model

| member | source | states |
|---|---|---|
| `Bits.IsPowerOf2Iff` | include/private/utils.h:42-48 | the `x & (x - 1)` test holds of exactly the powers of two |
| `Bits.NextPowerOf2` | include/private/utils.h:51-62 | on every 32-bit word: the least power of two not below it, and 0 for 0 and for words above 2^31 |
| `Bits.CeilPow2IsLeast` | include/private/utils.h:51-62 | the halving definition used as reference is the least power of two at or above its argument |
| `Bits.MaskIsMod` | lib/queue.c:49-71 | masking by size - 1 is reduction modulo a power-of-two size |
| `Bits.Align4` | include/private/utils.h:31-31 | rounds up to a multiple of 4, wrapping to 0 at the top of the word |
| `HeapLaws.CoalesceCorrect` | lib/malloc.c:118-136 | one pass keeps the tiling and the live blocks, leaves no free neighbours, and lowers the counter by the number of merges |
| `HeapLaws.CoalesceIdentity` | lib/malloc.c:118-136 | on a chain without free neighbours the pass changes nothing |
| `HeapLaws.CoalescedCanonical` | lib/malloc.c:174-178 | with more than 8 free blocks any tiled chain is brought into its canonical form, live blocks and counter kept; with fewer nothing changes |
| `HeapLaws.AllocateKeepsInv` | lib/malloc.c:138-158 | splitting and marking keep tiling, counter and absence of free neighbours |
| `HeapLaws.ReleasedFacts` | lib/malloc.c:85-112 | marking free and merging both ways keeps the tiling, removes just that live block, and keeps the counter exact |
| `HeapLaws.ReleasedNoAdjacent` | lib/malloc.c:88-112 | after a free there are no two adjacent free blocks |
| `HeapLaws.MallocOutcome` | lib/malloc.c:161-206 | `malloc` keeps the invariant; NULL iff the size is 0 or above 0x7FFFFFFF; panic iff every free block is smaller than the request |
| `HeapLaws.MallocFirstFit` | lib/malloc.c:161-206 | a successful `malloc` takes the lowest-address free block that is large enough and adds exactly one live block: the request rounded up to a multiple of 4, or the whole block when fewer than 12 bytes would be left |
| `HeapLaws.FreeOutcome` | lib/malloc.c:69-115 | for every pointer that does not lead into a payload: `free` panics iff it is neither NULL nor live; otherwise it removes just that block |
| `HeapLaws.FreeUndoesMalloc` | lib/malloc.c:69-206 | on every well-formed heap, freeing what `malloc` returned restores chain and counter exactly, split or not |
| `HeapLaws.ChainDetermined` | lib/malloc.c:85-158 | two chains over one zone with the same live blocks and no free neighbours are equal |
| `HeapLaws.HeapIsItsLiveSet` | lib/malloc.c:85-158 | a reachable heap is a function of its live blocks: no trace of the order of past operations |
| `HeapLaws.RunsKeepInv` | lib/malloc.c:46-232 | every run of `malloc` and valid `free` keeps the invariant (exact tiling to the sentinel, no adjacent free blocks, exact counter) |
| `HeapLaws.RunsPanicOnlyWhenExhausted` | lib/malloc.c:46-66 | no corruption check fires in a run except at the sentinel, in a `malloc` for which every free block is too small |
| `HeapLaws.ExhaustionPanics` | lib/malloc.c:179-205 | a run of two requests on a 32-byte zone that ends in the panic |
| `HeapLaws.EmptyHeapIsInitial` | lib/malloc.c:209-232 | after any run that leaves nothing live the heap is the single initial free block |
| `HeapLaws.ReleaseEach` | lib/malloc.c:69-115 | freeing any set of live blocks in any order never panics and removes just those |
| `HeapLaws.FreeAllRestores` | lib/malloc.c:69-115 | freeing all live blocks in any order restores the initial heap |
| `HeapLaws.PayloadsDisjoint` | lib/malloc.c:161-206 | payloads are 4-aligned, inside the heap and disjoint; headers and payloads add up to the heap length |
| `HeapAllocator.SizeWordDecodes` | lib/malloc.c:32-35 | size and used flag share one word and can both be read back |
| `HeapAllocator.AcceptedIfLive` | lib/malloc.c:46-83 | away from the payloads the words in front of a pointer pass the check iff the pointer is live |
| `HeapAllocator.AcceptsOnlyLiveIff` | lib/malloc.c:46-83 | the check accepts exactly the live pointers iff no other words of the heap look like a used header |
| `HeapAllocator.InteriorPointerAccepted` | lib/malloc.c:46-83 | a reachable heap and a pointer into a payload that the check accepts |
| `HeapAllocator.Allocator.MergeNext` | lib/malloc.c:88-93 | the header writes of a merge absorb exactly the next block |
| `HeapAllocator.Allocator.SelectiveCoalesce` | lib/malloc.c:118-136 | the loop over header words computes the coalesced chain and touches no live payload |
| `HeapAllocator.Allocator.Search` | lib/malloc.c:179-202 | the search loop stops at the first block that fits, or panics on the sentinel |
| `HeapAllocator.Allocator.Take` | lib/malloc.c:138-158 | the header writes of split and mark |
| `HeapAllocator.Allocator.Malloc` | lib/malloc.c:161-206 | the code computes the specified `malloc` on any chain, changes no live payload and keeps a valid heap valid |
| `HeapAllocator.Allocator.FindPrevious` | lib/malloc.c:95-101 | the backward search returns the preceding header, NULL for the first |
| `HeapAllocator.Allocator.CheckBlock` | lib/malloc.c:46-83 | for every pointer: the check passes iff the words in front of it look like a used header, and away from the payloads iff it is live |
| `HeapAllocator.Allocator.Release` | lib/malloc.c:85-112 | mark, forward merge and backward merge in place |
| `HeapAllocator.Allocator.Free` | lib/malloc.c:69-115 | the code computes the specified `free`, changes no payload that stays live and keeps a valid heap valid |
| `HeapAllocator.Allocator.Init` | lib/malloc.c:209-232 | nothing for a null or short zone; else one free block; the heap stays inside the zone iff the length is a multiple of 4, and is valid iff aligned, small enough and below the top of the address space |
| `LinkedList.List.constructor` | include/lib/list.h:28-57 | an empty list between its sentinels |
| `LinkedList.List.Last` | include/lib/list.h:94-96 | the walk ends at the last node |
| `LinkedList.List.PushBack` | include/lib/list.h:81-101 | relinking appends the new node and nothing else |
| `LinkedList.List.Pop` | include/lib/list.h:103-115 | returns and unlinks the first node, NULL when empty |
| `LinkedList.List.FindBefore` | include/lib/list.h:123-128 | the search stops before the target iff the target is in the list or is the tail |
| `LinkedList.List.Remove` | include/lib/list.h:118-135 | unlinks exactly the target, or nothing if it is not there or null; the tail sentinel as target of a non-empty list is unlinked |
| `LinkedList.List.CNext` | include/lib/list.h:71-77 | the successor on the ring of data nodes, skipping both sentinels |
| `Queue.RingBytes` | lib/queue.c:11-23 | the ring of pointers has a size `malloc` refuses, modulo 2^32, iff it is for more than 2^28 entries |
| `Queue.Create` | lib/queue.c:8-35 | NULL iff the capacity is above 2^28; else an empty ring of the capacity rounded up to a power of two |
| `Queue.Ring.constructor` | lib/queue.c:11-34 | capacity rounded up to a power of two, empty |
| `Queue.Ring.Count` | include/lib/queue.h:59-65 | the masked index difference is the number of stored items |
| `Queue.Ring.IsFull` | include/lib/queue.h:68-71 | full at one item below the size |
| `Queue.Ring.Enqueue` | lib/queue.c:49-60 | appends, or fails and changes nothing when full |
| `Queue.Ring.Dequeue` | lib/queue.c:63-71 | removes the oldest item, NULL when empty |
| `Queue.Ring.Peek` | lib/queue.c:74-79 | the oldest item without removing it |
| `MutexSpec.BroadcastWakesAll` | kernel/mutex.c:500-525 | broadcasting to blocked waiters makes exactly them ready and empties the list |
| `MutexSpec.WithoutFirst` | kernel/mutex.c:46-64 | the first occurrence of the caller goes, and nothing else |
| `MutexSpec.StepsAreTheCalls` | kernel/mutex.c:141-300 | the steps of the system are the critical sections of lock and unlock |
| `MutexLaws.LockKeeps` | kernel/mutex.c:141-169 | lock keeps the invariant; busy iff the caller owns it; OK only to the owner |
| `MutexLaws.UnlockKeeps` | kernel/mutex.c:259-300 | unlock by the owner keeps the invariant and never panics |
| `MutexLaws.WaitKeeps` | kernel/mutex.c:370-408 | joining a condition keeps every list exact |
| `MutexLaws.SignalKeeps` | kernel/mutex.c:474-498 | signal keeps the invariant and never meets an inconsistent waiter |
| `MutexLaws.BroadcastKeeps` | kernel/mutex.c:500-525 | the same for broadcast |
| `MutexLaws.ResumeKeeps` | kernel/mutex.c:370-408 | a resumed lock or `mo_cond_wait` waits on or returns OK, and OK only to the owner of the mutex |
| `MutexLaws.LockMeans` | kernel/mutex.c:141-169 | lock takes a free mutex, refuses the owner, and queues anyone else last and blocked; nothing else changes |
| `MutexLaws.TryLockMeans` | kernel/mutex.c:171-193 | trylock takes a free mutex and otherwise does nothing |
| `MutexLaws.UnlockMeans` | kernel/mutex.c:259-308 | unlock by the owner frees the mutex or makes its oldest waiter owner and ready; anyone else is refused |
| `MutexLaws.WaitMeans` | kernel/mutex.c:370-392 | a wait by the owner puts it last on the list and blocks it; anyone else is refused |
| `MutexLaws.SignalMeans` | kernel/mutex.c:474-498 | a signal makes exactly the oldest waiter ready and leaves the rest in order; without waiters it changes nothing |
| `MutexLaws.BroadcastMeans` | kernel/mutex.c:500-525 | in every reachable state a broadcast makes exactly the waiters ready |
| `MutexLaws.ResumeMeans` | kernel/mutex.c:388-408 | a waiter passes the mutex on, sleeps, and once woken takes it back if it is free or queues for it last; a granted lock returns |
| `MutexLaws.StepKeeps` | kernel/mutex.c:67-525 | every critical section keeps the invariant and no state-inconsistency panic is reachable |
| `MutexLaws.RunsKeepInv` | kernel/mutex.c:67-525 | in every state of every interleaving: free mutexes have no waiters, each listed task is blocked in the matching call, listed once |
| `MutexLaws.MutualExclusion` | kernel/mutex.c:141-300 | at most one task has been told that it holds a mutex |
| `MutexLaws.InOneListOnly` | kernel/mutex.c:67-82 | no task is in two wait lists |
| `MutexLaws.HandOverIsFifo` | kernel/mutex.c:259-300 | ownership passes in the order in which tasks queued; a release without waiters frees the mutex |
| `MutexLaws.StartInv` | kernel/mutex.c:84-104 | freshly initialised mutexes and conditions satisfy the invariant |
| `MutexCode.BlockOn` | kernel/mutex.c:67-82 | pushing a node on the linked list and blocking queue the caller last |
| `MutexCode.WakeFirst` | kernel/mutex.c:276-289 | popping the linked list wakes the oldest waiter, or panics if it was not blocked |
| `MutexCode.MutexObject.constructor` | kernel/mutex.c:84-104 | a free mutex with an empty linked list |
| `MutexCode.MutexObject.Lock` | kernel/mutex.c:141-169 | on the linked list of waiters, lock takes the specified step of owner, waiters and task states |
| `MutexCode.MutexObject.TryLock` | kernel/mutex.c:171-193 | trylock does what lock does when lock need not wait, and otherwise nothing |
| `MutexCode.MutexObject.Unlock` | kernel/mutex.c:259-300 | on the linked list of waiters, unlock takes the specified step: hand-over to the first node, or free |
| `MutexCode.CondObject.Signal` | kernel/mutex.c:474-498 | on the linked list of waiters, signal takes the specified step |
| `MutexCode.CondObject.Broadcast` | kernel/mutex.c:500-525 | the loop over the linked list computes the specified broadcast |
| `MutexCode.FindTask` | kernel/mutex.c:54-63 | the walk finds the first node of the caller, or the tail |
| `MutexCode.RemoveSelf` | kernel/mutex.c:46-65 | removes the first node of the caller, and reports whether there was one |
| `SemaphoreSpec.WaiterLimitExact` | kernel/semaphore.c:43-73 | the ring holds the requested number of waiters, one fewer for a power of two above 1 |
| `SemaphoreSpec.WaitKeeps` | kernel/semaphore.c:104-139 | wait keeps tokens and order; it panics iff the wait queue is at its limit |
| `SemaphoreSpec.WaitMeans` | kernel/semaphore.c:104-139 | a wait takes exactly one token iff there is one; otherwise the caller is queued last and blocked, or at the limit the call panics |
| `SemaphoreSpec.TryWaitMeans` | kernel/semaphore.c:141-158 | trywait takes exactly one token iff there is one, and otherwise fails and changes nothing |
| `SemaphoreSpec.SignalMeans` | kernel/semaphore.c:160-209 | a signal makes exactly the oldest waiter ready, or without waiters adds one token up to 0x7FFFFFFE |
| `SemaphoreSpec.SignalKeeps` | kernel/semaphore.c:160-209 | signal keeps tokens and order and always succeeds |
| `SemaphoreSpec.StepKeeps` | kernel/semaphore.c:104-209 | every critical section keeps the run invariant |
| `SemaphoreSpec.RunsConserveTokens` | kernel/semaphore.c:104-209 | in every run tokens put in equal count plus grants, a positive count means no waiters, and grants are a prefix of arrivals: no barging |
| `SemaphoreSpec.StartInv` | kernel/semaphore.c:43-73 | a new semaphore satisfies the run invariant |
| `SemaphoreSpec.FillsThenPanics` | kernel/semaphore.c:104-139 | any distinct tasks waiting in turn on a new semaphore without tokens: as many block as were asked for, one fewer for a power of two above 1, and the next call panics |
| `SemaphoreSpec.EarlyPanicReachable` | kernel/semaphore.c:104-139 | the second waiter on a semaphore made for two panics |
| `SemaphoreCode.Semaphore.constructor` | kernel/semaphore.c:50-73 | initialisation over the ring gives the specified start state |
| `SemaphoreCode.Create` | kernel/semaphore.c:43-73 | NULL iff there are no waiters or the count is out of range, else a semaphore in the start state |
| `SemaphoreCode.Semaphore.Wait` | kernel/semaphore.c:104-139 | the code, with the queue and `_sched_block`, takes the specified step |
| `SemaphoreCode.Semaphore.TryWait` | kernel/semaphore.c:141-158 | the same for trywait |
| `SemaphoreCode.Semaphore.Signal` | kernel/semaphore.c:160-209 | the same for signal |
| `ProdCons.AloneInSection` | app/prodcons.c:8-37 | a task between wait and signal of the mutex semaphore is alone there |
| `ProdCons.RoomToStore` | app/prodcons.c:8-22 | a producer about to store has a slot that no unread item occupies |
| `ProdCons.NoUnreadSlotOverwritten` | app/prodcons.c:8-22 | the slot a producer writes holds no unread item |
| `ProdCons.StepKeeps` | app/prodcons.c:8-37 | every step of every producer and consumer keeps queues, token ledger and buffer contents |
| `ProdCons.RunsDeliverInOrder` | app/prodcons.c:8-50 | in every interleaving items are consumed once each in production order, and tokens plus held slots total 10 |
| `ProdCons.ThreeTasksNeverPanic` | app/prodcons.c:39-50 | with at most three tasks no semaphore call panics |
| `ProdCons.StartInv` | app/prodcons.c:39-50 | the initial state satisfies the invariant |
| `ProdCons.StepMoves` | app/prodcons.c:8-37 | a runnable task goes on to its next stage iff the semaphore it waits for, if any, has a token; otherwise it is blocked there or the call panics |
| `ProdCons.SomeTaskMoves` | app/prodcons.c:8-37 | no deadlock: with a producer and a consumer some task can move in every reachable state |
| `ProdCons.EverySequenceDelivered` | app/prodcons.c:8-50 | from `app_main`, for every sequence of items: a run that produces and consumes exactly these |
| `TimerLists.InsertSorted` | kernel/timer.c:141-170 | sorted insertion keeps the list sorted |
| `TimerLists.InsertFifo` | kernel/timer.c:141-170 | equal deadlines stand in insertion order |
| `TimerLists.TakeKeeps` | kernel/timer.c:36-48 | a node taken from the pool or the allocator is in neither list, and every pool slot stays accounted for |
| `TimerLists.GiveKeeps` | kernel/timer.c:50-60 | returning a node keeps each node in exactly one place |
| `TimerLists.TakeLowest` | kernel/timer.c:36-48 | the lowest free slot of the 16 is taken while there is one |
| `TimerLists.TakeAllocates` | kernel/timer.c:36-48 | with none left a node is allocated |
| `TimerLaws.CacheAddKeeps` | kernel/timer.c:63-68 | caching a timer under its identifier keeps the cache in agreement with the lists |
| `TimerLaws.FindFastIsScan` | kernel/timer.c:63-78 | lookup through the cache and the early-exit scan returns what a plain scan returns |
| `TimerLaws.FoundIsCached` | kernel/timer.c:173-194 | a timer that was found is answered from the cache next time, and such an answer changes nothing |
| `TimerLaws.LastFourCached` | kernel/timer.c:63-69 | the cache holds the last four timers added |
| `TimerLaws.CreateKeeps` | kernel/timer.c:287-326 | create fails iff the period is 0; else it adds just the timer, disabled, with the given period, under the next identifier, which it returns |
| `TimerLaws.DestroyKeeps` | kernel/timer.c:328-369 | destroy of a timer the handler does not hold succeeds iff the identifier is known and removes just that timer, from lists and cache |
| `TimerLaws.StartKeeps` | kernel/timer.c:372-404 | start of a timer the handler does not hold succeeds iff mode and identifier are valid and arms just that timer in that mode for `now + ms / 10`, running or not |
| `TimerLaws.CancelKeeps` | kernel/timer.c:406-424 | cancel of a timer the handler does not hold succeeds iff the timer exists and runs, disables just it and takes it off the active list |
| `TimerFiring.ExpiredExact` | kernel/timer.c:217-262 | the due timers are exactly a prefix of the active list |
| `TimerFiring.HandlerFires` | kernel/timer.c:217-262 | a call fires exactly the first min(4, expired) timers, by deadline with ties in insertion order, and keeps the invariant |
| `TimerFiring.HandlerBacklog` | kernel/timer.c:217-262 | a call lowers total lateness by at least the number of timers it fires |
| `TimerFiring.CallsDrain` | kernel/timer.c:217-262 | repeated calls at one tick drain the backlog when due periods are at least one tick |
| `TimerFiring.ZeroPeriodNeverDrains` | kernel/timer.c:244-261 | a due auto-reload timer with a period below one tick is never drained |
| `TimerFiring.DrainsIff` | kernel/timer.c:217-262 | the backlog can be drained iff no due auto-reload timer has a period below one tick |
| `TimerFiring.TicksExact` | include/sys/timer.h:108-109 | at 100 Hz a period of ms milliseconds is ms / 10 ticks, rounded down |
| `TimerFiring.FiredExactly` | kernel/timer.c:244-261 | a drained auto-reload timer of P = ms / 10 ticks has fired once per elapsed period, and its deadline is start plus (fired + 1) P |
| `TimerFiring.FireOneKeeps` | kernel/timer.c:244-261 | processing one timer keeps the lists, and its callbacks since its start on time |
| `TimerRuns.StepKeeps` | kernel/timer.c:217-424 | every call, every tick and every step of the preemptible handler keeps the timer state, except a start or destroy of a timer the handler holds |
| `TimerRuns.RunsKeepInv` | kernel/timer.c:36-424 | in every state of every interleaving that starts and destroys no timer the handler holds, both lists are sorted and exact, nodes are in one place, the cache agrees, nothing drifts and nothing fired early |
| `TimerRuns.CallbacksOnTime` | kernel/timer.c:244-261 | over the log of any run: the callbacks of a periodic timer since its start at tick T are for T + P, T + 2P, ... with P = ms / 10, none early, and none is missing while it is not due |
| `TimerRuns.HandlerIsRun` | kernel/timer.c:217-262 | a handler call that nothing interrupts is a run of its steps |
| `TimerRuns.CancelHeldKeeps` | kernel/timer.c:406-424 | a cancel of a timer the handler holds keeps the timer state |
| `TimerRuns.CancelledStillFires` | kernel/timer.c:244-261 | that cancel succeeds and the callback still runs |
| `TimerRuns.StartHeldBreaks` | kernel/timer.c:372-404 | a start of a timer the handler holds leaves lists out of order once the handler has processed it |
| `TimerRuns.DestroyHeldBreaks` | kernel/timer.c:328-369 | a destroy of a timer the handler holds frees a block the handler is about to read |
| `TimerRuns.HeldReachable` | kernel/timer.c:217-404 | from boot, with any period: a run to a state in which the handler holds a running timer, where the three failures above occur |
| `TimerRuns.NeverDrainedReachable` | kernel/timer.c:287-404 | a run from boot to a state that is never drained |
| `TimerRuns.InitialInv` | kernel/timer.c:81-117 | the initial state satisfies the invariant |
| `TimerCode.TimerSubsystem.GetTimerNode` | kernel/timer.c:36-48 | the bit-mask scan takes the lowest free slot |
| `TimerCode.TimerSubsystem.ReturnTimerNode` | kernel/timer.c:50-60 | sets the bit of a pool node, ignores others |
| `TimerCode.TimerSubsystem.RemoveItemByData` | kernel/timer.c:120-138 | unlinks the node of a timer |
| `TimerCode.TimerSubsystem.SortedInsert` | kernel/timer.c:141-170 | the insertion loop computes sorted insertion |
| `TimerCode.TimerSubsystem.CacheLookup` | kernel/timer.c:71-78 | the first matching cache entry |
| `TimerCode.TimerSubsystem.FindByIdFast` | kernel/timer.c:173-197 | cache, then scan, then cache fill |
| `TimerCode.TimerSubsystem.FindNodeById` | kernel/timer.c:200-212 | the plain scan |
| `TimerCode.TimerSubsystem.InsertSortedById` | kernel/timer.c:265-284 | insertion into the master list |
| `TimerCode.TimerSubsystem.Create` | kernel/timer.c:287-326 | the code computes the specified create |
| `TimerCode.TimerSubsystem.Destroy` | kernel/timer.c:328-369 | the code computes the specified destroy |
| `TimerCode.TimerSubsystem.Start` | kernel/timer.c:372-404 | the code computes the specified start |
| `TimerCode.TimerSubsystem.Cancel` | kernel/timer.c:406-424 | the code computes the specified cancel |
| `TimerCode.TimerSubsystem.CollectExpired` | kernel/timer.c:217-242 | the collection loop takes off the first min(4, expired) timers |
| `TimerCode.TimerSubsystem.TickHandler` | kernel/timer.c:217-262 | the two loops of the handler compute its specification |
| `SchedLaws.SearchFinds` | kernel/task.c:435-470 | the circular search finds the nearest ready task |
| `SchedLaws.SearchIff` | kernel/task.c:446-470 | a selection finds a ready task iff one is within 500 places of the current one |
| `SchedLaws.SelectApproaches` | kernel/task.c:435-470 | each selection brings a runnable task strictly nearer or selects it |
| `SchedLaws.DispatchApproaches` | kernel/task.c:509-617 | so does each dispatch without the real-time hook |
| `SchedLaws.ReadyTaskRuns` | kernel/task.c:435-470 | in every run, among n tasks, n at most SCHED_IMAX, a task that stays runnable is picked by one of any n dispatches |
| `SchedLaws.DispatcherKeeps` | kernel/task.c:509-617 | with an idle task every dispatch keeps "a delayed task is blocked" and "at most the current task runs", and leaves the current task running and awake |
| `SchedLaws.EdfSchedEarliest` | app/rtsched.c:399-437 | the hook returns the first task of least deadline among the runnable real-time ones below UINT32_MAX, and -1 iff there is none |
| `SchedLaws.EdfDispatch` | kernel/task.c:525-617 | under the hook the task that runs is that one; round robin chooses iff there is none |
| `SchedLaws.RunsRunnableIff` | kernel/task.c:472-497 | without assuming an idle task, with or without the hook: the dispatched task was runnable iff some task was |
| `SchedLaws.PlaceholderRuns` | kernel/task.c:472-617 | without a runnable task a dispatch takes the first of the list or, as long as it finds a delay, one up to ten places on |
| `SchedLaws.LoneSleeperResumed` | kernel/task.c:591-617 | a run in which a sleeping task is dispatched with its delay still running |
| `SchedLaws.DispatcherNaps` | kernel/task.c:171-209 | a dispatch without a new tick leaves a delay alone; a tick takes one off and wakes the task iff it was the last |
| `SchedLaws.DispatcherTask` | kernel/task.c:509-617 | what a dispatch does to every task: state, delay, time slice and real-time record |
| `SchedLaws.Timeslices` | kernel/task.c:79-85 | the time slice of every priority level |
| `SchedLaws.StepKeeps` | kernel/task.c:509-617 | dispatches, delays, blocking and wake-ups keep the invariant |
| `SchedLaws.RunsKeepInv` | kernel/task.c:509-617 | the invariant holds in every state of every run |
| `SchedLaws.StartInv` | kernel/task.c:19-28 | the state at boot satisfies the invariant |
| `SchedLaws.SleepSetsWake` | kernel/task.c:855-877 | a delay of d at tick T blocks the caller until tick T + d and touches no other task; a delay of 0 does nothing |
| `SchedLaws.NeverWokenEarly` | kernel/task.c:171-209 | in every run a sleeping task stays blocked, with the exact remaining delay, in all states before its wake-up tick |
| `SchedLaws.WokenExactly` | kernel/task.c:171-209 | it is runnable right after the dispatch that reaches its wake-up tick |
| `SchedLaws.StepDeadlines` | kernel/task.c:171-209 | no event changes the real-time record of a task but the tick that ends its delay, which sets the deadline to that tick plus the period |
| `SchedLaws.DeadlineOnWaking` | kernel/task.c:192-201 | over runs: a real-time task has, in the state in which it wakes, the deadline one period after that tick |
| `SchedCode.Scheduler.SelectNextTask` | kernel/task.c:435-498 | the loop computes the specified selection |
| `SchedCode.Scheduler.UpdateDelays` | kernel/task.c:171-209 | the traversal counts down every delay, once per distinct tick |
| `SchedCode.Scheduler.EdfSched` | app/rtsched.c:399-437 | the scan loop computes the specified choice |
| `SchedCode.Scheduler.SkipDelayed` | kernel/task.c:591-604 | the retry loop moves on from a delayed task at most ten times |
| `SchedCode.Scheduler.Dispatch` | kernel/task.c:525-617 | the code computes the specified dispatch |
| `SchedCode.Scheduler.Delay` | kernel/task.c:860-874 | the sleep of a running task other than the idle one keeps the scheduler invariant |
| `SchedCode.Scheduler.Dispatcher` | kernel/task.c:509-522 | the tick is counted only for timer interrupts |
| `TaskCacheSpec.FindIsScan` | kernel/task.c:286-310 | lookup through the cache returns what a plain scan returns and keeps the invariant |
| `TaskCacheSpec.FoundIsCached` | kernel/task.c:286-310 | a task that was found is answered from the cache next time |
| `TaskCacheSpec.LastFourCached` | kernel/task.c:120-126 | the cache holds the last four tasks added |
| `TaskCacheSpec.SpawnKeeps` | kernel/task.c:751-796 | the critical section of a spawn and the caching after it each keep list, cache, count and identifiers consistent |
| `TaskCacheSpec.CancelKeeps` | kernel/task.c:812-840 | cancel succeeds iff the task exists, is not the caller and is not running, and removes exactly it; "not found" iff there is no such task; it keeps the invariant unless it cuts a spawn short |
| `TaskCacheSpec.RunsLookUpCorrectly` | kernel/task.c:120-135 | in any run of spawn, lookup and cancel that cancels no task before it is cached, every lookup agrees with a scan and the task count is exact |
| `TaskCacheSpec.CutSpawnBreaks` | kernel/task.c:779-796 | any other cancel has a continuation in which a lookup returns another task |
| `TaskCacheSpec.LookupsStayRightIff` | kernel/task.c:779-840 | an event leaves the lookups right for every such continuation iff it is not a cancel that cuts a spawn short |
| `TaskCacheSpec.CutSpawnReachable` | kernel/task.c:779-840 | such a run from boot |
| `TaskCacheSpec.StartInv` | kernel/task.c:19-28 | the state at boot satisfies the invariant |
| `TaskCacheCode.TaskList.CacheLookup` | kernel/task.c:128-136 | the first valid matching entry |
| `TaskCacheCode.TaskList.FindTaskNodeById` | kernel/task.c:286-310 | the code computes the specified lookup |
| `TaskCacheCode.TaskList.Register` | kernel/task.c:752-779 | with a block not in use, keeps list, cache, count and identifiers consistent |
| `TaskCacheCode.TaskList.Publish` | kernel/task.c:796 | with the identifier of the block, keeps them consistent |
| `TaskCacheCode.TaskList.Cancel` | kernel/task.c:812-840 | the code computes the specified cancel; the list stays well-formed when it holds no block twice, and the invariant is kept when no spawn is cut short |
| `Pipe.ReadChunk` | kernel/pipe.c:44-55 | a contiguous chunk at the head is a prefix of the stored bytes |
| `Pipe.WriteChunk` | kernel/pipe.c:68-80 | a contiguous chunk written at the tail is appended to the stored bytes |
| `Pipe.PipeObject.constructor` | kernel/pipe.c:95-131 | an empty pipe of a power of two between 4 and 32768 bytes: at least the size asked for and less than twice that, within those bounds |
| `Pipe.PipeObject.BulkRead` | kernel/pipe.c:38-59 | takes min(wanted, stored) bytes in order across the wrap, writes only those places of the destination |
| `Pipe.PipeObject.BulkWrite` | kernel/pipe.c:62-83 | appends min(offered, free) bytes in order across the wrap |
| `Pipe.PipeObject.Flush` | kernel/pipe.c:154-162 | empties the pipe |
| `Pipe.PipeObject.NbRead` | kernel/pipe.c:275-288 | fails on a null buffer or length 0, else one bulk read |
| `Pipe.PipeObject.NbWrite` | kernel/pipe.c:290-302 | fails on a null buffer or length 0, else one bulk write |
| `PipeRuns.PutFacts` | kernel/pipe.c:62-83 | a write appends to the stream of added bytes, for its own task only |
| `PipeRuns.RemoveFacts` | kernel/pipe.c:38-59 | a read moves a prefix of the contents to the stream of removed bytes |
| `PipeRuns.StepKeeps` | kernel/pipe.c:154-302 | every chunk of every blocking call, non-blocking call or flush keeps the stream invariant |
| `PipeRuns.RunsKeepTheStream` | kernel/pipe.c:154-302 | in every interleaving bytes added are bytes removed followed by the contents, and each task's bytes are those of its returned calls followed by its current one |
| `PipeRuns.ReaderSeesWriterPrefix` | kernel/pipe.c:223-272 | with one writer, one reader and no flush: what was received, then the contents, is what was written |
| `PipeRuns.ReturnsExactly` | kernel/pipe.c:223-272 | a blocking call returns iff the rest of its length can be moved, and has then moved exactly its length |
| `PipeRuns.BeginMeans` | kernel/pipe.c:223-272 | a blocking call begins unless its length is 0 |
| `PipeRuns.NbWriteMeans` | kernel/pipe.c:290-302 | appends as much as fits and credits it to the caller |
| `PipeRuns.NbReadMeans` | kernel/pipe.c:275-288 | takes as much as there is from the front and credits it to the caller |
| `PipeRuns.FlushMeans` | kernel/pipe.c:154-162 | removes all contents and disturbs no call |
| `PipeRuns.TransferCompletesIff` | kernel/pipe.c:223-272 | under every schedule of writer and reader the message has arrived iff the hand-overs from writer to reader times the capacity reach its length; before that the reader holds exactly that many bytes |
| `PipeRuns.TransferCompletes` | kernel/pipe.c:223-272 | a message of any length passes a pipe of any capacity above 0 under every schedule with one hand-over per byte |
| `PipeRuns.SchedulesRun` | kernel/pipe.c:223-272 | every schedule of the two can be carried out from any state that satisfies the stream invariant |
| `PipeRuns.MessagePasses` | kernel/pipe.c:223-272 | from idle tasks and an empty pipe: the write and the read of a message complete under exactly the schedules with enough hand-overs |
| `MulDiv.ShiftAdd` | arch/riscv/muldiv.c:26-31 | the shift-and-add loop computes the product modulo the word size |
| `MulDiv.Mul32` | arch/riscv/muldiv.c:7-33 | the product modulo 2^32 |
| `MulDiv.MulWide` | arch/riscv/muldiv.c:36-57 | the exact 64-bit product |
| `MulDiv.Mul64` | arch/riscv/muldiv.c:60-80 | the product modulo 2^64 from three partial products |
| `MulDiv.LongDivide` | arch/riscv/muldiv.c:111-127 | normalise-and-subtract yields quotient and remainder, for any word size |
| `MulDiv.DivPower` | arch/riscv/muldiv.c:99-109 | the shift and mask path divides exactly |
| `MulDiv.UDivMod32` | arch/riscv/muldiv.c:83-130 | quotient or remainder; the fixed values for divisor 0 |
| `MulDiv.UDivMod64` | arch/riscv/muldiv.c:235-291 | the same on 64 bits, the 32-bit shortcut included |
| `MulDiv.TruncatingDivision` | arch/riscv/muldiv.c:133-162 | the reference quotient and remainder are the only truncating pair in the sense of section 6.5.5 of C99 |
| `MulDiv.DivMod32` | arch/riscv/muldiv.c:133-162 | that quotient or remainder; INT32_MIN / -1 wraps; the fixed values for divisor 0 |
| `MulDiv.DivMod64` | arch/riscv/muldiv.c:294-324 | the same on 64 bits, quotient and remainder together |
| `Numerals.DigitsDenote` | lib/ctype.c:6-34 | the reference digits of a number denote it |
| `Numerals.DigitCount` | lib/ctype.c:67-78 | a number has at most n digits iff it is below base^n |
| `Ctype.EstimateBounds` | lib/ctype.c:18-23 | for every 32-bit value the shift-only estimate q satisfies 0 <= v - 10q <= 15, with no intermediate overflow |
| `Ctype.DivTen` | lib/ctype.c:18-26 | one correction gives exactly v / 10 and v % 10 |
| `Ctype.StrBase10` | lib/ctype.c:6-34 | the decimal digits, least significant first, and nothing else written |
| `Ctype.Flip` | lib/ctype.c:139-155 | the closing loops terminate and reverse the text in place, converting each character |
| `Ctype.ItoaDecimal` | lib/ctype.c:146-155 | the buffer holds the decimal text and a NUL; a minus sign ends up last |
| `Ctype.ItoaHex` | lib/ctype.c:129-145 | the buffer holds the hexadecimal text of the 32-bit pattern and a NUL; 0 to 15 get a leading zero |
| `CtypeParse.Atoi` | lib/ctype.c:89-118 | blanks, one optional sign, all digits, wrapping at 32 bits |
| `CtypeParse.Strtol` | lib/ctype.c:49-86 | sign, 0x prefix, at most nine letters or digits, wrapping; the end position, on the ninth digit when the loop runs out |
| `CtypeParse.AtoiSigns` | lib/ctype.c:89-118 | a plus sign changes nothing, a minus sign negates |
| `CtypeParse.AtoiSkipsBlank` | lib/ctype.c:97-104 | a leading blank, tab, newline or return changes nothing |
| `CtypeParse.StrtolSign` | lib/ctype.c:54-58 | a minus sign negates, and the end moves with it |
| `CtypeParse.StrtolPrefix` | lib/ctype.c:60-64 | `0x` makes the base 16 whatever was asked for |
| `CtypeParse.StrtolReadsPrefixed` | lib/ctype.c:49-86 | the hexadecimal spelling of every 32-bit pattern is read back, prefix and sign included |
| `CtypeParse.DecimalTextMeans` | lib/ctype.c:120-155 | base-10 `itoa` spells the magnitude and puts a minus sign behind it |
| `CtypeParse.HexTextMeans` | lib/ctype.c:120-145 | base-16 `itoa` spells the 32-bit pattern in two to eight lower-case digits |
| `CtypeParse.AtoiInvertsItoa` | lib/ctype.c:89-155 | `atoi` inverts base-10 `itoa` iff the number is non-negative or INT32_MIN |
| `CtypeParse.StrtolInvertsHex` | lib/ctype.c:49-145 | base-16 `strtol` inverts base-16 `itoa` on every 32-bit integer and stops at the end of the text |
| `CtypeParse.StrtolInvertsDecimal` | lib/ctype.c:49-155 | base-10 `strtol` inverts base-10 `itoa` iff 0 <= i < 10^9; beyond, the last digit is lost; the end is past the digits iff there are fewer than nine |
| `FormatLaws.SignedFieldIsStandard` | lib/stdio.c:252-277 | `%d` follows section 7.19.6.1 of C99 iff it does not pad a negative number with blanks |
| `FormatLaws.AtoiReadsBack` | lib/stdio.c:252-277 | `atoi` reads back every `%d` field, for every width and padding, with exactly that exception |
| `FormatLaws.StringFieldIsStandard` | lib/stdio.c:212-224 | `%s` follows the standard iff there is no width, an exact one, or only blanks to print |
| `FormatLaws.LongPrintsUnsigned` | lib/stdio.c:225-228 | `%ld` prints the unsigned value, so it agrees with `%d` iff the number is non-negative |
| `FormatLaws.ParseWritten` | lib/stdio.c:190-206 | flag, width and conversion are read back as written |
| `FormatLaws.UnsignedText` | lib/stdio.c:225-277 | `%u`, `%x`, `%X`, `%p` and `%l.` with any flag and width: the digits read back in their base as the 32-bit pattern, right-aligned, without needless zeros; `%p` is 8 wide |
| `FormatLaws.SignedText` | lib/stdio.c:234-277 | `%d` with any flag and width: sign, padding and the digits of the magnitude |
| `FormatLaws.PrintedReadsBack` | lib/stdio.c:234-277 | `atoi` reads back what a format of one `%d` prints, with exactly that exception |
| `FormatLaws.StringText` | lib/stdio.c:212-224 | `%s` character by character: the string or `<NULL>`, cut or filled up to the width |
| `FormatLaws.CharacterText` | lib/stdio.c:209-250 | `%c` is the low byte, `%%` a percent sign, an unknown conversion nothing |
| `FormatLaws.LiteralText` | lib/stdio.c:184-189 | a format without directives is its own text |
| `FormatLaws.ParseOfPrefix` | lib/stdio.c:190-250 | a complete directive does not depend on what follows it |
| `FormatLaws.RenderConcat` | lib/stdio.c:184-278 | the text of two formats together is the text of the first followed by that of the second |
| `Stdio.Sink.Put` | lib/stdio.c:142-152 | every character is counted, and written only below the end |
| `Stdio.Sink.PutString` | lib/stdio.c:217-223 | the two loops of `%s` print its field |
| `Stdio.HexDigits` | lib/stdio.c:118-125 | repeated `divide` collects the hexadecimal digits |
| `Stdio.PutNumber` | lib/stdio.c:252-277 | sign, padding and digits of a number field |
| `Stdio.PutDirective` | lib/stdio.c:190-277 | one directive prints its text and consumes its characters and arguments |
| `Stdio.Vsnprintf` | lib/stdio.c:165-292 | for every well-formed format: the first min(length, size - 1) characters of the text, then NUL, nothing else touched; the length returned does not depend on the size; nothing is written for size 0; -1 for a null buffer with a size |

## Left out

- `realloc` and `calloc`: the grow path of `realloc` drops the used bit of the block, so the heap invariant does not survive it.
- HeapAllocator.Allocator.Free: what happens after the check has wrongly accepted a pointer into a payload is not modelled; exactly those pointers are excluded.
- HeapLaws.FreeOutcome: pointers into a payload are left to HeapAllocator.Allocator.CheckBlock, because the chain does not hold the payload words.
- HeapAllocator.Allocator.Init: requires that the words of the rounded-up zone exist.
- TimerCode.TimerSubsystem.Destroy: promises well-formed lists afterwards only from a state that satisfies the timer invariant, with a timer the handler does not hold.
- TimerRuns.StepKeeps: a start or destroy of a timer the handler holds is excluded, because it breaks the state (`TimerRuns.StartHeldBreaks`, `TimerRuns.DestroyHeldBreaks`); unlinking or inserting one node is one step; a preemption between the pointer writes of the handler's list operations is not modelled.
- TaskCacheSpec.StepKeeps: `cache_task` is one step, and what a spawner writes into a freed block is not modelled.
- TimerLaws.FindFastIsScan: identifiers are unbounded; wrap-around of the 16-bit identifier is not modelled (the same holds of `TaskCacheSpec.FindIsScan`).
- SchedLaws.DispatcherKeeps: stack checks and context switching are not part of the state, and tick wrap-around is not modelled.
- Stdio.Vsnprintf: formats that end inside a directive, or whose arguments do not match, are outside the domain; `len` is unbounded.
- PipeRuns.TransferCompletesIff: one writer and one reader; progress while other tasks use the pipe is not stated.
- Timed locks and timed waits, and suspending or cancelling a task that waits or sleeps: these paths do not keep the wait-list invariants.
- Liveness of `mo_cond_wait` when it is preempted between blocking and unlocking; only safety is proved.
- Cooperative scheduling mode, and the deferred timer work done inside `_sched_block`.
- Timer callbacks that call the timer interface again while a batch is being processed.
- Null callbacks and null object pointers.
- Destruction of mutexes, conditions, semaphores, queues and pipes, and the magic-number checks.
- Allocation failure inside other modules: `malloc` never returns NULL for the sizes they request (`HeapLaws.MallocOutcome`).
- Lists inside timers and the task table are sequences there; the pointer form is verified in `LinkedList`, which the mutex and condition objects use. `list_foreach` appears as the loops of its callers.
- `itoa` in bases other than 10 and 16, and the 64-bit shifts: easier members of the same kind.
- `arch/riscv/hal.c`, `boot.c`, `entry.c`, system calls, error tables, boot: hardware access and plumbing.
- The logger, message queues, string and memory routines, random numbers and mathematics: local loops or thin wrappers.
