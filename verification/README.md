# Verified models of the systems labs

This project models the labs of the repository that hold an invariant or a protocol, and proves their central
properties for all inputs and all runs. Run `dafny verify dfyconfig.toml` to check everything.

| files | lab |
|---|---|
| `Digraph` | the path-marking cycle search that the parallel make and the lock manager share |
| `WorkerPool`, `PoolSafety`, `PoolLiveness`, `PoolDeadlock`, `Parmake` | the parallel make: main thread and workers |
| `Drm` | locks that refuse a wait that would close a cycle |
| `Heap`, `HeapMoves`, `Alloc` | the heap allocator |
| `MmuState`, `Mmu`, `MmuRuns` | the memory management unit with its TLB and demand paging |
| `Monitors`, `Barrier`, `BlockingQueue`, `Semamore` | the three monitors |
| `Minixfs` | file reads and writes over direct and indirect blocks |
| `Lookup` | search in a serialized binary search tree, with a cursor and with a pointer |
| `Scheduler`, `ParReduce`, `Vector` | CPU scheduler, reduction by threads, growable vector |
| `Sets` | facts about finite sets |

Objects that the C code changes in place are classes with methods; threads are state machines whose steps are what one
thread does between two points where another can intervene, and a run is an arbitrary list of choices of who moves
next, spurious wake-ups included.

## What the models take from the code, and where they found it different

* **Parallel make, lost wake-up.** `satisfy_rule` tests a dependency's state without the mutex (line 126) and goes to
  sleep only afterwards, so a broadcast can fall in between. The worker machine keeps that gap. `DeadlockIff` gives the
  exact condition: the pool can deadlock if and only if there are at least two workers and some queued rule has a
  dependency. `UninterruptedNeverDeadlocks` shows that the gap is the only cause: whenever check and sleep are not
  separated by a change of the state that is waited for, no run deadlocks. The properties of the results
  (`ScheduleIndependence`, `CommandsAfterDependencies`, `OneSentinel`, `EveryRunIsFinite`) hold for all runs, with the gap.
* **Allocator, one address space.** Headers and payload bytes live in one address space of the model, where writing a
  header destroys the payload bytes and headers it overlaps. That no live byte is ever lost is therefore a theorem.
  The merge after a split (`malloc/alloc.c:214-216`) can never happen, because no two neighbouring blocks are free; this
  is asserted in `Trim`. `realloc` frees `node` where it means `ptr` (line 352); the model makes the meant call.
* **Locks.** `drm_wait` returns with the global mutex held when the caller already owns the lock (lines 95-97). The
  contract of `Wait` says so: the mutex is held afterwards exactly in that case.
* **MMU.** The frame address is shifted right by 12 everywhere, as the write path and `mmu_add_process` do; the read path
  omits it (lines 50 and 68). A denied access to a page that is not resident marks it present without loading it. For
  writes that is harmless, because pages that cannot be written are all zeros; for reads it loses the page, and the
  contract of `Read` gives the exact condition. All segments that the unit gives to a process are readable, so no run meets
  that case.
* **Files.** A write beyond the end of the file leaves what the blocks held in the gap, and a write of no bytes beyond the
  end extends the file; both follow the code.
* **Search in a tree.** The pointer version copies one byte more than the word is long, wherever the node lies
  (lines 56 and 73 of `lookup2.c`); near the end of a mapping whose last page is full that leaves the mapping.
  `FindWithPointer` gives the exact condition, `VersionsAgreeIff` when both versions print the same, and `OverreadOfAFullPage` an input.
* **Vector.** The documentation speaks of the least power of two for the target. `NewCapacity` states exactly that; the cost
  bound is stated for the growth the vector makes by itself, over whole runs of its operations.
* **Reduction.** The base case is folded in once per thread and once more at the end. The parallel result is the plain one
  when it is the identity; `BaseCaseCountsAgain` shows what happens with addition and any other base case.

## Model

| member | source | states |
|---|---|---|
| Digraph.MarkedGraph.Search | parallel_make/parmake.c:25-49 | the recursive search terminates (fewer unmarked vertices), hits exactly when a walk runs into a marked vertex or into itself, and restores the marks on a miss and never adds one on a hit |
| Digraph.MarkedGraph.IsCyclic | deadlock_demolition/libdrm.c:18-46 | from a graph without marks: a hit exactly when a cycle can be reached, and every mark is clear again |
| Digraph.HitsIsCycleReachable | parallel_make/parmake.c:25-49 | what the search looks for without marks is a reachable cycle, both directions |
| Digraph.HitsUp | parallel_make/parmake.c:38-42 | a hit below a neighbour, with the vertex marked, is a hit at the vertex |
| Digraph.HitsDown | parallel_make/parmake.c:38-42 | a hit at an unmarked vertex is a hit below some neighbour |
| Parmake.Make.CollectRules | parallel_make/parmake.c:83-102 | below a goal without a cycle everything reachable is queued once, after its dependencies; nothing else changes |
| Parmake.Make.TakeGoal | parallel_make/parmake.c:190-199 | a cyclic goal fails and queues nothing; any other queues what it reaches |
| Parmake.Make.TakeGoals | parallel_make/parmake.c:190-199 | the state of every rule after all goals is its verdict |
| Parmake.Make.Parmake | parallel_make/parmake.c:185-208 | the queue holds exactly the rules below acyclic goals, in dependency order; failed are exactly the cyclic goals; workers start if and only if a rule is queued |
| Parmake.WantedIsNotRejected | parallel_make/parmake.c:190-199 | no queued rule is a rejected goal |
| Parmake.VerdictNext | parallel_make/parmake.c:190-199 | how one more goal changes the verdicts; it never rejects what is queued |
| PoolSafety.StepInv | parallel_make/parmake.c:104-183 | every step of every worker keeps the pool invariant |
| PoolSafety.RunInv | parallel_make/parmake.c:104-183 | the invariant holds in every reachable state |
| PoolSafety.ScheduleIndependence | parallel_make/parmake.c:104-183 | once all workers have exited, for every graph, worker count and interleaving, each rule's state and number of commands run are those of the sequential recursion |
| PoolSafety.FinalStates | parallel_make/parmake.c:122-174 | once all workers have exited: a rule with a failed dependency fails and runs nothing; a rule that need not run is done and runs nothing; else its commands run up to and with the first that fails, and it is done exactly when none does |
| PoolSafety.CommandsAfterDependencies | parallel_make/parmake.c:122-152 | while a rule's commands run, all its dependencies are done and only one worker has the rule |
| PoolSafety.OneSentinel | parallel_make/parmake.c:181 | there is always exactly one sentinel, in the queue or with one worker, and nobody exits before the last rule is pulled |
| PoolLiveness.StepUsesPotential | parallel_make/parmake.c:104-183 | every step of a worker lowers the potential of the pool |
| PoolLiveness.MovesBounded | parallel_make/parmake.c:104-183 | the number of steps of any run is bounded by the potential spent and the spurious wake-ups |
| PoolLiveness.EveryRunIsFinite | parallel_make/parmake.c:104-183 | a bound on the steps of any run that depends on the rules and workers only |
| PoolLiveness.EarliestNeedNotWait | parallel_make/parmake.c:122-132 | no waiting in a circle: the earliest unfinished rule is queued, or held by a worker with nothing left to wait for |
| PoolLiveness.DeadlockIsLostWakeup | parallel_make/parmake.c:126-130 | a stuck pool has a sleeper whose condition came true without a signal |
| PoolLiveness.UninterruptedNeverDeadlocks | parallel_make/parmake.c:126-130 | with test and sleep as one step, no run deadlocks |
| PoolDeadlock.NeverDeadlocks | parallel_make/parmake.c:122-132 | one worker, or no dependency among the queued rules: no run deadlocks |
| PoolDeadlock.ReachTheGap | parallel_make/parmake.c:126-129 | with two workers and a dependency, a run puts a worker between the test and the sleep while the dependency is still to be finished |
| PoolDeadlock.SleepForEver | parallel_make/parmake.c:126-129 | from there the other workers can finish everything and exit, and the sleeper stays |
| PoolDeadlock.DeadlockIff | parallel_make/parmake.c:126-130 | a deadlock can be reached if and only if there are two workers and a queued rule with a dependency |
| Drm.LockManager.constructor | deadlock_demolition/libdrm.c:49-54 | the graph starts empty and acyclic |
| Drm.LockManager.Init | deadlock_demolition/libdrm.c:49-64 | a new lock without edges |
| Drm.LockManager.Wait | deadlock_demolition/libdrm.c:89-125 | takes a free lock, waits for an owned one, refuses exactly an own lock or a closing cycle; the graph changes accordingly and stays acyclic; the mutex stays held exactly for an own lock |
| Drm.LockManager.Post | deadlock_demolition/libdrm.c:67-86 | only the owner releases, and one waiting thread becomes the owner by turning its edge round |
| Drm.LockManager.AddWaitEdge | deadlock_demolition/libdrm.c:113-122 | the wait edge stays exactly when the graph with it is acyclic |
| Drm.WaitEdgeCycle | deadlock_demolition/libdrm.c:113-114 | a search from the waiting thread is enough: a cycle of the new graph is reachable from it |
| Drm.WaitKeepsOk | deadlock_demolition/libdrm.c:89-125 | waiting keeps one owner a lock, one wait a thread, and no cycle |
| Drm.PostKeepsOk | deadlock_demolition/libdrm.c:67-86 | posting keeps them too, also when an edge is turned round |
| Drm.EveryRunIsOk | deadlock_demolition/libdrm.c:49-125 | they hold in every state of every run of the three calls |
| Drm.SomebodyCanRun | deadlock_demolition/libdrm.c:89-125 | from every waiting thread the graph leads to a thread that owns a lock and waits for none |
| Heap.WritingDestroys | malloc/alloc.c:57-87 | a header written into the heap destroys exactly the payload bytes under it and the headers it overlaps |
| Heap.TotalIsTheHeap | malloc/alloc.c:57-145 | headers and payloads of the blocks add up to the whole heap: no gap and no overlap |
| Heap.BlocksDisjoint | malloc/alloc.c:57-145 | payloads of different blocks share no address, and no header lies in one |
| HeapMoves.UnlinkedFreeLinked | malloc/alloc.c:38-55 | unlinking a node leaves the doubly linked free list of the others |
| HeapMoves.PushedFreeLinked | malloc/alloc.c:82-87 | pushing a node gives the free list with it in front |
| HeapMoves.SplitOk | malloc/alloc.c:57-89 | a split keeps the tiling, both lists, and which blocks are free |
| HeapMoves.MergeOk | malloc/alloc.c:91-115 | so does a merge |
| HeapMoves.GrownOk | malloc/alloc.c:118-145 | so does growth at the tail |
| Alloc.MergedNeighbours | malloc/alloc.c:266-273 | after a merge only the merged block can have a free neighbour |
| Alloc.SplitNeighbours | malloc/alloc.c:209-217 | after a split of a free block only the two parts can be free neighbours |
| Alloc.Allocator.RemoveNode | malloc/alloc.c:38-55 | the free list without the node; block list and payload untouched |
| Alloc.Allocator.BlockSplit | malloc/alloc.c:57-89 | too small a block is left alone; else the block list gains the rest, which leads the free list, and only bytes under the new header go |
| Alloc.Allocator.BlockMerge | malloc/alloc.c:91-115 | the successor leaves both lists and its space joins the block |
| Alloc.Allocator.AddNodeToTail | malloc/alloc.c:118-145 | the heap grows by one used block behind the last |
| Alloc.Allocator.Malloc | malloc/alloc.c:203-226 | keeps the whole heap invariant; a new live block, disjoint from all others, the first fit of the free list, cut to size when more than 64 bytes and a header are left; every live byte kept; the heap grows only when no free block fits |
| Alloc.Allocator.Free | malloc/alloc.c:244-275 | exactly that block is no longer live, all other live bytes kept, neighbours coalesced on both sides; a null pointer and a pointer without a matching header are ignored |
| Alloc.Allocator.Realloc | malloc/alloc.c:322-368 | the four cases of null pointer and zero size; else a block of at least the size with all old bytes in front and all other live blocks kept: the same block when it is large enough, the last one grown in place, any other moved |
| Alloc.Allocator.Poke | malloc/alloc.c:351 | a caller's write inside a live block changes that block only |
| Alloc.Allocator.Stretch | malloc/alloc.c:342-345 | growing the last block in place keeps all its bytes |
| Alloc.CopiedContent | malloc/alloc.c:351 | the bytes memcpy stores are the old ones at the matching addresses |
| MmuState.WithTableOk | ideal_indirection/mmu.c:123-129 | a new page table keeps coherence and the flat memory |
| MmuState.WithPageOk | ideal_indirection/mmu.c:140-146 | a cleared frame for an absent page changes only that page |
| MmuState.WithBytesOk | ideal_indirection/mmu.c:153-163 | a store into a page's frame changes only that page of that process |
| MmuState.EvictedOk | ideal_indirection/mmu.c:142 | an eviction by the kernel, in place, keeps coherence and the flat memory |
| MmuState.RemovedOk | ideal_indirection/mmu.c:258-288 | removing a process keeps coherence and every other process's memory |
| Mmu.StandardSegments | ideal_indirection/mmu.c:188-237 | the segments of a new process in numbers, with their permissions; they start and end on page boundaries and all can be read |
| Mmu.PermittedAddresses | ideal_indirection/mmu.c:193-237 | in numbers, which addresses a new process may write and which it may read |
| Mmu.OneSegmentAPage | ideal_indirection/mmu.c:64 | all addresses of a page belong to the same segment |
| Mmu.Mmu.Translate | ideal_indirection/mmu.c:36-63 | the entry given, from the TLB or not, is the one the two-level walk reaches; the flat memory is kept |
| Mmu.Mmu.PageFault | ideal_indirection/mmu.c:66-79 | an allowed access brings back the saved bytes; a denied one leaves a cleared page; the entry's permission is that of the access |
| Mmu.Mmu.Read | ideal_indirection/mmu.c:18-90 | an allowed read gives the bytes of the flat memory; exactly when each fault is raised; the flat memory changes only when a read is denied on a page not in memory |
| Mmu.Mmu.Write | ideal_indirection/mmu.c:93-167 | an allowed write changes exactly those bytes of that process and marks the entry accessed and dirty; a denied one changes nothing |
| Mmu.Mmu.AddProcess | ideal_indirection/mmu.c:181-256 | a new process has the standard segments and a memory of zeros with a table and frames for the testing segment, the others keep theirs, and the TLB stays coherent |
| Mmu.Mmu.RemoveProcess | ideal_indirection/mmu.c:258-288 | exactly the frames and swap files of that process are given back; other memories and coherence are kept |
| MmuRuns.WriteIsPointwise | ideal_indirection/mmu.c:93-167 | a write as a change of single addresses of one process |
| MmuRuns.Perform | ideal_indirection/mmu.c:18-288 | each of the four calls is a step of the run relation and keeps the unit consistent, its TLB included |
| MmuRuns.StepByte | ideal_indirection/mmu.c:18-288 | what any call does to any byte of any process: only a permitted write of its own, or its removal, changes it |
| MmuRuns.RunRefines | ideal_indirection/mmu.c:18-288 | along every run of calls from a fresh unit each byte of each process is the one last written there, or 0 |
| MmuRuns.RunAnswers | ideal_indirection/mmu.c:18-288 | every call of every run answers as one flat memory a process does: reads in a segment return the bytes last written, across faults, evictions, context switches and other processes |
| MmuRuns.Drive | ideal_indirection/mmu.c:12-288 | a unit that is made and given any admissible calls makes such a run, answers so, and in every state each cached entry belongs to the current process and is the one its walk reaches |
| Barrier.RunInv | critical_concurrency/barrier.c:27-47 | in every run arrivals are times_used times n plus count, and the invariant of the sleepers holds |
| Barrier.NoLostWakeup | critical_concurrency/barrier.c:36-43 | with any number of threads, whoever sleeps unsignalled still has to wait |
| Barrier.LeavesAfterAllArrive | critical_concurrency/barrier.c:39-46 | no thread leaves its generation before all n arrivals of it, over all reuses |
| Barrier.LeavesIffComplete | critical_concurrency/barrier.c:40-46 | with n participants a woken thread leaves exactly when its generation has had all n arrivals, and else sleeps on |
| Barrier.LastArrivalWakesAll | critical_concurrency/barrier.c:34-38 | a caller goes on at once exactly when it is the last of its generation, and then every sleeper is signalled |
| Barrier.ArrivalsAreCalls | critical_concurrency/barrier.c:27-34 | only calls are arrivals, and each is one |
| Barrier.WrapIsHarmless | critical_concurrency/barrier.c:29-43 | with n participants the generation is at most one ahead of a sleeper's, so the wrapped counter decides the wait as the true one would |
| Barrier.SomebodyMoves | critical_concurrency/barrier.c:27-47 | with n participants some thread can always move without a spurious wake-up |
| BlockingQueue.LinkedQueue.Append | critical_concurrency/queue.c:73-86 | the linked list, reached from head to tail in size nodes, gains the value at its end |
| BlockingQueue.LinkedQueue.TakeFirst | critical_concurrency/queue.c:100-110 | the list loses its first value, which is returned |
| BlockingQueue.PushHolding | critical_concurrency/queue.c:64-91 | what a push does on the linked list while it holds the mutex is the push step of the machine: contents, sleep and broadcast |
| BlockingQueue.PullHolding | critical_concurrency/queue.c:93-116 | the same for a pull, with the value it returns |
| BlockingQueue.FirstInFirstOut | critical_concurrency/queue.c:64-116 | in every run, values pulled followed by the contents are the values pushed in lock order, and a positive bound is kept |
| BlockingQueue.ValuesAreConserved | critical_concurrency/queue.c:64-116 | in every run each value was given to a push as often as it was pulled, is queued, or waits with a sleeping pusher; and pulls called are values pulled and pullers asleep |
| BlockingQueue.WokenGoesOn | critical_concurrency/queue.c:67-75 | a woken pusher stores its own value unless the queue is full, a woken puller takes the first one unless it is empty, and else they sleep again |
| BlockingQueue.NoLostWakeup | critical_concurrency/queue.c:64-116 | an unsignalled sleeping pusher sees a full queue, a puller an empty one, and both never happen together |
| Semamore.ValueCounts | critical_concurrency/semamore.c:16-57 | the value is its first value plus posts minus waits and keeps both bounds |
| Semamore.CallsAreConserved | critical_concurrency/semamore.c:28-57 | in every run the waits and posts that were called have gone through, each as what it was called as, or sleep; the value is the difference |
| Semamore.WhoGoesThrough | critical_concurrency/semamore.c:31-34 | a thread goes through exactly when the value is not at its bound, woken or not |
| Semamore.NoLostWakeup | critical_concurrency/semamore.c:28-57 | broadcasts on the edges suffice: unsignalled sleepers really have to wait, and waiters and posters never sleep unsignalled together when the bound is positive |
| Minixfs.File.Write | finding_filesystems/minixfs.c:155-226 | it succeeds exactly when the end is within the limit and the disk has the blocks that are missing, so always in the file's own blocks; a failure keeps all bytes and the size; a success changes exactly the bytes from off on, the size is the larger of the old one and the end, and blocks of other files are untouched |
| Minixfs.File.WriteBytes | finding_filesystems/minixfs.c:185-216 | the loop over direct and indirect blocks is one splice of the flat bytes |
| Minixfs.File.WriteChunk | finding_filesystems/minixfs.c:198-206 | a copy into one block is a splice of the flat bytes at its position |
| Minixfs.File.ChunkLength | finding_filesystems/minixfs.c:191-195 | a chunk is not empty, stays inside its block and the request, and ends at a block boundary unless it is the last |
| Minixfs.File.Read | finding_filesystems/minixfs.c:228-286 | exactly the flat slice, clipped at the size |
| Minixfs.File.ReadBytes | finding_filesystems/minixfs.c:255-280 | the loop joins the pieces of the blocks to the flat slice |
| Minixfs.File.MinBlockcount | finding_filesystems/minixfs.c:179-182 | more blocks, different from all others, in front of which the flat bytes stay; it fails exactly when the disk has too few, the indirect block included |
| Minixfs.LeastBlocks | finding_filesystems/minixfs.c:173-177 | the number of blocks asked for is the least that reaches the end of the write |
| Minixfs.ReadSeesWrites | finding_filesystems/minixfs.c:155-286 | a read gives back what a write stored, and away from it what it gave before |
| Minixfs.Chunk | finding_filesystems/minixfs.c:190-196 | where the next chunk ends, over block boundaries and in the last block |
| Lookup.FindWithCursor | mad_mad_access_patterns/lookup1.c:44-79 | on every file that holds a tree the search ends and reports what the search on the tree does |
| Lookup.FindWithPointer | mad_mad_access_patterns/lookup2.c:50-85 | on every file that holds a tree and for every word: the report of the search on the tree, or a fault exactly when a node on the search path is closer to the end of the mapping than the word's length plus one |
| Lookup.FaultsIff | mad_mad_access_patterns/lookup2.c:56-73 | the search as the pointer version makes it faults exactly under that condition, and else agrees with the search on the tree |
| Lookup.VersionsAgreeIff | mad_mad_access_patterns/lookup2.c:38-88 | both versions print the same if and only if the file is not empty and, in a data file, no search path comes too close to the end of the last page |
| Lookup.RoomIsEnough | mad_mad_access_patterns/lookup2.c:72 | a last page with as much room behind the file as the word is long is enough |
| Lookup.OverreadOfAFullPage | mad_mad_access_patterns/lookup2.c:72 | a file of one full page on which a search leaves the mapping that the cursor version answers |
| Lookup.LookupWithCursor | mad_mad_access_patterns/lookup1.c:29-82 | the format error exactly without the magic bytes, else the tree's answer for every word |
| Lookup.LookupWithPointer | mad_mad_access_patterns/lookup2.c:38-88 | the output of the cursor version, up to the first word whose search leaves the mapping |
| Lookup.SearchIsMembership | mad_mad_access_patterns/lookup1.c:54-79 | on a search tree a word is found with a count and price exactly when some node has them |
| Lookup.NotFoundIsAbsence | mad_mad_access_patterns/lookup1.c:72-73 | not found exactly when no node has the word |
| Lookup.PrefixComparison | mad_mad_access_patterns/lookup1.c:67-69 | comparing with only len + 1 stored bytes has the sign of the full comparison |
| Lookup.OrderIsLexicographic | mad_mad_access_patterns/lookup1.c:52 | the order is that of strcmp: a proper prefix first, else the first byte that differs |
| Lookup.U32Bytes | mad_mad_access_patterns/lookup1.c:60 | an offset or count is read from its four bytes, the lowest first |
| Lookup.LayoutExample | mad_mad_access_patterns/lookup1.c:49-77 | a file of three words, byte by byte, and the tree it holds |
| Lookup.AnswersAt | mad_mad_access_patterns/lookup1.c:43-82 | the report for each word is that of the search for it |
| Lookup.SerializedOnce | mad_mad_access_patterns/lookup2.c:55-73 | a file determines the tree at an offset |
| Scheduler.InsertOrdered | savvy_scheduler/libscheduler.c:71-132 | inserting by the comparer keeps a queue ordered by key, then arrival, with no job in it twice |
| Scheduler.InsertBehindEquals | savvy_scheduler/libscheduler.c:71-132 | a job goes behind all that are not after it |
| Scheduler.Scheduler.NewJob | savvy_scheduler/libscheduler.c:136-150 | the exact new state, with the job behind its equals; every job stays queued, running or gone, once |
| Scheduler.Scheduler.QuantumExpired | savvy_scheduler/libscheduler.c:152-183 | the exact new queue, metadata and accounts of all jobs; unless an unpreempted job stays, a first job of all that need time runs, and none runs only when the queue is empty |
| Scheduler.LeastRuns | savvy_scheduler/libscheduler.c:71-132 | by scheme, in terms of arrival, priority, burst and remaining time: no queued job is before the one that runs |
| Scheduler.RunsToItsBurst | savvy_scheduler/libscheduler.c:162-167 | under FCFS, PRI and SJF the job stays exactly until it had its burst, and then leaves |
| Scheduler.RunsForAQuantum | savvy_scheduler/libscheduler.c:156-161 | under PPRI, PSRTF and RR the time used is taken off, and the job is queued or runs again exactly when it needs more |
| Scheduler.GivenIsStarted | savvy_scheduler/libscheduler.c:176-180 | the job that is given keeps its start, or has this time as its start if it never ran |
| Scheduler.StartStays | savvy_scheduler/libscheduler.c:136-196 | nothing else changes the start of a job |
| Scheduler.StartIsFirstGiven | savvy_scheduler/libscheduler.c:176-180 | in every run the start of a job is the time at which it was first given, so its response time is its first wait |
| Scheduler.Scheduler.Interrupt | savvy_scheduler/libscheduler.c:154-167 | the running job is charged, and put back exactly when it needs more time; without preemption it stays until it had its burst |
| Scheduler.QuantumKeeps | savvy_scheduler/libscheduler.c:152-183 | no metadata, and so no key, changes but of the job that ran and the one that runs |
| Scheduler.EvictedOk | savvy_scheduler/libscheduler.c:156-161 | after the charge remaining and received time make up the burst; no job is lost or doubled |
| Scheduler.PolledOk | savvy_scheduler/libscheduler.c:171-181 | the polled job is a least one, and its time since arrival is what it was queued and given |
| Scheduler.RunAccounts | savvy_scheduler/libscheduler.c:136-196 | after any run of calls, under every scheme, each job's time since arrival is what it was queued and given, and with preemption remaining plus given is its burst |
| Scheduler.Scheduler.JobFinished | savvy_scheduler/libscheduler.c:185-196 | the statistics grow by the time the job really spent in the queue and was given |
| Scheduler.RoundRobinQueue | savvy_scheduler/libscheduler.c:116-119 | under round robin every call puts jobs only at the end of the queue, and a quantum serves its head |
| Scheduler.TurnComes | savvy_scheduler/libscheduler.c:136-196 | in every run of calls under round robin, a job with k ahead of it is the one that quantum k + 1 gives |
| ParReduce.Distribute | teaching_threads/par_reduce.c:51-86 | the chunks are consecutive, cover the list once, and differ in length by at most one |
| ParReduce.TwoLevels | teaching_threads/par_reduce.c:48-105 | with an associative operator and its identity, reducing any chunks and then the results is the plain fold |
| ParReduce.ParReduce | teaching_threads/par_reduce.c:48-110 | for any operator the fold of the folds of even chunks; with an associative one and its identity the plain reduction |
| ParReduce.BaseCaseCountsAgain | teaching_threads/par_reduce.c:82-105 | otherwise, for addition, the base case is counted once more for every thread |
| ParReduce.SumsAgreeIff | teaching_threads/par_reduce.c:82-105 | so for addition the parallel result is the plain one if and only if the base case is 0 |
| Vector.NewCapacity | vector/vector.c:76-87 | the least power of two that is enough |
| Vector.Vector.Reserve | vector/vector.c:221-246 | the same contents in an array of the least sufficient power of two |
| Vector.Vector.PushBack | vector/vector.c:287-296 | the contents gain the element; the array grows only when full, to the least sufficient power; what it costs |
| Vector.Vector.PopBack | vector/vector.c:298-307 | the contents lose the last element, if any, at no cost |
| Vector.Vector.Insert | vector/vector.c:309-329 | the element stands at the position, the rest moved up; what it costs |
| Vector.Vector.Erase | vector/vector.c:332-349 | the element is gone, the rest moved down, at no cost |
| Vector.Vector.Resize | vector/vector.c:155-207 | cut off, or filled up with default elements; what it costs |
| Vector.ChargedPaidFor | vector/vector.c:186-189 | an operation charged as the contracts say keeps all copying below the capacity minus 8 and the capacity below twice the largest size |
| Vector.CopiesAreFew | vector/vector.c:155-349 | over any run of operations from a new vector, all elements copied together are fewer than twice the largest size |

## Left out

- Parallel make: parser, `stat` times and `system` are a fixed oracle per rule; the order in which the parser lists neighbours is any order.
- Parallel make: the queue operations are atomic steps here; the blocking queue has its own model.
- Alloc.Allocator.Poke: stands for what a caller or `memcpy` stores; it models no single function.
- Alloc.Allocator.Malloc: `sbrk` always succeeds and is used only here; alignment and `size_t` overflow are not modelled.
- Alloc.Allocator.Free: double free and foreign pointers are outside; the precondition asks for a header in front of the pointer.
- Alloc.Allocator.Realloc: makes the meant call `free(ptr)` at line 352.
- `calloc`: only the multiplication and `memset` around `malloc`.
- Drm.LockManager.Wait: a thread that already waits makes no call, and the order in which the operating system hands over a lock is any order; `drm_destroy` is left out.
- Mmu.Mmu.Read: fault counters are left out, and the frame shift is the one of the write path.
- MMU: the swap file format, MAX_PROCESS_ID, and the kernel's choice of pages to evict, which is any choice; the kernel saves a page before it takes its frame.
- Monitors: which waiter wakes first is any order; create and destroy only set or free fields.
- Minixfs.File.Write: inode lookup and creation, timestamps and virtual files are left out; the sizes of a block and of the two block lists are parameters, because minixfs.h is not part of this model.
- Minixfs.File.MinBlockcount: the library function is not part of the repository; it takes one free block of the disk at a time, the indirect one together with the first block it lists, and fails when there is none.
- Lookup.FindWithPointer: a copy that leaves the mapping ends the program, whatever may lie behind it; an empty tree has no root at offset 4 and is excluded in both versions.
- Scheduler.Scheduler.QuantumExpired: the queue library is not part of the repository and inserts after equals; times are reals; the driver passes back the running job.
- ParReduce.ParReduce: `reduce` is a left fold from the base case; no thread at all is a division by zero in the source and excluded.
- Vector: `vector_get`, `vector_set`, `vector_front`, `vector_back` and `vector_destroy` would only add easy members.
- Vector.Vector.Reserve: a capacity below the size, which would write past the new array, is excluded; copy constructors and destructors are not modelled.
- Shell, utilities, map-reduce, chat room, networking, password cracker, memory checker, rendezvous, the string exercises and the short pointer exercises: plumbing around system calls, or smaller versions of what is proved here.
