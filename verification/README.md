# A verified model of the teaching kernel and its tools

This project models the parts of the repository that keep state and are hard to get right, and proves what they
are for. Code that updates tables, arrays and counters in place is modelled as classes and loops over arrays. Each
such method is proved equal to a function of the old state, and the theorems are about that function: one call,
several calls together, and every run.

| files | what they model |
|---|---|
| `Arith`, `Bits`, `Bytes`, `Counting`, `Wrappers` | shared facts: products and quotients, powers of two and the kernel's logarithm, bytes and little-endian numbers, counting in sequences, options |
| `BuddyTags`, `BuddyBlocks`, `BuddyHeap` | the buddy page allocator, for any tree height: the usage tags as a tree, where blocks lie in memory, and the allocator on its two arrays |
| `WaitTable`, `Mutex`, `Semaphore` | the waiter table, the blocking mutex with hand-off, the counting semaphore |
| `PipeRing`, `PipeSystem`, `PipeProgress`, `PipeReaders` | the pipe's byte ring, any number of readers and writers over it, interleaved step by step, each writer's order, freedom from deadlock, and what each reader gets |
| `RoundRobin`, `ThreadStates`, `Process`, `Scheduler`, `SchedulerRuns`, `SchedulerHangs` | the two-level round robin as rings, what it does to each thread's state, a process's thread table, the process table, whole runs of creations, removals, switches and thread events, and when a run hangs |
| `BmfsDirectory`, `BmfsDisk`, `BmfsRuns`, `BmfsTool` | the BMFS directory and its search for room, the disk's bytes, whole runs of commands, the utility's commands in place |
| `Distribution`, `Shares`, `Master` | handing files to hashing slaves in batches and collecting their results, as a protocol, slave by slave, and as the master's loops |
| `ModuleImage`, `ModuleLoader` | packing modules behind the kernel, unpacking them at boot, and the kernel's memcpy |
| `Numerals`, `Printing` | numerals in a base and the parser, and the loops that print and read numbers |

Table sizes, the ring length, the tree height and the number of threads, slaves and files are parameters.

How concurrency is modelled. Kernel calls run with interrupts off and `lock` keeps the scheduler from switching, so
a mutex call is one step. A `wait`, `signal`, `writePipe` or `readPipe` is many: the model interleaves the steps of
all threads freely between mutex calls. A queued or parked thread does not move until another one hands it the
mutex or wakes it, and may then run arbitrarily late. `testAndSetLock` is an atomic exchange with 0. A thread is one
number standing for its (process, thread) pair.

What is false in the code, and exactly when it holds instead:

- A block can be too small: 6 pages get a block of 4. The block is big enough if and only if the request is odd or a
  power of two (`SizeBound`, `SixPagesGetFour`).
- A full waiter table breaks the semaphore's balance of value against waiters: of n + 1 waits on n slots the last is
  counted in the value and nowhere else. The balance survives a `wait` if and only if the caller need not park or the
  waiter table has room (`WaitKeepsBalance`, `OneWaitTooMany`).
- The lowest free process slot is not always remembered: fill the table, remove a process, and the next creation
  writes in front of the table. In every run, while processes remain, the slot is remembered if and only if no process
  was removed from a full table since the table was last empty, and a creation goes astray on exactly the other runs
  (`SpaceIsLowestIff`, `DamagedIff`, `FullThenRemove`).
- The search for the next process does not always end, even with a thread ready. A thread other than the main one
  that returns while no other thread of its process is ready leaves the process stuck: the walk for its next thread
  starts at an empty slot that nothing in the ring leads back to. The search ends if and only if the first process in
  ring order that is runnable or stuck is runnable, or there is none of either kind and the current process has not
  just left (`NextThreadEndsIff`, `SearchEndsIff`, `ReadyMakesSwitch`, `StuckIff`). A process that stays stuck stops the
  kernel within as many switches as there are processes (`StuckHangsSoon`, `HangsIff`, `RunHangsIff`,
  `HangsWithReadyThread`).
- A thread that sleeps or is blocked can run on without having been woken: a switch that finds nothing ready goes on
  with the current thread, whatever its state. It happens if and only if no thread is ready and it is the current one
  (`ResumedIff`, `JoinerRunsOn`); but for that, a thread that joined another sleeps exactly as long as the other is
  there (`SleepsWhileThere`).
- BMFS `create` can overlap or lose files. It keeps the directory sound if and only if `CreateSafe` holds: it writes
  nothing; or its name is empty, which writes an end marker, and no file lies behind the first free slot; or it does
  not cut off files (an unmarked directory whose first record is deleted) and there is room, anywhere with an end
  marker and from block 1 on without one. With no room but a deleted record's old extent that looks like room it is
  not safe (`CreateKeepsIff`, `StaleRecordOverlap`, `EmptyNameLosesFile`).
- Loading does not always give the packed modules back. It does if and only if no later module is copied over
  different bytes of an earlier one; modules that fit 0x100000 bytes, but for the last, never are, while a larger one
  may be damaged and may survive (`LoadGivesBackIff`, `LoadGivesBack`, `TooBigIsDamaged`, `TooBigMaySurvive`).
- `itoa` prints the signed numeral if and only if the number is not negative or the base is 10 (`TextIsSignedIff`).

Where code and documentation disagree the model follows the code: BMFS's `create` takes a size in MiB and rounds it
up to blocks of two, while its document speaks of a number of blocks; the document's copy of block 0 in the last
block is reserved but never written.

## Model

| member | source | states |
|---|---|---|
| Bits.Log2 | TP2/Kernel/buddyMemoryAllocator.c:214-223 | the shifting loop gives the floor logarithm, plus one for odd numbers |
| Bits.FloorLog2Bounds | TP2/Kernel/buddyMemoryAllocator.c:214-223 | the logarithm brackets its argument: 2^e <= x < 2^(e+1) |
| BuddyHeap.ChildOffsets | TP2/Kernel/buddyMemoryAllocator.c:115-130 | the odd-corrected logarithm is the exact depth of a node, and base plus (heap size >> divisions) is where its right child starts; the left child starts where the node does |
| BuddyHeap.Heap.constructor | TP2/Kernel/buddyMemoryAllocator.c:9-24 | a fresh heap: every node unused, only the root's base set, all invariants hold |
| BuddyHeap.Heap.Allocate | TP2/Kernel/buddyMemoryAllocator.c:26-41 | the tags afterwards and the address are those of the pure allocation; null exactly when that finds no block or the request is zero or larger than the heap |
| BuddyHeap.Heap.GetPages | TP2/Kernel/buddyMemoryAllocator.c:73-80 | descends as far as the request's logarithm says and returns the chosen block's address |
| BuddyHeap.Heap.GetPagesRecursive | TP2/Kernel/buddyMemoryAllocator.c:82-113 | the recursive descent on the arrays computes the pure allocation, never changes a base once set, and keeps every set base correct |
| BuddyHeap.Heap.SetMemoryBlockDivisionBases | TP2/Kernel/buddyMemoryAllocator.c:115-130 | both children of a node get a base, each equal to the block's address, and no other base changes |
| BuddyHeap.Heap.Free | TP2/Kernel/buddyMemoryAllocator.c:132-147 | for every heap address: result and tags are those of the pure free, all invariants kept |
| BuddyHeap.Heap.FreeMemoryRecursive | TP2/Kernel/buddyMemoryAllocator.c:149-168 | the recursion to the root is the pure climb |
| BuddyHeap.Heap.IsAllocatedPage | TP2/Kernel/buddyMemoryAllocator.c:189-192 | says whether freeing this address would succeed |
| BuddyHeap.Heap.IsAllocatedPageRecursive | TP2/Kernel/buddyMemoryAllocator.c:194-206 | true exactly when the first node in use on the way up is an allocated block that starts at the address |
| BuddyHeap.PagesToAllocate | TP2/Kernel/buddyMemoryAllocator.c:208-212 | the least number of pages that holds the bytes |
| BuddyTags.AllocLeftmost | TP2/Kernel/buddyMemoryAllocator.c:82-113 | allocation below any node fails exactly when no node at the target depth is free, and otherwise takes the leftmost free one |
| BuddyTags.AllocChanges | TP2/Kernel/buddyMemoryAllocator.c:82-113 | what the descent changes: the chosen node and the tags on its path, all of them consistent again below the start |
| BuddyTags.AllocMarks | TP2/Kernel/buddyMemoryAllocator.c:99-112 | what the descent leaves at each node it came through: fully used when the block came from the right half and neither half is half used, half used otherwise |
| BuddyTags.AllocAddsBlock | TP2/Kernel/buddyMemoryAllocator.c:82-113 | allocation keeps every node consistent with its children and adds exactly one live block |
| BuddyTags.ReleaseRemovesBlock | TP2/Kernel/buddyMemoryAllocator.c:132-168 | clearing the tag of any page of a live block and climbing removes exactly that block and keeps all nodes consistent |
| BuddyTags.ReleaseUndoesAlloc | TP2/Kernel/buddyMemoryAllocator.c:132-168 | release after allocation gives back the very same tag array |
| BuddyTags.ClimbRestores | TP2/Kernel/buddyMemoryAllocator.c:149-168 | the climb rebuilds a path of consistent tags whatever it held before |
| BuddyTags.LiveAntichain | TP2/Kernel/buddyMemoryAllocator.c:82-113 | no live block lies above another |
| BuddyTags.NoLiveAllUnused | TP2/Kernel/buddyMemoryAllocator.c:149-168 | when no block is live every node is unused |
| BuddyTags.OwnerIsBlock | TP2/Kernel/buddyMemoryAllocator.c:194-206 | climbing from a page through unused nodes stops at the one live block that contains the page |
| BuddyBlocks.OffsetClosedForm | TP2/Kernel/buddyMemoryAllocator.c:115-130 | halving down from the root puts node n at (n - 2^depth) blocks of its size from the heap's start |
| BuddyBlocks.BlockInHeap | TP2/Kernel/buddyMemoryAllocator.c:115-130 | every block lies inside the heap, aligned to its own size |
| BuddyBlocks.OverlapIffAbove | TP2/Kernel/buddyMemoryAllocator.c:82-113 | two blocks share a page if and only if one node is above the other |
| BuddyBlocks.FreeIffNoOverlap | TP2/Kernel/buddyMemoryAllocator.c:82-113 | a node's tags say free if and only if no live block shares a page with it |
| BuddyBlocks.AllocateTheorem | TP2/Kernel/buddyMemoryAllocator.c:26-113 | a request fails exactly when every block of the chosen size overlaps a live one; otherwise the new block overlaps none and has the lowest address of all such |
| BuddyBlocks.FreeTheorem | TP2/Kernel/buddyMemoryAllocator.c:132-147 | for any heap address, free succeeds exactly on the first byte of a live block and removes just that block; otherwise nothing changes |
| BuddyBlocks.FreeUndoesAllocate | TP2/Kernel/buddyMemoryAllocator.c:132-168 | freeing the address just returned restores the whole usage array |
| BuddyBlocks.SizeBound | TP2/Kernel/buddyMemoryAllocator.c:73-80 | the chosen block holds the request if and only if the request is odd or a power of two, is always smaller than twice the request, and always more than half of it |
| BuddyBlocks.BlockForRequest | TP2/Kernel/buddyMemoryAllocator.c:73-80 | the block a request gets, exactly: for an even number of pages the largest power of two not above it, for an odd one the smallest not below it |
| BuddyBlocks.FreshHeapServes | TP2/Kernel/buddyMemoryAllocator.c:26-28 | requests for no pages or more than the heap has never change anything, and on a fresh heap all others are served |
| BuddyBlocks.SixPagesGetFour | TP2/Kernel/buddyMemoryAllocator.c:73-80 | the failing case: six pages are served with a block of four |
| BuddyBlocks.RunSafety | TP2/Kernel/buddyMemoryAllocator.c:26-168 | in every run of allocations and frees, live blocks are pairwise disjoint, aligned and inside the heap |
| BuddyBlocks.RunCoalesces | TP2/Kernel/buddyMemoryAllocator.c:132-168 | a run that leaves nothing live leaves the initial tags, and the whole heap can be allocated at once |
| BuddyBlocks.ServeOk | TP2/Kernel/buddyMemoryAllocator.c:26-168 | the tag invariant holds after every run |
| WaitTable.NextListIndexAvailable | TP2/Kernel/mutex.c:104-114 | the first unused slot, or the length of the table |
| WaitTable.FillSlot | TP2/Kernel/mutex.c:116-127 | a thread put in a free slot is the only new one, occupies one slot, and the count grows by one |
| WaitTable.ClearSlot | TP2/Kernel/mutex.c:189-196 | clearing a slot takes out just its thread |
| Mutex.KernelMutex.constructor | TP2/Kernel/mutex.c:83-95 | a cleared mutex is unlocked with no waiters |
| Mutex.KernelMutex.MutexDown | TP2/Kernel/mutex.c:136-164 | the state and outcome of a down: acquired, queued, or refused by a full table |
| Mutex.KernelMutex.TestAndSetLock | TP2/Kernel/asm/libasm.asm:82-88 | exchanges the lock word with 0 |
| Mutex.KernelMutex.AddToBlocked | TP2/Kernel/mutex.c:116-127 | the caller goes to the first unused slot, if there is one |
| Mutex.KernelMutex.MutexUp | TP2/Kernel/mutex.c:166-178 | only the holder's up has an effect: it hands over to a waiter or unlocks |
| Mutex.KernelMutex.UnlockProcess | TP2/Kernel/mutex.c:180-202 | the first waiter becomes owner and leaves the table; the lock word does not change |
| Mutex.KernelMutex.Drain | TP2/Kernel/mutex.c:60-63 | the drain loop of a release ends, wakes each waiter exactly once and leaves the table empty |
| Mutex.DownKeeps | TP2/Kernel/mutex.c:136-164 | a down by a thread outside keeps mutex and threads in agreement |
| Mutex.UpKeeps | TP2/Kernel/mutex.c:166-202 | an up by the holder keeps them in agreement and wakes only a waiting thread |
| Mutex.AgreementIsSafe | TP2/Kernel/mutex.c:136-202 | agreement implies mutual exclusion, no waiter at an unlocked mutex, and that up wakes a thread exactly if one waits, with the mutex still locked and now owned by it |
| Mutex.DownOutcome | TP2/Kernel/mutex.c:136-164 | a down acquires exactly when no thread is inside, is refused exactly when one is and the table is full, and otherwise queues the caller in the lowest free slot |
| Mutex.UpServesLowest | TP2/Kernel/mutex.c:180-202 | the waiter that is served is the one in the lowest slot, which is cleared |
| Mutex.OutsiderUp | TP2/Kernel/mutex.c:166-178 | an up by a thread that is not inside has no effect |
| Mutex.WaiterOvertaken | TP2/Kernel/mutex.c:180-202 | so the table is no queue: a thread that comes later can get the mutex first |
| Mutex.RunAgrees | TP2/Kernel/mutex.c:136-202 | mutex and threads agree in every state of every run |
| Mutex.RunIsSafe | TP2/Kernel/mutex.c:136-202 | in every run at most one thread is inside, an unlocked mutex has no waiter or holder, and the count of waiters is the number of occupied slots |
| Semaphore.KernelSemaphore.constructor | TP2/Kernel/semaphore.c:95-103 | an empty semaphore of value 0 |
| Semaphore.KernelSemaphore.SetValue | TP2/Kernel/semaphore.c:172-181 | only the value changes |
| Semaphore.KernelSemaphore.WaitFor | TP2/Kernel/semaphore.c:132-156 | the state and outcome of a wait: passed, parked, or refused by a full table |
| Semaphore.KernelSemaphore.AddToSemaphoreBlocked | TP2/Kernel/semaphore.c:112-123 | the caller goes to the first unused slot, if there is one |
| Semaphore.KernelSemaphore.SignalOne | TP2/Kernel/semaphore.c:158-170 | wakes the first waiter, if any, and adds one to the value either way |
| Semaphore.KernelSemaphore.UnlockSemaphoreProcess | TP2/Kernel/semaphore.c:183-203 | the first occupied slot is emptied and its thread returned |
| Semaphore.KernelSemaphore.RemoveThreads | TP2/Kernel/semaphore.c:216-225 | the kill-time loop removes exactly the victims and gives back one unit for each |
| Semaphore.WaitKeepsBalance | TP2/Kernel/semaphore.c:132-156 | waiters equal to the units below zero is kept by wait if and only if the value was positive or the table had room |
| Semaphore.OneWaitTooMany | TP2/Kernel/semaphore.c:132-156 | the failing case for every table size n: of n + 1 waits on a semaphore of value 0 the last is refused and the value is one lower than the waiters account for |
| Semaphore.WaitOutcome | TP2/Kernel/semaphore.c:132-156 | a wait passes exactly when the value was positive, is refused exactly when it was not and the table is full, and otherwise parks the caller in the lowest free slot |
| Semaphore.SignalServesLowest | TP2/Kernel/semaphore.c:158-203 | the waiter that is woken is the one in the lowest slot, which is cleared |
| Semaphore.SignalKeepsBalance | TP2/Kernel/semaphore.c:158-170 | signal keeps that balance and wakes a thread exactly when the value was negative |
| Semaphore.EvictKeepsBalance | TP2/Kernel/semaphore.c:216-251 | the removal loops keep it, raise the value by the number removed, and touch no other slot |
| Semaphore.Conservation | TP2/Kernel/semaphore.c:112-251 | in every run without overflow: value = initial + signals - waits + removed, and completed waits never exceed initial + signals |
| PipeRing.StoreKeeps | TP2/Kernel/pipes.c:86-86 | storing a byte overwrites no unread byte |
| PipeRing.AdvanceWriteKeeps | TP2/Kernel/pipes.c:88-92 | moving the write index on, wrapping past the last cell, appends the stored byte to what the ring holds |
| PipeRing.AdvanceReadKeeps | TP2/Kernel/pipes.c:118-123 | moving the read index on takes the oldest unread byte |
| PipeRing.KernelRing.constructor | TP2/Kernel/pipes.c:23-26 | an empty ring of capacity + 1 cells |
| PipeRing.KernelRing.Put | TP2/Kernel/pipes.c:86-92 | the writer's critical section is a store and an advance |
| PipeRing.KernelRing.Take | TP2/Kernel/pipes.c:115-123 | the reader's critical section is a load and an advance |
| PipeSystem.NextKeeps | TP2/Kernel/pipes.c:83-127 | every step of every thread keeps the invariant that ties mutexes, semaphores, ring and threads together |
| PipeSystem.WakeKeeps | TP2/Kernel/semaphore.c:158-203 | waking hands the permit over: the woken thread holds it before it runs, and before the value is raised |
| PipeSystem.AdmitKeeps | TP2/Kernel/semaphore.c:139-154 | the test after the decrement parks the caller or gives it a permit, and the accounts still agree |
| PipeSystem.AdvanceKeeps | TP2/Kernel/pipes.c:86-123 | a writer that gets to advance has room, and a reader gets the oldest unread byte |
| PipeSystem.PermitMeansRoom | TP2/Kernel/pipes.c:84-112 | a thread that holds a permit, woken or not, is sure of a free cell or an unread byte |
| PipeSystem.ParkedMeansClaimed | TP2/Kernel/semaphore.c:132-170 | no lost wake-up: while a thread is parked all the room there is has been claimed by permits on their way and signals owed |
| PipeSystem.InsideIsUnique | TP2/Kernel/mutex.c:136-178 | only one thread is inside each of the three mutexes |
| PipeSystem.RunKeeps | TP2/Kernel/pipes.c:73-129 | the invariant holds after every run of any readers and writers |
| PipeSystem.RunIsFifo | TP2/Kernel/pipes.c:73-129 | in every interleaving the bytes read are a prefix of those written, the rest never exceeds the capacity, and each unread byte is untouched in its own cell |
| PipeProgress.MoveFrame | TP2/Kernel/pipes.c:83-127 | a step changes nothing, or advances its own thread along writePipe or readPipe and hands a mutex or a permit to a waiting one |
| PipeProgress.WritersInOrder | TP2/Kernel/pipes.c:73-98 | in every run each byte in the pipe came from one writer, and each writer's bytes are there once each in the order it handed them over, but for those it still has to write |
| PipeReaders.ReadersGetWhatTheyAsk | TP2/Kernel/pipes.c:104-129 | in every run each byte that went out went to one reader, each reader's buffer holds its share of those bytes in the order they were written, and a reader back from its calls got exactly as many bytes as they asked for |
| PipeProgress.StuckMeansBlocked | TP2/Kernel/pipes.c:83-127 | when no thread can move, each is between two calls or blocked on a semaphore with no room or no data |
| PipeProgress.NoDeadlock | TP2/Kernel/pipes.c:83-127 | while a thread has work and there is room or data for it, some thread can move |
| PipeProgress.RunNeverLocks | TP2/Kernel/pipes.c:73-129 | the same in every run of at most as many threads as the waiter tables have slots |
| PipeSystem.StepIsQueueStep | TP2/Kernel/pipes.c:83-127 | each step refines a bounded queue: no change, one byte added when not full, or the first byte taken |
| RoundRobin.SwitchOk | TP2/Kernel/scheduler.c:26-53 | a switch whose search ends keeps both levels of rings well formed, and the current process is in the ring again |
| RoundRobin.SwitchRunsOne | TP2/Kernel/scheduler.c:36-51 | after a switch exactly one thread in the system runs: the current process's current thread |
| RoundRobin.SwitchPicksReady | TP2/Kernel/scheduler.c:44-51 | the thread picked was ready if and only if some thread was |
| ThreadStates.SwitchShows | TP2/Kernel/scheduler.c:36-51 | a switch sets the thread it picks running and the one that was running ready, unless it is the same, and touches no other |
| ThreadStates.ResumedIff | TP2/Kernel/scheduler.c:44-51 | a thread neither ready nor running gets the processor if and only if no thread is ready and it is the current one |
| ThreadStates.JoinSleeps | TP2/Kernel/threads.c:83-89 | joining a thread that is there puts the caller to sleep on it; joining any other has no effect |
| ThreadStates.EndShows | TP2/Kernel/threads.c:20-42 | the end of a thread, the current one or another, takes it out, wakes exactly those that joined it, and touches no other |
| ThreadStates.SleepsWhileThere | TP2/Kernel/threads.c:72-89 | over every run in which nobody else changes it and each switch finds a ready thread, a thread that joined another is asleep as long as that is there and ready, or picked since, once it has ended |
| ThreadStates.JoinerRunsOn | TP2/Kernel/scheduler.c:44-51 | the failing case: the only process's running thread joins a blocked one, and the next switch lets it run on |
| ThreadStates.NewThreadFirst | TP2/Kernel/process.c:92-97 | an added thread is the next its process picks |
| ThreadStates.NewProcessFirst | TP2/Kernel/scheduler.c:83-88 | an added process is the one the next switch picks |
| RoundRobin.SwitchBringsCloser | TP2/Kernel/scheduler.c:44-51 | each switch that passes a ready thread over brings its process closer, or picks its process and brings the thread closer there |
| RoundRobin.BoundedWaiting | TP2/Kernel/scheduler.c:26-53 | as long as every search ends, a thread that stays ready sees fewer than (processes) x (threads of its process) switches, while others block, sleep, join, end (the current one of a process too) or leave |
| RoundRobin.WaitIsBounded | TP2/Kernel/threads.c:57-70 | the same with the exact measure: ring distances of thread and process |
| RoundRobin.UnstuckGoesOn | TP2/Kernel/scheduler.c:44-46 | every search ends while a thread stays ready and no process gets stuck |
| RoundRobin.ReadyMakesSwitch | TP2/Kernel/scheduler.c:44-46 | while some thread is ready the search ends if and only if a runnable process comes up in ring order with no stuck one before it, so always when no process is stuck, even if the current process was just unlinked |
| RoundRobin.StuckIff | TP2/Kernel/process.c:52-54 | the end of a process's current thread leaves it stuck if and only if no other thread is ready or asleep until just that thread ends |
| RoundRobin.StuckHangsSoon | TP2/Kernel/threads.c:57-63 | while a process stays stuck each switch that ends brings it closer and none gets past it, so fewer switches end than there are processes, whatever other threads are ready |
| RoundRobin.RunKeepsOneRunning | TP2/Kernel/scheduler.c:31-52 | over every run of switches, state changes, joins, removals, ends of threads (the current one of a process too) and new processes and threads at most one thread is running |
| RoundRobin.StepOk | TP2/Kernel/scheduler.c:75-94 | new processes and new threads, and all other events, keep the rings well formed |
| RoundRobin.ApplyOk | TP2/Kernel/threads.c:20-42 | switches, state changes, joins, removals and ended threads keep the rings well formed; a process whose current thread has ended keeps its mark on the empty slot |
| RoundRobin.EventKeepsPlace | TP2/Kernel/threads.c:32-41 | other events do not push a waiting thread back |
| Process.KernelProcess.constructor | TP2/Kernel/process.c:16-20 | a process starts with its main thread alone in the ring |
| Process.KernelProcess.NextThread | TP2/Kernel/threads.c:57-70 | the first ready thread after the current one, which comes last, becomes current, also from the slot of a thread that has just ended; -1 and no change when none is ready and the current one is there |
| Process.NextThreadEndsIff | TP2/Kernel/threads.c:57-63 | the loop over the links stops after some number of rounds if and only if the process is not stuck |
| Process.KernelProcess.SetThreadState | TP2/Kernel/threads.c:91-97 | only the named thread's state changes |
| Process.KernelProcess.FirstAvailableThreadSpace | TP2/Kernel/process.c:103-110 | the lowest free thread slot |
| Process.KernelProcess.AddNewThread | TP2/Kernel/process.c:87-101 | the new thread goes to the lowest free slot and comes next in the ring; -1 exactly when the table is full |
| Process.KernelProcess.TerminateThread | TP2/Kernel/threads.c:20-42 | a thread leaves ring and table and its joiners become ready, the current one too, whose mark then stays on its empty slot; ending the main thread kills the process instead; nothing changes when the thread is not there |
| Process.KernelProcess.Unlink | TP2/Kernel/threads.c:38-40 | pointing the predecessor past the slot takes just it out of the ring |
| Process.KernelProcess.UnlockWaitingThreads | TP2/Kernel/threads.c:72-81 | exactly the threads asleep on the ended one become ready |
| Process.KernelProcess.JoinThread | TP2/Kernel/threads.c:83-89 | the caller sleeps on the other thread if there is one |
| Process.UnlinkOk | TP2/Kernel/threads.c:32-41 | unlinking keeps one cycle over the remaining threads; the current thread stays current, or, if it was the one unlinked, its slot still leads into the cycle |
| Scheduler.KernelScheduler.constructor | TP2/Kernel/scheduler.c:7-24 | an empty table |
| Scheduler.KernelScheduler.NextProcess | TP2/Kernel/scheduler.c:26-53 | under the lock only a note that a switch is due; otherwise the switch |
| Scheduler.KernelScheduler.SwitchNow | TP2/Kernel/scheduler.c:36-51 | following the links from slot to slot performs exactly the switch on rings |
| Scheduler.KernelScheduler.Search | TP2/Kernel/scheduler.c:44-46 | the walk ends, at the first process with a ready thread in ring order, or back at the current one |
| Scheduler.SearchEndsIff | TP2/Kernel/scheduler.c:44-46 | the loop over the links stops after some number of rounds if and only if the first process in ring order that is runnable or stuck is runnable, or there is none of either kind and the current process is linked |
| Scheduler.KernelScheduler.Lock | TP2/Kernel/scheduler.c:350-352 | switching is off |
| Scheduler.KernelScheduler.Unlock | TP2/Kernel/scheduler.c:354-359 | switching is on again and a switch that fell due meanwhile happens, once |
| Scheduler.KernelScheduler.AddProcess | TP2/Kernel/scheduler.c:75-94 | the process comes right after the current one, in slot 0 of an empty table and in the remembered free slot otherwise; the lowest free slot is remembered; a full table is left alone; with room but no slot remembered the source goes astray, and only then |
| Scheduler.KernelScheduler.CreateProcess | TP2/Kernel/process.c:7-29 | every process gets a pid above all those in use, so pids stay distinct, and joins the ring when there is room |
| Scheduler.KernelScheduler.FindFirstAvailableSpace | TP2/Kernel/scheduler.c:130-137 | the lowest free slot, or the limit marker |
| Scheduler.KernelScheduler.RemoveProcess | TP2/Kernel/scheduler.c:96-128 | the process with the pid leaves ring and table, no other does; a switch is asked for exactly when it was the current one and others remain; nothing changes when the pid is unknown |
| Scheduler.KernelScheduler.FindLink | TP2/Kernel/scheduler.c:111-116 | the walk finds the process with the pid and the slot that links to it, or every live pid differs |
| Scheduler.KernelScheduler.GetProcessIndex | TP2/Kernel/scheduler.c:199-211 | finds a pid exactly when a live process has it, and its slot |
| Scheduler.LowerSpaceIsLowest | TP2/Kernel/scheduler.c:123-123 | lowering the remembered slot to the one freed keeps it the lowest free slot if and only if there was a free one |
| Scheduler.RemovalKeepsSpace | TP2/Kernel/scheduler.c:118-123 | when the lowest free slot or none is remembered, a removal leaves the lowest free slot remembered if and only if one was, and none otherwise; none is the lowest free slot only of a full table |
| Scheduler.RemovedOk | TP2/Kernel/scheduler.c:118-122 | removal keeps the rings, the distinct pids and the count, also when the current process leaves |
| Scheduler.InsertedOk | TP2/Kernel/scheduler.c:83-88 | insertion after the current slot keeps them too |
| Scheduler.QuantityIsOccupancy | TP2/Kernel/scheduler.c:78-78 | the process count reaches the table size exactly when no slot is free |
| SchedulerRuns.RunOk | TP2/Kernel/scheduler.c:75-128 | in every run of creations, removals, switches, locking and thread events, the end of a current thread among them, the table stays one cycle of exactly its processes, each a cycle of its threads, with distinct pids and the current process on it |
| SchedulerRuns.SwitchKeepsProcesses | TP2/Kernel/scheduler.c:26-53 | a switch moves no process, so the lowest free slot stays |
| SchedulerRuns.CreationTakesLowest | TP2/Kernel/scheduler.c:78-91 | a creation with room, in a kernel that remembers it, puts the new process in the lowest free slot and touches no other |
| SchedulerRuns.CreationRunsNext | TP2/Kernel/scheduler.c:83-91 | and the next switch runs its main thread |
| SchedulerRuns.RemovalTakesOne | TP2/Kernel/scheduler.c:96-128 | a removal takes out the process with the pid, and every other stays in its slot |
| SchedulerRuns.PidsCount | TP2/Kernel/process.c:11-11 | in every run the next pid is one more than the number of creations, served or not, so none is given twice |
| SchedulerRuns.DamagedIff | TP2/Kernel/scheduler.c:118-123 | the mark of damage means that some process was removed from a full table and the table was never empty since |
| SchedulerRuns.SpaceIsLowestIff | TP2/Kernel/scheduler.c:82-128 | in every run, while processes remain, the remembered slot is the lowest free one if and only if there was no such removal, and the next creation goes astray on exactly the other runs |
| SchedulerRuns.FullThenRemove | TP2/Kernel/scheduler.c:82-128 | the failing case for every table of at least two slots: fill it, remove a process, create one |
| SchedulerRuns.LockDefersSwitch | TP2/Kernel/scheduler.c:350-359 | however many switches fall due under the lock, the run is the one with none of them before the unlocking and one right after it |
| SchedulerHangs.HangsIff | TP2/Kernel/scheduler.c:44-46 | a switch, an unlocking or the removal of the current process hangs if and only if the first process in ring order that is runnable or stuck is stuck, or there is none of either kind and the current process has just left; nothing else hangs |
| SchedulerHangs.RunHangsIff | TP2/Kernel/scheduler.c:26-53 | a run hangs if and only if one of its commands makes such a search |
| SchedulerHangs.HangsIffLoopsForEver | TP2/Kernel/scheduler.c:44-46 | and that is exactly when the loop over the table's links stops after no number of rounds |
| SchedulerHangs.HangsWithReadyThread | TP2/Kernel/process.c:52-54 | the failing case: of two processes one's spawned thread returns while its main thread is blocked; the other has its turn, and the next switch hangs although that one is ready |
| SchedulerRuns.Execute | TP2/Kernel/scheduler.c:26-128 | the methods on the process table carry out any such run that does not hang, with the invariant and all fields as the run says, until it goes astray |
| BmfsTool.Tool.FindFile | TP2/Bootloader/BMFS/bmfs.c:203-229 | the first live record before the end marker with the name, or none |
| BmfsTool.Tool.CountRecords | TP2/Bootloader/BMFS/bmfs.c:634-649 | how many records precede the marker (0 without one) and the first slot that holds no file |
| BmfsTool.Tool.FindArea | TP2/Bootloader/BMFS/bmfs.c:661-683 | the search loop with its 64-bit arithmetic |
| BmfsTool.Tool.Create | TP2/Bootloader/BMFS/bmfs.c:608-717 | for any name, empty ones included, and any size: the directory becomes the one the pure create gives, and is written to disk if it changed |
| BmfsTool.Tool.PutRecord | TP2/Bootloader/BMFS/bmfs.c:691-704 | the record goes to its slot, and the next one is marked as the end if this was the marker's |
| BmfsTool.Tool.Delete | TP2/Bootloader/BMFS/bmfs.c:800-819 | the file's record is marked deleted, keeping its extent, and the directory is written |
| BmfsTool.Tool.Write | TP2/Bootloader/BMFS/bmfs.c:752-797 | the byte loop, the new size and the flush together are the pure store; nothing happens when the file is unknown or its blocks are too few |
| BmfsTool.Tool.Read | TP2/Bootloader/BMFS/bmfs.c:720-749 | returns exactly the file's contents |
| BmfsTool.Tool.FlushDirectory | TP2/Bootloader/BMFS/bmfs.c:706-708 | only the directory's place on disk is overwritten, with its encoding |
| BmfsDirectory.FirstFit | TP2/Bootloader/BMFS/bmfs.c:657-683 | with a marker and any order qsort may leave: the lowest block with enough room among all blocks is chosen whenever there is one; with none, nothing is chosen if and only if no deleted record's old extent looks like room |
| BmfsDirectory.SearchStale | TP2/Bootloader/BMFS/bmfs.c:670-682 | past the files the search tries the end of each deleted record's old extent and fails exactly when none fits |
| BmfsDirectory.CreateKeepsIff | TP2/Bootloader/BMFS/bmfs.c:633-704 | whatever the name, create keeps extents disjoint, off the reserved blocks, names unique and every file in place if and only if it was safe, for marked and unmarked directories |
| BmfsDirectory.EmptyNameLosesFile | TP2/Bootloader/BMFS/bmfs.c:692-704 | the failing case for the empty name: a file behind the first free slot is lost, where another name would have been safe |
| BmfsDirectory.CreateRecords | TP2/Bootloader/BMFS/bmfs.c:691-704 | with room, the file is found in the first free slot with the blocks it asked for at the lowest place, and no other record in use changes |
| BmfsDisk.CreateReserves | TP2/Bootloader/BMFS/bmfs.c:613-618 | a safe create that records a file reserves the fewest blocks that hold the MiB asked for |
| BmfsDisk.CreateRefusedIff | TP2/Bootloader/BMFS/bmfs.c:613-689 | create leaves the directory alone if and only if the name is in use, no slot is free, or the search finds no place for just that many blocks |
| BmfsRuns.CreateThenPut | TP2/Bootloader/BMFS/bmfs.c:608-797 | after creating a file of so many MiB, writing up to that many bytes stores them and a read gives them back |
| BmfsDirectory.StaleRecordOverlap | TP2/Bootloader/BMFS/bmfs.c:670-682 | the failing case: with no room left a deleted record makes create overlap a file |
| BmfsDirectory.DeleteRemoves | TP2/Bootloader/BMFS/bmfs.c:800-819 | delete removes just the named file and its blocks become room; its record keeps the extent, the size and all of the name but the first character |
| BmfsDirectory.DeleteUndoesCreate | TP2/Bootloader/BMFS/bmfs.c:608-819 | create then delete gives back the same files and the same room for every size and place |
| BmfsDirectory.RunOk | TP2/Bootloader/BMFS/bmfs.c:608-819 | from a formatted disk, any run of deletes and safe creates keeps files disjoint and off the first and last block |
| BmfsDisk.DirectoryRoundTrip | TP2/Bootloader/BMFS/bmfs.c:11-18 | reading back the 64-byte records that were written gives the same directory |
| BmfsDisk.RecordLayout | TP2/Bootloader/BMFS/bmfs.c:11-18 | record i lies at 64 * i: the name and its terminator from 0, start, reserved blocks and size little-endian from 32, 40 and 48 |
| BmfsDisk.StoreThenFetch | TP2/Bootloader/BMFS/bmfs.c:720-797 | write then read returns exactly the bytes written, whenever they fit the reserved blocks |
| BmfsDisk.StoreKeepsOthers | TP2/Bootloader/BMFS/bmfs.c:780-791 | a write leaves every other file's record and contents, and all bytes of the reserved blocks outside the directory, as they were |
| BmfsDisk.CreateKeepsContents | TP2/Bootloader/BMFS/bmfs.c:608-717 | a safe create adds an empty file or changes nothing, and no file's contents change |
| BmfsDisk.DeleteKeepsContents | TP2/Bootloader/BMFS/bmfs.c:800-819 | a deleted file cannot be read and no other file's contents change |
| BmfsRuns.StepIsEffect | TP2/Bootloader/BMFS/bmfs.c:608-819 | each safe create, delete or write keeps the disk well-formed and has its effect on the contents of its own file and on no other |
| BmfsRuns.RunReadsLastWrite | TP2/Bootloader/BMFS/bmfs.c:608-819 | after every safe run of creates, deletes and writes each file reads as what was last written to it, as in a table by name |
| BmfsRuns.FormattedOk | TP2/Bootloader/BMFS/bmfs.c:258-268 | a formatted disk is well-formed and holds no file |
| Master.MasterProcess.constructor | TP1/applicationLib.c:33-81 | slaves start running with nothing sent |
| Master.MasterProcess.SendBatch | TP1/applicationLib.c:88-97 | an idle slave gets up to a batch, a busy one nothing |
| Master.MasterProcess.DistributeFiles | TP1/applicationLib.c:83-102 | one pass over the slaves; those reached after the last file are stopped |
| Master.MasterProcess.SlaveListener | TP1/applicationLib.c:3-31 | one line is taken from every ready slave that has one |
| Master.MasterProcess.StopSlaves | TP1/applicationLib.c:120-126 | every slave not stopped before gets its stop message |
| Master.MasterProcess.HashAll | TP1/application.c:45-60 | the whole program, for any answers of select that let the loop end, finishes every file and performs the protocol's run |
| Distribution.NeverWaitsInVain | TP1/application.c:49-54 | select is never reached with files unfinished and no slave having one |
| Distribution.RoundKeeps | TP1/application.c:49-54 | each turn keeps the invariant: distributed - finished is the sum of what slaves have, each at most a batch, and every distributed file is with exactly one slave |
| Distribution.DistributeKeeps | TP1/applicationLib.c:83-102 | after a distribution all files are out or every slave has work |
| Shares.ServeGives | TP1/applicationLib.c:87-100 | an idle slave gets the smaller of a batch and what is left, a busy one nothing, and each one reached after the last file its stop message |
| Shares.DistributeGives | TP1/applicationLib.c:83-102 | one pass hands out the smaller of what is left and a batch for each idle slave; each slave's share and file numbers, in closed form, follow from the idle slaves before it |
| Distribution.ListenKeeps | TP1/applicationLib.c:3-31 | each ready slave with a file finishes exactly one |
| Shares.ListenTakes | TP1/applicationLib.c:3-31 | exactly one line is taken from each ready slave that has one, in the order of the slaves, and none from any other |
| Distribution.ExitIsComplete | TP1/application.c:45-60 | at exit every file was sent to exactly one slave and gave exactly one result, and each slave got exactly one stop message, after all its files |
| Distribution.EndsInTime | TP1/application.c:49-54 | if somebody answers in each round, as many rounds as files are enough |
| Distribution.EndsWhenAnswered | TP1/application.c:49-54 | so are as many answered rounds as files with any others in between, in which only ended slaves are ready |
| ModuleLoader.WriteFile | TP2/Toolchain/ModulePacker/main.c:109-119 | the buffered copy appends the whole file, whatever its length |
| ModuleLoader.BuildImage | TP2/Toolchain/ModulePacker/main.c:52-85 | the target is the kernel, the count, and each module behind its size |
| ModuleImage.ImageLayout | TP2/Toolchain/ModulePacker/main.c:52-107 | where the parts lie: the kernel first, the count right behind it, and each module behind its own size |
| ModuleLoader.Memory.Memcpy | TP2/Kernel/lib.c:15-51 | whichever path it takes, the destination ends with the source's old bytes and nothing else changes, also for overlapping buffers when the destination is the lower |
| ModuleLoader.Memory.CopyWords | TP2/Kernel/lib.c:35-39 | the word path copies the same bytes as the byte path |
| ModuleLoader.Memory.CopyBytes | TP2/Kernel/lib.c:43-47 | the byte path |
| ModuleLoader.Memory.ReadUint32At | TP2/Kernel/moduleLoader.c:42-47 | the number in four little-endian bytes, and the cursor behind it |
| ModuleLoader.Memory.LoadModule | TP2/Kernel/moduleLoader.c:20-40 | one module is copied to its slot, and both cursors move on |
| ModuleLoader.Memory.LoadModules | TP2/Kernel/moduleLoader.c:9-18 | the loop leaves the memory and the table of the pure loader |
| ModuleLoader.Memory.Boot | TP2/Kernel/moduleLoader.c:9-47 | booting from any memory that holds a packed image leaves all modules in place exactly when none is copied over different bytes of an earlier one, and everything outside the area written unchanged |
| ModuleImage.LoadGivesBackIff | TP2/Toolchain/ModulePacker/main.c:52-107 | loading undoes packing, for any modules with the image apart from the area written, if and only if no later module is copied over different bytes of an earlier one; in any case the table has each module's address and size, each address ends with what the last module to cover it put there, and the rest of memory is unchanged |
| ModuleImage.LoadGivesBack | TP2/Kernel/moduleLoader.c:9-47 | so modules that, but for the last, fit 0x100000 bytes always come back: exact bytes and size at drop + i * 0x100000 |
| ModuleImage.TooBigIsDamaged | TP2/Kernel/moduleLoader.c:23-35 | the failing case: a module over that size is damaged by a next one that starts with another byte |
| ModuleImage.TooBigMaySurvive | TP2/Kernel/moduleLoader.c:23-35 | a module over that size comes back all the same when the next one is empty |
| ModuleLoader.WordRoundTrip | TP2/Kernel/lib.c:38-39 | a word loaded and stored again is the same four bytes |
| Bytes.LastByteIsHighest | TP2/Kernel/moduleLoader.c:42-47 | of the bytes of a number the last is the most significant |
| Printing.WriteDigits | TP2/Kernel/lib.c:59-66 | the divide loop leaves the numeral's digits, least significant first |
| Printing.ReverseInPlace | TP2/Kernel/lib.c:71-81 | the swap loop reverses the part of the buffer and touches nothing else |
| Printing.UintToBase | TP2/Kernel/lib.c:54-84 | the buffer holds exactly the numeral and a terminator, and its length is returned |
| Printing.Itoa | TP2/Userland/Libc/stdlib.c:30-66 | the same for every number, with a minus sign for negative ones in base 10, and with what the truncating division gives for negative ones in other bases |
| Numerals.TextIsSignedIff | TP2/Userland/Libc/stdlib.c:30-66 | what itoa prints is the signed numeral if and only if the number is not negative or the base is 10 |
| Numerals.NegativeText | TP2/Userland/Libc/stdlib.c:41-63 | for a negative number in another base: as many characters as digits, each as far below '0' as its digit is above; when the last digit is 3 its character, '-', comes first |
| Printing.FirstWritten | TP2/Userland/Libc/stdlib.c:53-54 | the first character the reversal tests for a minus sign is the last digit, which for numbers that are not negative is never mistaken for one |
| Printing.ParseInt | TP2/Userland/Libc/stdio.c:165-190 | the number at the start of the string and the characters it takes |
| Numerals.NumeralOfValue | TP2/Kernel/lib.c:59-66 | the digits denote the number |
| Numerals.DigitAlphabet | TP2/Kernel/lib.c:59-66 | the digits are 0 to 9 and then A to Z |
| Numerals.NumeralIsCanonical | TP2/Kernel/lib.c:59-66 | only digits, and no leading zeros |
| Numerals.NumeralIsUnique | TP2/Kernel/lib.c:54-84 | no other string of digits without leading zeros denotes the number |
| Numerals.ParseText | TP2/Userland/Libc/stdio.c:165-190 | parseInt of what itoa wrote gives the number and consumes exactly the length itoa reported, whatever non-digit follows |
| Numerals.ParseDigits | TP2/Userland/Libc/stdio.c:165-190 | any digits, leading zeros included, with or without a minus sign, give the number they denote and are all taken; without a digit nothing is taken |
| Numerals.PrintParsed | TP2/Userland/Libc/stdlib.c:30-66 | printing that number gives the digits back without their leading zeros, and no sign for zero |
| Numerals.TextParsed | TP2/Userland/Libc/stdlib.c:30-66 | itoa of what parseInt read gives back the characters it took, when they are in itoa's form |

## Left out

- Buddy allocator: `reallocatePages` and `getParentIndex`, marked untested in the source; negative page counts; the mutex around allocation and free, and the test for an allocated page that `freeMemory` makes before taking it.
- BuddyHeap.Heap.Free: for addresses of the heap only; the source computes an index outside its arrays for others.
- PipeSystem: calling on an invalid pipe, and creating and deleting pipes.
- PipeRing.KernelRing.constructor: has the L + 1 cells that the indices use; the kernel allocates one page of L cells, so its last cell is the first byte of the next page.
- Mutexes and semaphores: creation by name, the admin mutex, the kill-time loops of `mutex.c`, and the branch that kills a thread when the waiter table is full; such a thread simply does not move in the model, and its outcome is called refused.
- Scheduler.KernelScheduler: holds each process as a value in its slot, where the source holds a pointer, so sharing of a process between the table and other holders (`foreground`, callers of `getProcess`) is not captured; `Process.KernelProcess` models the process itself in place.
- Scheduler.KernelScheduler.SwitchNow: for states in which the search ends, as the source otherwise searches for ever (`Scheduler.SearchEndsIff`).
- SchedulerRuns.Execute: for runs that do not hang (`SchedulerHangs.RunHangsIff`). The source reads through null pointers when it switches away from a thread or process that has just gone (TP2/Kernel/scheduler.c:36-41, 139-142); the model takes the state found there not to be RUNNING.
- RoundRobin.ApplyStep: a process whose current thread has ended neither ends nor starts threads before it has a current one again, because both calls are made for the process that runs (TP2/Kernel/sysCalls.c:211-219, TP2/Kernel/process.c:52-55) and a switch follows that end; the end of the main thread is the removal of the process.
- Scheduler.KernelScheduler.AddProcess: stops where the source writes in front of the table.
- Scheduler: the quantum counter, foreground handling, parents and orphans, and what `killProcess` does beside removing the process.
- Process.KernelProcess.TerminateThread: says that the process is to be killed when its main thread ends, and not what killing it frees; like `AddNewThread` it is called while the current thread exists.
- Process.KernelProcess.NextThread: for processes that are not stuck, as the source otherwise walks for ever (`Process.NextThreadEndsIff`).
- BMFS: `list`, `initialize`, the tag that `format` writes, and the command line; a library sort stands for qsort, any order of deleted records being allowed; the bytes of a record behind its name's terminator and its unused field are zero in the model; loop counters of type int in read and write.
- BmfsTool.Tool.Create: for names of at most 31 characters, as longer ones overrun the record, and sizes of at least 1, which the caller checks.
- TP1: fork, exec, pipes, shared memory and System V semaphores, and the text of result lines; a slave answers each file with one line, in order.
- Master.MasterProcess.HashAll: for answers of select that let the loop end; whether slaves ever answer is outside the program.
- ModuleLoader: file input and output, sizes and counts from 2^32 on, and the console messages.
- ModuleLoader.Memory.Memcpy: not for overlapping buffers with the destination above the source, which the source does not support.
- Printing.Itoa: unbounded integers, so the minimum of int, whose negation overflows, is not covered; bases from 2 to 36.
- Printing.ParseInt: unbounded integers, so a text beyond the range of int, where the source overflows, is not covered.
- Timers, channels, keyboard, terminal, video, user programs and the fourth assignment: user interface, hardware or code whose natural claims do not hold.
