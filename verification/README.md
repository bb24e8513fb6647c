# A small kernel, verified

This project models the parts of a small x86-64 teaching kernel whose correctness depends on long histories:
semaphores and the pipes and the dining philosophers built on them, the first-fit heap, the process table and its
scheduler, the file allocation of the BMFS disk utility, the module packer and the loader that reads its images, the
keyboard queue, and the tree of the buddy allocator. Check everything with `dafny verify dfyconfig.toml`.

## How it is built

Every component has two layers.

* **Values.** The state is a datatype and each kernel routine is a function on it. Runs are sequences of events folded
  over the initial state, so every main result is about all reachable states. The lemmas about runs are the main results.
* **Code.** The routines as the C program has them: fields and arrays changed in place, the same loops, the same
  branches. Each method is proved to take its old state to what the function says. `PhilosophersTable.dfy` is the
  exception: the user program is interleaved there, so it is stepped through by program counters on shared arrays, with
  the semaphores as values.

| component | values | code |
|---|---|---|
| waiter queue | `Ring` in `Common.dfy` | `Queue.dfy` |
| semaphores | `SemaphoreModel` in `Semaphore.dfy` | `Semaphores` in `Semaphore.dfy` |
| pipes | `Pipe.dfy` (one pipe), `PipeSystem.dfy` (pipe and processes) | `PipeDevice.dfy` |
| philosophers | `Philosophers.dfy`, `PhilosophersBooks.dfy`, `PhilosophersMonitor.dfy`, `PhilosophersMain.dfy`, `PhilosophersQuit.dfy`, `PhilosophersFailures.dfy` | `PhilosophersTable.dfy` |
| heap | `HeapModel.dfy`, `HeapCalls.dfy` | `HeapMemory.dfy` |
| processes | `SchedulerModel.dfy`, `SchedulerTable.dfy`, `SchedulerRuns.dfy`, `SchedulerMain.dfy`, `SchedulerHistory.dfy`, `SchedulerSwitch.dfy`, `SchedulerChoice.dfy`, `SchedulerCalls.dfy`, `SchedulerSteps.dfy`, `SchedulerRotation.dfy`, `SchedulerStray.dfy`, `SchedulerShell.dfy`, `SchedulerWaiters.dfy`, `SchedulerFailures.dfy` | `SchedulerKernel.dfy` |
| BMFS | `Bmfs.dfy`, `BmfsGaps.dfy`, `BmfsNames.dfy`, `BmfsRuns.dfy`, `BmfsFailures.dfy` | `BmfsDisk.dfy` |
| images | `Image.dfy` | `ImagePrograms.dfy` |
| keyboard | `KeyboardModel` in `Keyboard.dfy` | `KeyboardDevice` in `Keyboard.dfy` |
| buddy tree | `BuddyTree` in `Buddy.dfy` | `BuddyAllocator` in `Buddy.dfy` |

**Meanings.** What a call is for is also written down without the functions that model it, and proved of every run:
`SchedulerSteps.EveryStep` relates the tables before and after every call, key and interrupt slot by slot and entry by
entry; `HeapCalls` gives each allocation and free in numbers of bytes; `KeysType` has the legends of the keys and
`OutcomeExactly` the reasons of `create`.

**Steps.** System calls run with interrupts off, so the atomic step of a process is the code between two blocking
points; the only blocking point is the forced switch inside `wait_sem`. A post hands its token directly to the oldest
waiter, which takes it along when it resumes: such a process holds a *token in flight*, and the invariants count it.
The philosophers also share variables outside system calls, so there a step is one access to a shared variable.

## What the environment is assumed to do

* A process blocked on a semaphore makes no call, is not toggled or woken by anything but a post, and its semaphore is
  not closed. In the models of the pipe and of the philosophers it is not killed either; a post to a waiter that was
  killed writes outside the process table, and `Semaphore.Post` says so. The kernel itself breaks this rule for a waiter
  whose last child dies: `SemWaitEndsExactly` says what ends a wait in the process table, and the models of the pipe and
  of the philosophers are about processes without children. The semaphore exists: the tests of an 8-bit index against -1
  never hold.
* Each semaphore has a queue object of its own (the program never allocates the one it points to).
* A queue holds ten waiters. That it is enough is not assumed: `LostExactly` and `NoWriterStranded` say exactly which
  runs lose a process to a full queue, `NobodyLost` that up to ten users are safe, and `NobodyDropped` that the
  philosophers are.
* The idle process makes no system call and is not blocked or woken from outside; fewer than 2^32 - 3 events happen, so
  that process identifiers do not wrap; children are recorded only when they were created (`FailedCreationIsRecorded`
  shows what happens otherwise).
* `memory_free` is given a live pointer or one outside the heap (`FreesLive`).
* A disk has fewer than 2^31 blocks (its size in MiB is a 32-bit number) and at least two.

## What turned out false

Each of these is stated with the exact condition under which the code does what it is for, and a run or an input that
does not meet it.

* The eleventh process to wait on a semaphore of value 0 is in no queue and is never woken (`LostExactly`,
  `EleventhIsLost`).
* `find_free_block` scales its end-of-heap test by the header size, so of an empty heap of 1 MiB no more than 65504
  bytes can be had (`LargestFirstRequest`).
* A full waiter ring looks empty to its iterator (`FullRingLooksEmpty`, `BlockedProcesses`).
* `remove_philo` can make two eating philosophers neighbours (`RemovalKeepsApart`; on every ring of six or more,
  `RemovalCanBreakExclusion`). `add_philo` can leave a hungry philosopher without an EATING neighbour, so that the next
  `put_forks` of either neighbour is what tests it again (`AdditionKeepsCovered`; on every ring of nine or fewer,
  `AdditionCanUncover`).
* The scheduler looks at the first `dim` slots only, and slots are reused lowest first: a READY process beyond them
  starves (`StarvesExactly`); two creations and a kill lead there (`SpawnedProcessStarves`).
* Process 0 (the shell) is the parent of every blank entry of the child table and waits for children it does not have
  (`PidZeroWaitsForNobody`); nothing but a wake or toggle from outside ends that wait (`ShellSleepsOn`).
* The death of the last recorded child of a parent that died before writes outside the table (`StrayWriteExactly`). A
  child with a child of its own, killed in that order or by Ctrl-C, is enough (`OrphanWritesOutside`,
  `KillAllWritesOutside`).
* The death of the last child wakes its parent even if that waits on a semaphore (`SemWaitEndsExactly`): a process that
  creates a child and waits on a semaphore goes on without a post once the child ends (`ChildEndsSemWait`).
* A deleted record lets BMFS `create` place a file over a live one (`CreateRightExactly`, `WrongPlaceOverlaps`,
  `CreateKeepsExtentsExactly`; on every disk of five blocks or more, `DeletedRecordOverlaps`); a directory without an end
  marker makes it place every file at block 1 (`NoEndMarkerRightExactly`) and can hide all other files
  (`CreateRefinesExactly`, `FullDirectoryLosesFiles`).
* A key that produces a character while 1024 wait is lost (`TypedIsAccepted`).
* The buddy search gives up at a split node, so on a fresh tree only the first allocation succeeds
  (`OnlyFirstSucceeds`); its block is twice as large as needed for a power of two (`FitOrderLeastExactly`).
* `next` of the queue iterator passes the position where `has_next` takes a pointer to it; the model passes the pointer.
* The comment at the end-of-heap test says that NULL is returned only when the last block is allocated; the code
  returns it when the scaled test fails, and the model follows the code.

## Model

| member | source | states |
|---|---|---|
| WaiterQueue.Queue.Enqueue | Kernel/utils/queue.c:31-42 | appends to the queued values, or drops the value silently when the ring is full |
| WaiterQueue.Queue.Dequeue | Kernel/utils/queue.c:44-55 | removes and returns the oldest value; the error word for an empty queue |
| WaiterQueue.Queue.IsInQueue | Kernel/utils/queue.c:61-69 | true exactly for the queued values |
| WaiterQueue.InArcMeansOccupied | Kernel/utils/queue.c:75-80 | in a ring that is not full the position test holds exactly for occupied cells, wrapped around or not |
| WaiterQueue.FullRingLooksEmpty | Kernel/utils/queue.c:75-80 | in a full ring the position test fails at the first step |
| WaiterQueue.Queue.BlockedProcesses | Kernel/utils/semaphore.c:172-185 | walking the iterator yields all waiters in order, and none if the ring is full |
| SemaphoreModel.TokensConserved | Kernel/utils/semaphore.c:127-169 | in every run: initial value + posts = value + waits granted (modulo the 64-bit width), a positive value means an empty queue, and processes are granted in the order they blocked |
| SemaphoreModel.TokensConservedExactly | Kernel/utils/semaphore.c:127-169 | the same equation without the modulus while fewer than 2^64 tokens were issued |
| SemaphoreModel.LostExactly | Kernel/utils/queue.c:31-34 | in every run in which no blocked process calls, a process is left blocked outside the queue, where no post finds it, if and only if a wait of its own found value 0 and ten waiters |
| SemaphoreModel.NobodyLost | Kernel/utils/queue.c:31-42 | in every such run of at most ten users the blocked processes are exactly those in the queue |
| SemaphoreModel.EleventhIsLost | Kernel/utils/queue.c:31-34 | of eleven processes that wait one after the other on a semaphore of value 0 the last is blocked and in no queue |
| Semaphores.Semaphore.constructor | Kernel/utils/semaphore.c:97-100 | a created semaphore has the given value and no waiters |
| Semaphores.Semaphore.Wait | Kernel/utils/semaphore.c:127-149 | takes a token, or pauses the caller and queues it |
| Semaphores.Semaphore.Post | Kernel/utils/semaphore.c:151-169 | makes the oldest waiter READY and hands it the token, or counts the token; if that waiter was killed, the state write lands outside the process table |
| PipeModel.WriteBurstAppends | Kernel/utils/pipes.c:153-161 | a stretch of `write_pipe` appends exactly the bytes it reports to the unread bytes, keeps the token books and stops early only by blocking |
| PipeModel.ReadBurstTakes | Kernel/utils/pipes.c:173-181 | a stretch of `read_pipe` takes the oldest bytes, as many as asked for and present, never blocks, and hands each freed place to the oldest waiting writer |
| PipeSystem.BytesKeepOrder | Kernel/utils/pipes.c:148-183 | in every interleaving of any readers and writers: bytes put in = bytes taken out followed by the `current_pipe_size` ring cells from `pipe_read_id`, and what each process put in is its finished buffers followed by its part of the current one |
| PipeSystem.TokenBooks | Kernel/utils/pipes.c:77-78 | at every step boundary: write tokens + writers with a token in flight + unread bytes = PIPE_SIZE, and read tokens = unread bytes with no reader waiting |
| PipeSystem.ReadersNeverBlock | Kernel/utils/pipes.c:165-183 | however many readers there are, a read returns at once with the min(count, unread) oldest bytes |
| PipeSystem.WaitingWriterIsWoken | Kernel/utils/pipes.c:155-180 | when a writer waits and no token is in flight the pipe is full, and the next read of at least one byte wakes the first waiter |
| PipeSystem.NoWriterStranded | Kernel/utils/queue.c:31-34 | a run leaves a blocked writer outside the queue if and only if some step needs a token while ten writers wait |
| PipeDevice.PipeObject.WritePipe | Kernel/utils/pipes.c:148-163 | the loop on the pipe object, from its start or from the token it resumes with, does what the burst says to the pipe, both semaphores and the process states |
| PipeDevice.PipeObject.ReadPipe | Kernel/utils/pipes.c:165-183 | the same for reading, with the end-of-stream test |
| PhilosophersModel.NeighbourMacros | Userland/SampleCodeModule/include/philo.h:11-12 | the neighbours of the model are those of the LEFT and RIGHT macros |
| PhilosophersBooks.StepKeepsBooks | Userland/SampleCodeModule/phylo.c:108-141 | every step keeps: MUTEX, PRINT_MUTEX and each `safe` semaphore have value 1 and no holder or value 0 and exactly one (a token in flight makes its owner the holder), and every queue lists exactly the philosophers blocked on it |
| Philosophers.MonitorAlways | Userland/SampleCodeModule/phylo.c:108-141 | in every reachable state the token of a private semaphore, in its value, in flight or about to be posted, exists exactly once for a philosopher that is EATING and has not gone on, and for nobody else; states agree with program counters, neighbours are not both EATING, and a HUNGRY philosopher has an EATING neighbour or one that is about to test it |
| PhilosophersBooks.RoomInQueue | Userland/SampleCodeModule/phylo.c:61-64 | with at most ten philosophers a philosopher that must block always finds room in the queue |
| Philosophers.NeighboursNeverEatTogether | Userland/SampleCodeModule/phylo.c:120-141 | on a fixed ring of 5 to 10, in no reachable state are two neighbours past the wait on their private semaphore and before giving their forks back |
| Philosophers.MonitorIsExclusive | Userland/SampleCodeModule/phylo.c:120-134 | in every reachable state at most one philosopher is between waiting for and posting MUTEX |
| Philosophers.HungryWaitForANeighbour | Userland/SampleCodeModule/phylo.c:128-141 | whenever MUTEX is free every HUNGRY philosopher has an EATING neighbour, and one blocked on its private semaphore is HUNGRY: no hand-off is missed |
| Philosophers.NoDeadlock | Userland/SampleCodeModule/phylo.c:108-141 | in every reachable state some philosopher can take a step, unless all have left |
| Philosophers.NobodyDropped | Userland/SampleCodeModule/phylo.c:108-152 | a blocked philosopher is always in the queue of the semaphore it waits for |
| PhilosophersQuit.LeavesAtTheTop | Userland/SampleCodeModule/phylo.c:108-118 | a philosopher leaves exactly at the top of its loop once the user has quit, goes on from there before, and never comes back |
| PhilosophersQuit.TableEmpties | Userland/SampleCodeModule/phylo.c:108-118 | from every reachable state after the user has quit, some continuation leads to a table that all have left |
| PhilosophersQuit.EverybodyLeaves | Userland/SampleCodeModule/phylo.c:108-141 | however they are scheduled after the user has quit, the philosophers take no more than 38 steps each, and when nobody can take another one all have left |
| Philosophers.RemovalKeepsApart | Userland/SampleCodeModule/phylo.c:91-106 | closing the ring behind the last philosopher keeps neighbours apart if and only if the two that become neighbours are not both EATING |
| PhilosophersFailures.RemovalCanBreakExclusion | Userland/SampleCodeModule/phylo.c:91-106 | on every ring of 6 to 10 a run reaches a state in which both waits of `remove_philo` for the last philosopher pass, and without it two neighbours hold their forks |
| Philosophers.AdditionKeepsCovered | Userland/SampleCodeModule/phylo.c:61-89 | a new THINKING philosopher keeps neighbours apart, and keeps every HUNGRY one next to an EATING one if and only if the two at the seam do not depend on each other |
| PhilosophersFailures.AdditionCanUncover | Userland/SampleCodeModule/phylo.c:61-89 | on every ring of 5 to 9 a run reaches a state in which the wait of `add_philo` passes, and with the new one the first is HUNGRY, blocked and next to nobody EATING |
| PhilosophersFailures.TwoEat | Userland/SampleCodeModule/phylo.c:120-141 | any two philosophers that are not neighbours hold their forks together in some run |
| PhilosophersTable.DiningTable.Advance | Userland/SampleCodeModule/phylo.c:108-152 | one step of a philosopher on the shared arrays and semaphores is the step of the model |
| HeapModel.FirstFitIsFirst | Kernel/memory_manager.c:47-53 | the scan stops at the first free block that is large enough |
| HeapModel.HeapAlwaysConsistent | Kernel/memory_manager.c:7-102 | after any sequence of allocations and of frees of pointers that are live, or outside the heap, the blocks tile the heap up to the end header, which fits below HEAP_END, and the counters are the size and number of the allocated blocks and what is left |
| HeapModel.LiveBlocksDisjoint | Kernel/memory_manager.c:12-45 | in every reachable heap two live pointers name disjoint blocks, and equal pointers the same block |
| HeapModel.AllocationServes | Kernel/memory_manager.c:32-45 | in every reachable heap a successful allocation returns a pointer whose payload has room for the request, inside the heap and off every block that was live |
| HeapModel.AllocationFails | Kernel/memory_manager.c:32-65 | NULL if and only if the request is out of bounds, or no free block is large enough and the scaled end test fails |
| HeapModel.LargestFirstRequest | Kernel/memory_manager.c:56-61 | an empty heap serves exactly the requests of 1 to 65504 bytes |
| HeapModel.FreeAfterAlloc | Kernel/memory_manager.c:24-30 | freeing what was just allocated restores the blocks, except that a free successor is absorbed and a block taken from the end stays as a free one |
| HeapCalls.ServedByBlock | Kernel/memory_manager.c:32-85 | the first free block of at least the even total of request and header serves, at its start plus 16; it is split exactly if more than 18 bytes are left, and all other blocks stay |
| HeapCalls.ServedAtEnd | Kernel/memory_manager.c:55-61 | without one, a request is served at the end, whose header moves behind it, if and only if end + 16 * (total + 16) <= 0x100000; otherwise nothing changes |
| HeapCalls.OutOfBounds | Kernel/memory_manager.c:33-35 | requests of 0 bytes or more than 0xFFFF0 are refused |
| HeapCalls.FreeExactly | Kernel/memory_manager.c:12-30 | the block of a live pointer becomes free and absorbs the next one exactly if that is free; all other blocks stay |
| HeapCalls.StacksServed | Kernel/memory_manager.c:32-65 | on a fresh heap exactly the first 239 of any number of requests for a stack of 4096 bytes are served, at 4112 bytes from one another |
| HeapMemory.WalkYieldsLayout | Kernel/memory_manager.c:47-53 | following the size fields in memory from HEAP_START yields exactly the blocks |
| HeapMemory.KernelHeap.constructor | Kernel/memory_manager.c:7-10 | the initial heap is one end header |
| HeapMemory.KernelHeap.FindFreeBlock | Kernel/memory_manager.c:47-65 | walking the headers in memory finds the first fit, the end header, or NULL by the end test |
| HeapMemory.KernelHeap.Allocate | Kernel/memory_manager.c:32-45 | on the bytes of the heap: the result and the new headers and counters are those of the model, and no payload byte of a live block changes |
| HeapMemory.KernelHeap.Deallocate | Kernel/memory_manager.c:12-30 | the same for a free, including the absorbed successor; a pointer outside the heap is ignored |
| HeapMemory.KernelHeap.StorePayload | Kernel/memory_manager.c:44 | the owner of a live pointer may write any byte of its payload without disturbing a header |
| SchedulerTable.SearchStopsInside | Kernel/scheduler.c:152-159 | the unbounded search for a dead slot ends inside the table if and only if the count check passes |
| SchedulerMain.TableAlwaysConsistent | Kernel/scheduler.c:152-235 | over every run of creations, kills, ends, kill-alls, waits, blocks, wakes, toggles, yields, changes of priority and interrupts: `dim` is the number of live slots, live pids are distinct, and the slot search stops inside the table exactly when `dim` is below the limit |
| SchedulerMain.CurrentAlwaysReady | Kernel/scheduler.c:241-265 | in every run the current process is READY, idle lives, and idle is READY exactly when it is the current process |
| SchedulerSwitch.SwitchIs | Kernel/scheduler.c:116-325 | whenever an interrupt or system call switches, the new process is the choice of `next_process` from the table in which the caller has already blocked, died, been toggled or lost its ticks |
| SchedulerChoice.SwitchTakesNext | Kernel/scheduler.c:241-265 | after every run, a switch takes the first READY slot behind the current one, going round the first `dim`, READY or not and wherever the current one is, and idle if there is none; it refills that slot, sets the state of idle and changes nothing else |
| SchedulerSteps.EveryStep | Kernel/scheduler.c:53-325 | after every run, each interrupt, creation, kill, kill of all, end, wait, block, wake, toggle, yield and change of priority does exactly what `Means` says of the slots, the entries and the counters |
| SchedulerCalls.CreationResult | Kernel/scheduler.c:152-187 | in every state that keeps the invariants, as all runs do, a creation succeeds if and only if fewer than 100 slots are in use and the stack exists, reports the limit if and only if 100 are, and the missing stack otherwise |
| SchedulerCalls.CreationExactly | Kernel/scheduler.c:152-187 | on success the lowest dead slot, and no other, holds the new READY process with the next pid, the asked priority and a full quantum; on failure nothing changes |
| SchedulerCalls.ChildCreationExactly | Kernel/child_processes.c:51-68 | the child is also recorded in the lowest dead entry, if there is one |
| SchedulerCalls.PriorityExactly | Kernel/scheduler.c:91-106 | a change gives the process the nearest priority from 1 to 5 and 2 to that as its quantum, and changes nothing else, not even its remaining ticks |
| SchedulerCalls.ToggleExactly | Kernel/scheduler.c:116-128 | a toggle of another process turns BLOCK into READY and any other state into BLOCK and changes nothing else; a second one restores the tables |
| SchedulerCalls.ToggleOfCurrent | Kernel/scheduler.c:116-128 | a process that toggles itself is BLOCK, also in the table after the switch, and another one runs |
| SchedulerCalls.DeathExactly | Kernel/child_processes.c:22-49 | a death frees the slot, marks the entry, or blanks all entries of a parent without other living children and makes it READY, and touches nothing else |
| SchedulerSteps.KillAllPurges | Kernel/scheduler.c:305-319 | a kill of all leaves exactly the immortal processes, READY those that lost all their recorded living children, and exactly the entries of spared children READY |
| SchedulerSwitch.OnlySwitchesMove | Kernel/scheduler.c:116-325 | every other event leaves the current process on the processor |
| SchedulerSwitch.IdleOnlyAsLastResort | Kernel/scheduler.c:247-262 | after every run, an event that switches puts idle on the processor if and only if no other process in the first `dim` slots is READY in the table it leaves; an event that does not switch never does |
| SchedulerMain.NamedParentHasLiveChild | Kernel/child_processes.c:13-68 | in every run an entry that names a parent other than process 0 implies a READY entry of that parent whose child is alive |
| SchedulerMain.WaitingParentHasLiveChild | Kernel/child_processes.c:79-85 | in every run a parent other than process 0 that waits for its children has a recorded child that is alive |
| SchedulerMain.LastChildWakesParent | Kernel/child_processes.c:32-49 | the death of the last recorded child makes its parent READY and clears its entries: no lost wake-up |
| SchedulerWaiters.SemWaitEndsExactly | Kernel/child_processes.c:32-49 | in every run a step ends the wait of a process paused by a semaphore if and only if it posts to it, toggles it, kills it, or kills the last of its recorded living children, alone or in a kill of all |
| SchedulerWaiters.KillFromWakes | Kernel/scheduler.c:305-319 | a kill of all makes a process it spares READY if and only if that process has recorded living children and all of them are mortal |
| SchedulerFailures.ChildEndsSemWait | Kernel/child_processes.c:41-45 | the run in which the shell creates a child and waits on a semaphore and the child ends makes the shell READY without a post |
| SchedulerStray.StrayWriteExactly | Kernel/child_processes.c:32-49 | in every run, and in the middle of a kill of all, a death writes outside the table, once, if and only if the process is recorded as the last living child of a parent that died before it |
| SchedulerStray.KilledUpToAll | Kernel/scheduler.c:305-319 | that middle of a kill of all is meant: followed to the last slot it is the table the kill of all leaves |
| SchedulerStray.OrderlyRunsStayInside | Kernel/child_processes.c:32-49 | a run in which no process dies while it has a living child, and only live processes are woken, toggled or given another priority, never writes outside the table |
| SchedulerFailures.OrphanWritesOutside | Kernel/child_processes.c:41-45 | the run in which a child creates a child, is killed, and then its child is killed writes outside the table, whatever the priorities |
| SchedulerFailures.KillAllWritesOutside | Kernel/scheduler.c:305-319 | so does the kill of all processes when a child has a child |
| SchedulerMain.PidZeroWaitsForNobody | Kernel/child_processes.c:70-85 | process 0 without a living child is paused all the same when the table has a blank entry |
| SchedulerShell.ShellSleepsOn | Kernel/child_processes.c:32-49 | in every run the shell, once it waits without a living child, stays paused and without one for as long as nobody wakes or toggles it from outside: no death ends the wait |
| SchedulerMain.ShellStartsAsPidZero | Kernel/kernel.c:70-74 | the shell starts as process 0 in exactly that situation |
| SchedulerMain.WaitPausesExactly | Kernel/child_processes.c:70-85 | in every run `wait_for_children` pauses its caller exactly when it has a living child, if and only if the caller is not process 0, or has one, or no entry is blank |
| SchedulerMain.FailedCreationIsRecorded | Kernel/child_processes.c:62-68 | a creation that failed leaves the child table consistent if and only if that table is full |
| SchedulerRuns.DestroyKeepsFamily | Kernel/child_processes.c:32-49 | a death keeps: every recorded READY child of a parent other than 0 is alive and recorded once, and who waits has one |
| SchedulerRotation.Rotation | Kernel/scheduler.c:241-282 | under timer interrupts only, with priorities 1 to 5, one rotation takes the sum of 2^priority + 1 interrupts over the READY processes of the first `dim` slots, selects each of them exactly once, charges it exactly 2^priority ticks, nobody else anything, and ends where it began |
| SchedulerRotation.OneTurn | Kernel/asm/interrupts.asm:200-222 | a turn is the quantum of the current process and one interrupt more, after which the nearest READY slot in cyclic order begins a turn of its own |
| SchedulerRotation.SwitchStartsRotation | Kernel/scheduler.c:241-265 | after every run, any event that switches, and any choice between two events, begins a turn with a full quantum among the scanned slots if and only if the chosen slot is among the first `dim` |
| SchedulerHistory.QuantaAlways | Kernel/scheduler.c:91-106 | in every run whose creations and changes of priority, cut to 1 to 5, stay in a range that contains 1, every live process has a priority in it and the quantum of that priority |
| SchedulerRotation.RotationAfterRun | Kernel/scheduler.c:241-282 | after every run whose creations ask for priorities 1 to 5, whatever the changes of priority ask for, a switch forced by any event, or any choice between two events, to one of the first `dim` slots starts such a rotation |
| SchedulerRotation.RepricedRotation | Kernel/scheduler.c:91-106 | after a change of priority in such a run the next rotation charges the process exactly 2 to its new priority |
| SchedulerRotation.StarvesExactly | Kernel/scheduler.c:248-255 | a READY process is ever selected if and only if its slot is among the first `dim` |
| SchedulerFailures.SpawnedProcessStarves | Kernel/scheduler.c:152-235 | after two creations and the kill of the first, the second is READY and no number of timer interrupts selects it, whatever the priorities |
| SchedulerKernel.Kernel.GetProcessIdx | Kernel/scheduler.c:82-89 | the first live slot with the pid, or 255 |
| SchedulerKernel.Kernel.ChangeProcessState | Kernel/scheduler.c:53-61 | sets the state of a live process; for an unknown pid the write lands outside the table |
| SchedulerKernel.Kernel.CreateProcess | Kernel/scheduler.c:152-187 | takes the first dead slot and the next pid with full quantum, or reports the limit or the missing stack |
| SchedulerKernel.Kernel.DestroyProcess | Kernel/scheduler.c:197-205 | the slot is dead, the child table and the parent are updated, and the count goes down |
| SchedulerKernel.Kernel.EndProcess | Kernel/scheduler.c:189-195 | the current process dies and the next one is chosen |
| SchedulerKernel.Kernel.KillProcess | Kernel/scheduler.c:219-235 | the process dies unless it is unknown or immortal, and the result code says which |
| SchedulerKernel.Kernel.KillAllProcesses | Kernel/scheduler.c:305-319 | every process that is not immortal dies in slot order, then a switch if the current one was among them |
| SchedulerKernel.Kernel.CalculateTicks | Kernel/scheduler.c:275-282 | repeated doubling gives 2^priority in a 32-bit word |
| SchedulerKernel.Kernel.FindReady | Kernel/scheduler.c:245-255 | the search loop finds the next READY slot in cyclic order, or has counted all of them |
| SchedulerKernel.Kernel.NextProcess | Kernel/scheduler.c:241-265 | the choice, the states of idle, and a full quantum for the chosen process |
| SchedulerKernel.Kernel.TimerInterrupt | Kernel/asm/interrupts.asm:200-222 | a tick is charged, or the next process is chosen |
| SchedulerKernel.Kernel.SetDeadProcess | Kernel/child_processes.c:32-49 | the first living entry of the child dies; the last of its siblings to die wakes the parent |
| SchedulerKernel.Kernel.DeleteChildrenOf | Kernel/child_processes.c:22-30 | all entries of the parent, and no other, become blank |
| SchedulerKernel.Kernel.AllChildrenFinished | Kernel/child_processes.c:13-20 | true exactly when no living entry names the parent |
| SchedulerKernel.Kernel.AddChildOf | Kernel/child_processes.c:51-60 | the first dead entry is taken; a full table is left alone |
| SchedulerKernel.Kernel.HasChildrenOf | Kernel/child_processes.c:70-77 | true exactly when some entry, living or not, names the parent |
| SchedulerKernel.Kernel.CreateChildProcess | Kernel/child_processes.c:62-68 | the process is created and recorded as a child, or the error code is |
| SchedulerKernel.Kernel.WaitForChildren | Kernel/child_processes.c:79-85 | the caller is paused and the next process chosen, if some entry names it |
| SchedulerKernel.Kernel.BlockOrUnblock | Kernel/scheduler.c:116-128 | toggles the state of the process, and switches if it is the current one |
| SchedulerKernel.Kernel.ForceNextProcess | Kernel/scheduler.c:321-325 | the current process loses its remaining ticks and the timer routine runs: the system call to yield |
| SchedulerKernel.Kernel.SetPriority | Kernel/scheduler.c:91-106 | the process gets the priority cut to 1 to 5 and the quantum of that; for an unknown pid the writes land outside the table |
| BmfsModel.SortedKeepsRecords | Bootloader/BMFS/bmfs.c:661 | sorting the copied directory permutes its records |
| BmfsGaps.CmpIs | Bootloader/BMFS/bmfs.c:597-608 | for files inside a disk the comparison, cut to 32 bits, is the difference of their starts |
| BmfsGaps.SortArranges | Bootloader/BMFS/bmfs.c:659-661 | the sorted copy holds the files in the order of their extents, then the deleted records |
| BmfsGaps.PlaceIs | Bootloader/BMFS/bmfs.c:659-685 | with an end marker the scan returns the lowest gap if there is one, else the end of a dead extent with room behind it, else 0 |
| BmfsGaps.CreateRightExactly | Bootloader/BMFS/bmfs.c:659-691 | the place is the lowest gap, and "no room" means there is none, if and only if there is a gap or no deleted record leaves room |
| BmfsGaps.WrongPlaceOverlaps | Bootloader/BMFS/bmfs.c:683-684 | whenever the place is wrong, the new file overlaps a live one |
| BmfsGaps.NoEndMarkerRightExactly | Bootloader/BMFS/bmfs.c:623-685 | without an end marker the place is block 1 whenever an empty disk had room; it is right if and only if it had none or no file starts below the end of the new one |
| BmfsRuns.CreateAppends | Bootloader/BMFS/bmfs.c:610-719 | without deleted records: a success appends the file at the lowest gap, each failure changes nothing and is reported exactly for its reason |
| BmfsRuns.OutcomeExactly | Bootloader/BMFS/bmfs.c:610-719 | for every directory each outcome is reported if and only if it is the first that applies: the name is listed, all 64 records are files, no place was found, or none of these |
| BmfsRuns.NoPlaceExactly | Bootloader/BMFS/bmfs.c:659-691 | with the extents in order no place is found if and only if there is no gap and no deleted record leaves room; without an end marker, if and only if an empty disk has too little room |
| BmfsRuns.CreateKeepsExtentsExactly | Bootloader/BMFS/bmfs.c:610-719 | after a success all extents are inside the disk and disjoint if and only if there was a gap |
| BmfsRuns.CreatesKeepFilesApart | Bootloader/BMFS/bmfs.c:610-719 | in every run of `format` and creates every file is off the first and last block, and the files are pairwise disjoint |
| BmfsRuns.NextCreateIsRight | Bootloader/BMFS/bmfs.c:610-719 | in every such run the next create takes the lowest gap, and reports no room if and only if there is none |
| BmfsRuns.RunsKeepExtentsExactly | Bootloader/BMFS/bmfs.c:610-816 | in every run of creates and deletes with an end marker before each create, the files stay inside the disk and disjoint throughout if and only if each create that succeeded had a gap |
| BmfsFailures.DeletedRecordOverlaps | Bootloader/BMFS/bmfs.c:683-684 | on every disk of five blocks or more: after two creates that fill it and a delete of the first, a third create succeeds over the second |
| BmfsFailures.FullDirectoryLosesFiles | Bootloader/BMFS/bmfs.c:623-706 | on every disk with room: 64 files, a delete of the first, and one more create, which lies over a live file and leaves none of the others to be found |
| BmfsRuns.EmptyRequests | Bootloader/BMFS/bmfs.c:615-620 | which sizes ask for no block at all, with the 64-bit rounding |
| BmfsNames.FindLooksUp | Bootloader/BMFS/bmfs.c:205-231 | `findfile` looks the name up in the map from names to records |
| BmfsNames.CreateRefinesExactly | Bootloader/BMFS/bmfs.c:693-706 | a successful create adds its record to the map and changes nothing else if and only if there is an end marker, or the first record is in use, or there is no file |
| BmfsNames.CreatedIsFound | Bootloader/BMFS/bmfs.c:693-698 | the created file is found with its record |
| BmfsNames.DeleteRefines | Bootloader/BMFS/bmfs.c:802-816 | a delete removes the name from the map and changes nothing else |
| BmfsNames.DeleteExactly | Bootloader/BMFS/bmfs.c:802-816 | a delete puts 1 for the first byte of the name in the first record of that name, and touches nothing else |
| BmfsNames.NamesAlwaysUnique | Bootloader/BMFS/bmfs.c:610-816 | in every run of creates and deletes, reused records and full directories included, no two files have one name |
| BmfsNames.RunsRefineMap | Bootloader/BMFS/bmfs.c:205-816 | in every run of `format`, creates and deletes the directory is throughout the map in which each name has the record it was last given, if and only if each create that succeeded met that condition |
| BmfsDisk.SortRecords | Bootloader/BMFS/bmfs.c:661 | the sort in place of the first records |
| BmfsDisk.CountEntries | Bootloader/BMFS/bmfs.c:635-651 | the number of records before the end marker, 0 if there is none, and the first free record |
| BmfsDisk.FindGap | Bootloader/BMFS/bmfs.c:663-685 | the scan loop with its 64-bit subtractions |
| BmfsDisk.Disk.FindFile | Bootloader/BMFS/bmfs.c:205-231 | found exactly for the names in the map, with the slot of its record |
| BmfsDisk.Disk.Create | Bootloader/BMFS/bmfs.c:610-719 | on the directory array: the new directory and the outcome are those of the model |
| BmfsDisk.Disk.Delete | Bootloader/BMFS/bmfs.c:802-816 | the same for a delete |
| BmfsDisk.Disk.Format | Bootloader/BMFS/bmfs.c:260-265 | the directory is empty |
| ImageFormat.PackedModulesLoad | Kernel/module_loader.c:10-24 | for every kernel and every number of modules below 2^32 bytes: an image placed in memory is loaded so that each target holds exactly its module and no byte outside the targets changes |
| ImageFormat.SizeSurvivesExactly | Toolchain/ModulePacker/main.c:103-108 | the loader reads the length of a module back if and only if it is below 2^32, and otherwise its remainder |
| ImageFormat.WordBytes | Toolchain/ModulePacker/main.c:103-108 | a size is stored in four bytes, the lowest first |
| ImageFormat.WordsAgreeWithBytes | Kernel/lib.c:32-49 | for aligned addresses copying by words is copying by bytes, even between overlapping buffers |
| ImageFormat.CopyKeeps | Kernel/lib.c:43-49 | the forward copy delivers the source and touches nothing else, unless it runs into a source it has yet to read |
| ModulePacker.WriteFile | Toolchain/ModulePacker/main.c:111-121 | chunks of 128 bytes up to the end-of-file flag append exactly the file |
| ModulePacker.WriteSize | Toolchain/ModulePacker/main.c:103-108 | appends the size as a little-endian 32-bit word |
| ModulePacker.BuildImage | Toolchain/ModulePacker/main.c:54-87 | the output file is the image of the kernel and the modules |
| ModuleLoader.MemCpy | Kernel/lib.c:16-52 | both paths copy the bytes |
| ModuleLoader.ReadUint32 | Kernel/module_loader.c:26-30 | the word at the cursor, and the cursor behind it |
| ModuleLoader.LoadModule | Kernel/module_loader.c:19-24 | copies one module to its target and moves the cursor behind it |
| ModuleLoader.LoadModules | Kernel/module_loader.c:10-17 | loads the payload as the reader of the format says |
| KeyboardModel.ControlIsLastKey | Kernel/keyboard.c:36-59 | in every run the flag is set if and only if the control key was the last key |
| KeyboardModel.CharactersKeepOrder | Kernel/keyboard.c:61-93 | in every run the characters delivered followed by those waiting are those accepted, and at most 1024 wait |
| KeyboardModel.TypedIsAccepted | Kernel/keyboard.c:36-76 | what is accepted is what the keys mean, each read together with the key before it, if and only if no key that produces a character met a full queue |
| KeyboardModel.KeysType | Kernel/keyboard.c:14-76 | in every run a key adds the character on its legend, or end of file, ampersand or pipe right after the control key, and nothing while 1024 characters wait |
| KeyboardModel.KillsExactly | Kernel/keyboard.c:41-44 | a key kills the processes if and only if it is C right after the control key |
| KeyboardDevice.Keyboard.Handle | Kernel/keyboard.c:36-76 | on the ring, whose write index may rest one past its end, a key does what the model says |
| KeyboardDevice.Keyboard.GetFirstChar | Kernel/keyboard.c:78-93 | returns and removes the oldest character, or 0xFF |
| BuddyTree.FitOrderLeastExactly | Kernel/buddy_memory_manager.c:14-21 | the order always fits, and is the least that does if and only if the size is no power of two from the minimum on |
| BuddyTree.ChildrenPartition | Kernel/buddy_memory_manager.c:46-52 | the spans of the two children partition the span of their parent |
| BuddyTree.Siblings | Kernel/buddy_memory_manager.c:105-108 | a node and its sibling are the two children of one parent, and each is the other's sibling |
| BuddyTree.SpanInside | Kernel/buddy_memory_manager.c:93-99 | the span of a node lies in that of every node above it |
| BuddyTree.UnrelatedApart | Kernel/buddy_memory_manager.c:93-99 | nodes unrelated by ancestry have disjoint spans |
| BuddyTree.SearchMarks | Kernel/buddy_memory_manager.c:54-87 | a failed search changes no flag; a successful one marks an unmarked node of the requested order and splits the nodes above it |
| BuddyTree.SearchKeepsTree | Kernel/buddy_memory_manager.c:54-91 | a search from the root keeps every marked node below split, unused nodes, and adds exactly one used node |
| BuddyTree.UsedApart | Kernel/buddy_memory_manager.c:54-99 | the blocks of two used nodes never overlap |
| BuddyTree.SearchSucceedsExactly | Kernel/buddy_memory_manager.c:54-87 | a search succeeds if and only if its node is unmarked and large enough, and finds the leftmost block |
| BuddyTree.OnlyFirstSucceeds | Kernel/buddy_memory_manager.c:70 | of any sequence of allocations on a fresh tree the first gets the start of the heap and all others fail |
| BuddyAllocator.GetFitOrder | Kernel/buddy_memory_manager.c:14-21 | the halving loop counts the binary digits, up to the minimum order |
| BuddyAllocator.Allocator.SearchFrom | Kernel/buddy_memory_manager.c:54-87 | the recursion on the array of nodes sets the flags of the model |
| BuddyAllocator.Allocator.FindBlock | Kernel/buddy_memory_manager.c:89-91 | keeps the tree in order; marks one unused node of the order, or changes nothing |

## Left out

- SemaphoreModel.TokensConserved: states the law modulo 2^64, the width of the counter; without the modulus it needs the bound of `TokensConservedExactly`.
- Semaphores.Semaphore.Wait: ends at the blocking point; what runs next is the scheduler's part.
- Semaphores.Semaphore.Post: the index behind the write outside the process table, and what is there, are not modelled; the write is counted.
- SemaphoreModel.LostExactly: excludes calls of a process while it is blocked, which a process that does not run cannot make.
- Philosophers.RemovalKeepsApart: is about the states before and after; the waits of `remove_philo` on `safe` and MUTEX and its kill are not steps of a run.
- Philosophers.AdditionKeepsCovered: the same for `add_philo`, whose wait on MUTEX and whose creation of a process are not steps of a run.
- HeapModel.HeapAlwaysConsistent: excludes frees of dead pointers inside the heap, because the code does not recognise them and corrupts its list.
- HeapModel.LiveBlocksDisjoint: excludes the same frees.
- HeapModel.AllocationServes: excludes the same frees.
- HeapMemory.KernelHeap.Deallocate: needs a live pointer or one outside the heap, because the code checks neither double frees nor foreign pointers.
- SchedulerKernel.Kernel.NextProcess: the saved stack pointer and segment are not modelled.
- BmfsDisk.SortRecords: an insertion sort stands for the library's `qsort`; the order of records that compare equal, and of deleted records, is that of this sort, and no result depends on it beyond which dead extent is taken.
- Creation, closing and lookup of semaphores and pipes by identifier; their identifiers and slots are mixed up in the code, so the model starts from objects that exist.
- Stack frames, register save and restore, parameters, input and output of a process: a switch changes the current slot.
- The spin lock: with one processor and interrupts off it is always free.
- User buffers are sequences, and counts above 2^31, which the `int` counters of the pipe loops do not reach, are not modelled.
- Philosophers are named by their index instead of their pid, and the ring keeps its size during a run; `add_philo` and `remove_philo` appear only in the lemmas about what they do to the states.
- The copying of files onto and off a BMFS disk, its messages, names of 32 bytes and more, and disks of fewer than two blocks; files of zero blocks do not occur because the command line refuses sizes below one.
- The names of the packer's files and its argument parsing; a module of 2^32 bytes or more is read back with the wrong length, as `SizeSurvivesExactly` says, and the loader's memory accesses are assumed to stay in memory.
- Freeing in the buddy allocator, which indexes the tree with -1 at the root and calls functions that do not exist, and its statistics and placement; the undefined names `get_fit_power` and `get_class_start_idx` are read as `get_fit_order` and `get_order_start_idx`.
- Boot code, interrupt tables, clock, speaker, graphics, shell, formatted input and output.
