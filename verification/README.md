# wtf-os, modelled and verified

wtf-os is a small single-core kernel for the Cortex-M4. This Dafny project models its hard core in one
layered model and proves what it promises:

- **Memory.** `Memory` is byte-addressed little-endian memory. `IntrusiveList` is the list library working on
  pointers in that memory, `NodeList` lists of structures linked through nodes inside them. `HeapInvariant`,
  `HeapOps`, `PhysMem` and `PhysMemCode` are the physical memory allocator, whose headers and free-list links live in
  the memory it hands out.
- **Time.** `Timer`, `TimerRefinement`, `TimerRuns` and `TimerCode` are the timer queue on a 32-bit clock that
  wraps, and the unbounded timer it refines.
- **Tasks.** `Kernel` gives the locked regions of task.c as functions and `TaskCode` their code in place, on lists
  linked in memory. `System` interleaves them: every region with interrupts off is one step, and a tick or a context
  switch may come between any two. `Scheduler`, `SystemInv`, `SystemRuns`, `TaskSteps`, `Lifecycle`, `Reclaim`,
  `SignalRuns`, `Fairness`, `Switching` and `Slices` prove what every run keeps; `SleepTime`, `EarlySleep`, `WholeSleep`, `Wakeup`
  and `SleepExample` are about how long a sleep takes; `ExitExample` is a run to an exited task;
  `JointRuns` runs the kernel and the allocator together.
- **User programs.** `TaskMem` and `TaskAlloc` are the memory a task owns and is given, on the allocator above;
  `Mpu` is the MPU table made from it; `Loader` fills the segments and relocates the GOT; `LoadedTask` puts allocation
  and loading together.
- **Flash.** `FlashPak` is the tool that writes paks and the parser that reads them, `FlashWalk` the walk from pak to
  pak over arbitrary bytes, `FlashSpan` the lookup.
  `Crc32` is the checksum.

Code that works in place is a class or a method on arrays, proved equal to a specification function; the lemmas
are about those functions. 32-bit wrap-around is written out wherever it can happen (`Wrap`, `Clock`). The Cortex-M4
is little-endian and so is the model. A signal word and `dynamic_flags` are the sets of their set bits. Log and console
calls are dropped.

## What the model found

- Task memory: the comment above `platform_user_task_mem_allocate` asks the caller to run the cleanup after a
  failure, but nothing has been recorded by then, so what was already allocated stays allocated
  (`TaskAlloc.FailedCallLeaks`, `TaskAlloc.LeakExample`).
- Sleep: `sleep` can return early. `WholeSleep.SleepLastsExactly` says exactly when, in terms of what a caller can look
  at before the call (`WholeSleep.MayBeShort`): KSLEEP is not masked, and either the bit is already set or the task's
  sleep event is still queued and some tick ends that older wait first. Both happen on runs from boot
  (`SleepExample.SecondInNoTime`, `SleepExample.SecondCutShort`): a timer set and not waited for is enough.
- Timer: `kern_timer_event_add` reads the clock before it takes the lock. The queue does what a timer on unbounded time
  does if and only if delay plus that lateness, and tick interval plus it, stay below 2^31
  (`TimerRefinement.BoundsExact`; `TimerRuns.LateAddHappens` is a run from initialisation where it does not).
- Allocator: comments speak of sorting and coalescing the free list. The code inserts at the head when no later entry is
  found and puts the split leftover at the tail: `HeapOps.FreeKeepsOrder` and `HeapOps.AllocKeepsOrder` give the exact
  conditions under which the order survives, `PhysMem.OutOfOrder` a heap where it does not. It coalesces nothing
  (`PhysMem.NeverCoalesces`).
- Task lists: `kern_task_start` keeps the lists sound exactly for a task that has not exited; one on the list of the
  dying gets its one node on two lists (`TaskCode.StartKeepsLists`, `ExitExample.StartAfterExit`). Where nobody starts
  the idle task or one that has exited, no run gets there (`TaskCode.InvServes`).
- Flash: over bytes that are not paks the walk of `flash_resource_span_init` need not end. Where no recorded length
  wraps it ends if and only if it meets none of zero (`FlashWalk.EndsUnlessZero`, `FlashWalk.StuckAtZero`); a length
  that wraps can keep it for ever too (`FlashWalk.GoesRound`), and over any bytes it ends if and only if it comes to no
  place twice (`FlashWalk.EndsUnlessBack`).
- Alignment: every align helper adds a whole unit to an aligned value. Writer and parser of paks align relative to
  different bases, so they agree exactly on 32-byte boundaries (`FlashPak.RoundTrip`).
- MPU: the code comments the GOT's access field as read-only; by the architecture manual it is read-only for users and
  writable for the kernel, and the model says so (`Mpu.Permits`). `kern_task_mem_setup_mpu` ignores refusals, and makes
  no slot for the data segment: with the MPU on a program that has one cannot read or write it
  (`LoadedTask.LoadedRights`, `LoadedTask.DataReadable`).
- Loader: a segment that ends exactly at offset 2^32 or wraps is taken for empty (`Loader.InRangeExact`).

## What callers are asked for

- `kern_physmem_alloc`: size, header and alignment together stay below 2^32, as the unguarded 32-bit sum needs.
  `kern_physmem_add_range`: a range that is taken holds a header and is disjoint from earlier ones; ranges with other
  flags, or past the end of the bootstrap table, may be anything.
  `kern_physmem_free`: the address is an allocation.
- `Mpu.FindSize` shifts and compares as the compiled code does for 2^31, where the C shift of a signed 1 overflows;
  address masks of the form 2^n - 1 are written as remainders.
- Task structures lie apart from each other in memory (`NodeList.Spaced`). The offsets of the nodes in them are those of
  `struct kern_task` with 4-byte words; the proofs use no more than that the nodes do not overlap.
- Timer claims: delay + lateness and tick interval + lateness are below 2^31 (`TimerRefinement.BoundsOk`).
- Sleep claims: KSLEEP is posted by the sleep timer only (`SleepTime.Polite`).
- Loader: image segments are disjoint (`Loader.ImageOk`), and the image lies in memory that never was the allocator's
  and holds what its header speaks of (`LoadedTask.ImageApart`).
- `kern_task_start`: the task is not the idle task and has not exited.
- Rights of a loaded program: the sizes in its header are at most 2^29 (`LoadedTask.Encodable`), and the allocator was
  given no part of the flash window (`LoadedTask.FlashApart`).
- Waiting in ticks: a switch that a tick asks for is made before the next tick (`Slices.Prompt`).
- Flash lookup: the region holds paks of the tool followed by a word that is not the magic. The initialisation asks only
  that its walk ends and can read what it comes to. A magic word so near the top of memory that its length field
  is not in memory counts as the end.
- The system starts with the idle task selected, because `kern_task_select` reads `current_task`.

## Model

| member | source | states |
|---|---|---|
| IntrusiveList.AddHeadInserts | src/kern/libraries/list/list.c:37-55 | Rewiring the pointers of a well-linked list in raw memory puts the node at the front of its sequence and touches only the bytes of its nodes |
| IntrusiveList.AddTailInserts | src/kern/libraries/list/list.c:56-73 | The same at the end |
| IntrusiveList.AddBeforeInserts | src/kern/libraries/list/list.c:74-88 | The same before a given node, the head included |
| IntrusiveList.AddAfterInserts | src/kern/libraries/list/list.c:89-103 | The same after a given node, the tail included |
| IntrusiveList.DeleteRemoves | src/kern/libraries/list/list.c:105-122 | Deleting takes exactly that node out of the sequence and leaves its links null |
| IntrusiveList.OtherListKept | src/kern/libraries/list/list.c:37-122 | A list whose nodes lie apart from the touched bytes keeps its contents |
| IntrusiveList.ListHead.AddAfter | src/kern/libraries/list/list.c:89-103 | The in-place code does to memory and tail what the proved insertion does |
| IntrusiveList.ListHead.Delete | src/kern/libraries/list/list.c:105-122 | The in-place code does to memory and head what the proved operation does |
| NodeList.StructList.PushTail | src/kern/libraries/list/list.c:56-73 | On a list of structures linked through a node inside each, adding at the tail in memory appends to its sequence and touches only its own nodes |
| NodeList.StructList.Remove | src/kern/libraries/list/list.c:105-122 | The same for taking a structure out |
| NodeList.HoldsKept | src/kern/libraries/list/list.c:37-122 | Changing the nodes of one list leaves another list in the same structures as it was, if they use different nodes or have no structure in common |
| PhysMem.EveryRunSettles | src/kern/core/physmem.c:145-442 | Over every run of add-range, alloc, free and client writes inside payloads, free and live blocks are disjoint, cover exactly the added ranges, and every header still describes its block |
| PhysMem.Partition | src/kern/core/physmem.c:145-442 | A byte was added if and only if it is in a free or live block, and then in exactly one |
| PhysMem.HeadersOutOfReach | src/kern/core/physmem.c:308-368 | Every header lies inside its own block and outside every payload |
| PhysMem.HeaderWords | src/kern/core/physmem.c:69-117 | After any run each block has its header where the layout of the structure puts it, in literal offsets: magic, free byte, start and size |
| PhysMem.MagicHolds | src/kern/core/physmem.c:69-92 | So every magic check the allocator can make, on a free entry or before a client address, succeeds |
| PhysMem.PayloadsDisjoint | src/kern/core/physmem.c:210-377 | Two live payloads share no byte |
| PhysMem.AllocContract | src/kern/core/physmem.c:210-377 | alloc returns 0, and changes nothing, exactly when no free entry has room for the bytes from the first multiple of the alignment strictly past its header; otherwise it takes the first entry that has and returns that address. What is left behind the payload becomes a free block at the tail if it is more than 280 bytes and stays with the allocation if not. The bytes are zero if asked, and as they were if not |
| PhysMem.ZeroesByFlag | src/kern/core/physmem.c:347-365 | Bit 0 of the flags, and no other, asks for zeroes; without it an allocation leaves its bytes as they were |
| PhysMem.WholeUnit | src/kern/core/physmem.c:268-302 | A free entry of 600 bytes at 0x20001000: a request of 512 aligned to 8 is given 0x20001020, a whole unit past the header though that address is aligned; one of 576 is refused |
| HeapOps.AllocLeavesBytes | src/kern/core/physmem.c:308-377 | None of the writes an allocation makes, unlinking, splitting and stamping, falls inside the payload it returns |
| HeapOps.FreeEffect | src/kern/core/physmem.c:386-442 | Freeing restores the block's true bounds, puts it where the search says, and disturbs no payload |
| HeapOps.RangeAddedEffect | src/kern/core/physmem.c:145-188 | Adding a normal-SRAM range adds one free block at the tail of the list |
| PhysMem.AddRangeExact | src/kern/core/physmem.c:145-188 | By flag bits: with room in the bootstrap table, and bits 0 and 2 set and no other, the call leaves one new free block over the range at the tail; any other flags, or a full table, leave blocks and free list as they were |
| PhysMem.Boots | src/boards/stm32f429-discovery/main.c:283-287 | The two calls made at boot leave exactly the first range free, and the first request that fits it succeeds at its place |
| HeapOps.FreeKeepsOrder | src/kern/core/physmem.c:386-442 | Freeing keeps an ascending free list ascending exactly when the list is empty or its last entry lies above the freed block |
| HeapOps.AllocKeepsOrder | src/kern/core/physmem.c:308-377 | Allocating keeps it ascending exactly when nothing is left over or the entry cut is the last |
| PhysMem.OutOfOrder | src/kern/core/physmem.c:386-442 | A concrete heap of two ranges where one allocation and its free leave the list out of order |
| PhysMem.NeverCoalesces | src/kern/core/physmem.c:145-442 | Over any run every block keeps its start for ever and never grows |
| PhysMem.RunKeepsClient | src/kern/core/physmem.c:210-442 | Over any run an allocation stays where it is, with its size and bytes, until its own owner writes or frees it |
| PhysMemCode.Allocator.Alloc | src/kern/core/physmem.c:210-377 | The in-place code, walking links in the memory it hands out, reaches the specified heap and address, with no magic failure |
| PhysMemCode.Allocator.Free | src/kern/core/physmem.c:386-442 | The same for free |
| PhysMemCode.Allocator.AddRange | src/kern/core/physmem.c:145-188 | The same for add-range, the bootstrap table included |
| PhysMemCode.Allocator.AddToFreeListLocked | src/kern/core/physmem.c:119-133 | Stamping a header and linking it at the tail |
| Timer.AfterEqExact | src/kern/core/timer.c:52-68 | The wrapping comparison gives the true order of two times exactly when they are within half the number circle |
| Timer.RollsOver | src/kern/core/timer.c:36-40 | The clock starts 32768 ms before its rollover, and reads zero exactly then and every 2^32 ms after |
| TimerRefinement.TickRefines | src/kern/core/timer.c:152-258 | A tick fires exactly what a timer on unbounded time fires, in deadline order, and leaves the queue sorted with every deadline still to come |
| TimerRefinement.AddRefines | src/kern/core/timer.c:353-403 | Adding keeps the refinement: the wrapping search finds the place of the true deadline |
| TimerRefinement.DelRefines | src/kern/core/timer.c:416-444 | Deleting keeps the refinement |
| TimerRefinement.BoundsExact | src/kern/core/timer.c:152-180 | Whatever is queued, every add within the bounds and every tick does what the unbounded timer does, if and only if delay plus lateness and tick interval plus lateness are below 2^31; so it is from any moment on |
| TimerRefinement.LateAdd | src/kern/core/timer.c:353-391 | A concrete queue where an add two milliseconds late puts the later deadline first |
| TimerRuns.LateAddHappens | src/kern/core/timer.c:353-391 | A run from initialisation, of two ticks and two adds, that gets there |
| TimerRuns.EveryRunRefines | src/kern/core/timer.c:152-444 | Over every run, across rollovers: same callbacks as the unbounded timer, a non-empty queue has the timer running, and successful adds equal callbacks plus cancellations plus pending events |
| TimerRuns.TickFires | src/kern/core/timer.c:152-180 | An event fires at a tick if and only if its true deadline has passed, and leaves the queue exactly then |
| TimerRuns.SilentUntilAdded | src/kern/core/timer.c:353-444 | An event not on the queue, as after a successful delete, never fires until it is added again |
| Timer.TickFlags | src/kern/core/timer.c:160-258 | Flags say which list an event is on; after the tick the fired ones carry none, and fired plus queued is the old queue |
| TimerCode.TimerQueue.Collect | src/kern/core/timer.c:152-180 | The loop that unlinks due events and links them to the list of the tick, in memory, reaches the specified state and touches no other node |
| TimerCode.TimerQueue.Finish | src/kern/core/timer.c:236-258 | The safe walk that clears flags and unlinks every event of that list reaches the specified state |
| TimerCode.TimerQueue.Add | src/kern/core/timer.c:364-403 | The walk over the links and the sorted insertion reach the specified state and report whether the event was free |
| TimerCode.TimerQueue.Del | src/kern/core/timer.c:416-444 | Delete reaches the specified state and fails exactly for an event a tick is firing |
| TimerCode.TimerQueue.Idle | src/kern/core/timer.c:273-283 | An empty queue stops the timer and another leaves it as it is |
| Switching.IdleStopsTimer | src/kern/core/timer.c:273-283 | After the timer region of the idle task the timer runs if and only if it ran before and an event is queued |
| Switching.SelectionStartsTimer | src/kern/core/task.c:341-366 | After a selection it runs if and only if it ran before or more than one task is active |
| SystemRuns.EveryRun | src/kern/core/task.c:270-1016 | Over every interleaving of ticks, switches and kernel calls: flags, counts, lists and states agree, only the current task is RUNNING, READY tasks are active, sleeping, dying and unstarted ones are not, sleepers have nothing to wake for, memory has one owner |
| SystemRuns.StepInv | src/kern/core/task.c:270-1016 | Each single step keeps that invariant |
| SystemRuns.NeverStuck | src/kern/core/task.c:284-366 | The invariant provides everything the next step relies on |
| Scheduler.WaitKeeps | src/kern/core/task.c:795-852 | One turn of the wait loop keeps the scheduler invariant, though a successful wait makes the executing task READY |
| Kernel.RefBalanced | src/kern/core/task.c:889-947 | Looking a task up and releasing it leaves the 16-bit reference count as it was |
| SignalRuns.SleepersHaveNothingToWakeFor | src/kern/core/task.c:795-852 | A task SLEEPING in a wait with mask M has no bit set in sig_set & sig_mask & M |
| SignalRuns.AnsweredIsRunnable | src/kern/core/task.c:867-888 | A waiting task whose wait would succeed is on the run queue |
| SignalRuns.StepSignals | src/kern/core/task.c:795-947 | What any step does to a task's signals: posted bits are added, only its own successful wait takes bits, all of them reported, and the reference count is unchanged |
| SignalRuns.WaitEnds | src/kern/core/task.c:818-852 | A turn of the wait loop ends with the task READY, back in its own code and on the run queue, or SLEEPING, still in the wait and off it |
| SignalRuns.SignalStays | src/kern/core/task.c:795-947 | A posted bit stays set over any run until a wait naming it takes it |
| SignalRuns.PostArrives | src/kern/core/task.c:889-947 | A successful post sets every bit and leaves the task asleep only if all are masked |
| SignalRuns.PostTaken | src/kern/core/task.c:889-947 | A post adds its bits to a task in any state but not started and dying, and leaves those two as they are |
| SignalRuns.NewTaskSignals | src/kern/core/task.c:117-149 | A new task takes no signal until it is started, has none set, and has exactly bits 0 to 7 unmasked |
| Fairness.StepQueue | src/kern/core/task.c:596-621 | Starts, signals, sleeps, exits, reaps and ticks only append to the run queue or take one task out |
| Fairness.SwitchRank | src/kern/core/task.c:297-341 | A selection runs the head and moves everyone else one place up, or runs the idle task and changes nothing while a task is dying |
| Fairness.BoundedWaiting | src/kern/core/task.c:297-341 | A task at position k that stays active is selected within k+1 selections made with no task dying |
| Switching.StepAsks | src/kern/core/task.c:551-638 | Exactly when any step but the switch itself leaves a context switch pending: it was pending; or switching is on and the step is a tick, puts a task on the run queue, or sends the executing task to sleep or to die; or the idle task has finished a cleanup, or an exited task asks. A step that does not ask and is no tick leaves the run queue as it was |
| Switching.TickAlwaysAsks | src/kern/core/task.c:1005-1016 | With switching on every tick leaves a context switch pending |
| Switching.EveryRunProgress | src/kern/core/task.c:284-366 | Over every run from boot, once switching is on: a task that has gone to sleep or begun to die executes only with a switch pending; so does the idle task while another could run, unless it is at its cleanup; and while several tasks share the processor the timer runs or a switch is due |
| Switching.NobodyForgotten | src/kern/core/task.c:284-366 | So at every moment a task on the run queue that is not executing has a switch pending, or a tick to come that will ask for one, or the idle task at its cleanup |
| Slices.SelectedInTicks | src/boards/stm32f429-discovery/main.c:203-209 | Where each switch a tick asks for is made before the next tick, an active task at position k of the run queue is selected within k+1 ticks during which no task is dying |
| Lifecycle.ReapedIsGone | src/kern/core/task.c:423-445 | A reaped task is not current, is on no list but the idle task's, and its sleep event is not queued |
| Lifecycle.ExitIsFinal | src/kern/core/task.c:722-753 | No step changes a task that has exited, until it is gone |
| Lifecycle.FreedWhileLive | src/kern/core/task.c:378-395 | Each region freed by a cleanup is live at that moment and owned by no other slot |
| Lifecycle.GoneMeansReturned | src/kern/core/task.c:378-420 | When a dynamic task disappears, each of its dynamic regions and then its structure has gone back to the allocator, each exactly once |
| Lifecycle.StaticMeansReturned | src/kern/core/task.c:378-420 | A cleaned-up static task has given back all its regions and owns nothing |
| Reclaim.MemoryComesBack | src/kern/core/task.c:378-500 | After a task has exited, its regions and its structure are back with the allocator within a stated number of turns of the idle task, over any run |
| Reclaim.EveryRunDeadOk | src/kern/core/task.c:450-500 | The idle task does its own business only while nobody dead waits: what that bound rests on holds after every run |
| TaskCode.TaskSystem.SetStateLocked | src/kern/core/task.c:551-638 | The state change on linked lists, the node shared by the run queue and the list of the dying included, reaches the specified state and leaves every other list linked |
| TaskCode.TaskSystem.PostSignal | src/kern/core/task.c:889-947 | The in-place signal call reaches the specified state and says whether it was taken |
| TaskCode.TaskSystem.WaitTurn | src/kern/core/task.c:818-852 | One turn of the wait loop, in place |
| TaskCode.TaskSystem.SelectTask | src/kern/core/task.c:284-366 | Selection in place: the head of the run queue is unlinked and linked at the tail; the early way out for dying tasks and the timer start included |
| TaskCode.TaskSystem.SysTick | src/boards/stm32f429-discovery/main.c:203-209 | All phases of the timer tick, the callbacks along the list of due events, then the task tick |
| TaskCode.TaskSystem.StartTask | src/kern/core/task.c:270-276 | Starting a task that has not exited makes it ready, in place |
| TaskCode.TaskSystem.CreateTask | src/kern/core/task.c:117-149 | A new structure gets its two list nodes, its event and its place at the end of the task list, and disturbs no list |
| TaskCode.TaskSystem.ReapDyingLocked | src/kern/core/task.c:422-445 | Reaping unlinks both nodes of every dying task and links it to the list of the dead through the first |
| TaskCode.TaskSystem.TimerSet | src/kern/core/task.c:95-114 | Delete, then add at now plus the delay; it fails exactly while the event is firing |
| TaskCode.StartKeepsLists | src/kern/core/task.c:270-276 | Starting a task keeps flags and lists in agreement if and only if the task has not exited; a dying one ends up on two lists through one node |
| ExitExample.StartAfterExit | src/kern/core/task.c:270-276 | A run from boot to an exited task; starting it there puts its one node on two lists |
| TaskCode.InvServes | src/kern/core/task.c:551-638 | In every state the scheduler invariant allows, the flags and lists are as this code needs them, and only a task that has exited is on its way to the dead |
| SleepTime.EveryRunInTime | src/kern/syscalls/syscall_sleep.c:22-42 | Over every run in which only the sleep timer posts KSLEEP, the wrapping timer refines the unbounded one and each sleep keeps its deadline |
| WholeSleep.SleepLastsExactly | src/kern/syscalls/syscall_sleep.c:22-42 | From the call to the return, a sleep lasts at least the milliseconds it asked for in every such run, if and only if at the call KSLEEP is masked, or it is clear and the old event is not queued or no tick ends its wait before the new one |
| WholeSleep.NotShort | src/kern/syscalls/syscall_sleep.c:22-42 | One half: in those cases no run is short |
| WholeSleep.ShortRun | src/kern/syscalls/syscall_sleep.c:22-42 | The other: in all other cases there is a run that returns early |
| SleepTime.NeverEarly | src/kern/syscalls/syscall_sleep.c:30-38 | The step behind it: a sleep whose old event was deleted with KSLEEP still clear returns no earlier than the milliseconds asked for after its clock read |
| EarlySleep.StaleSleepReturnsAtOnce | src/kern/syscalls/syscall_sleep.c:30-38 | With KSLEEP set and unmasked at the call, a sleep of any length can return with no time passed |
| SleepExample.Reachable | src/kern/syscalls/syscall_sleep.c:22-42 | A run from boot: create, start, switch, and set the timer to one millisecond |
| SleepExample.SecondCutShort | src/kern/syscalls/syscall_sleep.c:30-38 | From there, a sleep of one second can be short because the old event is still queued |
| SleepExample.SecondInNoTime | src/kern/syscalls/syscall_sleep.c:30-38 | One tick later, a sleep of one second can take no time |
| SleepTime.StaleSignalEndsSleep | src/kern/core/task.c:818-852 | A sleep whose old event was deleted with KSLEEP set and unmasked succeeds at its first look |
| SleepTime.WakesOnTime | src/kern/core/task.c:74-94 | The first tick at or past the deadline sets KSLEEP and leaves the task on the run queue unless it masks KSLEEP; an earlier tick leaves the event queued |
| Wakeup.SleepEnds | src/kern/syscalls/syscall_sleep.c:22-42 | After the tick that reaches its deadline an unmasked sleep has returned once the run has made one more fair selection than its place in the run queue and it has had a turn of its own |
| Wakeup.DueReturns | src/kern/core/task.c:795-852 | The same for any wait that would succeed, however other steps interleave |
| Slices.SleepEndsInTicks | src/kern/syscalls/syscall_sleep.c:22-42 | The same bound counted in ticks |
| Wakeup.QueuedUntilBack | src/kern/core/task.c:867-888 | Until it has returned such a task stays on the run queue |
| TaskMem.TaskMemory.Set | src/bsp/local/arm-m4-32/kern/task_mem.c:53-64 | Recording a region changes that slot and its dynamic bit and nothing else |
| TaskMem.TaskMemory.Cleanup | src/bsp/local/arm-m4-32/kern/task_mem.c:89-107 | The loop makes the specified frees on the real allocator, no magic check fails, and the structure is unchanged |
| TaskMem.CleanupRun | src/bsp/local/arm-m4-32/kern/task_mem.c:89-107 | Every one of those frees is a valid one, and afterwards exactly the dynamic regions are gone from the allocations |
| TaskMem.CleanupSpares | src/bsp/local/arm-m4-32/kern/task_mem.c:89-107 | No byte of any other allocation changes |
| TaskMem.CleanupMatches | src/kern/core/task.c:378-395 | The allocator's allocations stay the scheduler model's set of live addresses through a cleanup, without a bad free |
| JointRuns.EveryJointRun | src/kern/core/task.c:378-420 | A run of the kernel together with the allocator is a run of each; at its end the live addresses of the scheduler model are exactly the allocations, and every slot a task owns is an allocation of the size recorded for it |
| JointRuns.BootLinked | src/kern/core/task.c:640-662 | The two start out that way |
| JointRuns.UserTaskSound | src/bsp/local/arm-m4-32/kern/task_mem_alloc.c:194-234 | So the record of every live user task is sound |
| JointRuns.LiveTasksApart | src/bsp/local/arm-m4-32/kern/task_mem.c:125-172 | After any such run two live user tasks can never both write the same byte, and neither can write an allocator header, any allocation but its own stack, heap and bss, or anything outside the ranges of the allocator |
| TaskMem.Transfer | src/bsp/local/arm-m4-32/kern/task_mem.c:182-187 | The destination takes over every slot and the source owns nothing |
| TaskMem.NothingToFree | src/bsp/local/arm-m4-32/kern/task_mem.c:174-187 | Cleaning up the source after a transfer frees nothing |
| TaskAlloc.MpuRegionSize | src/bsp/local/arm-m4-32/kern/task_mem_alloc.c:47-72 | The doubling loop computes the specified size |
| TaskAlloc.RegionSizeIsLeast | src/bsp/local/arm-m4-32/kern/task_mem_alloc.c:47-72 | Up to 2^29 that is the least power of two, at least 32, that holds the length |
| TaskAlloc.GotFitsRegion | src/bsp/local/arm-m4-32/kern/task_mem_alloc.c:138-142 | The GOT words the loader writes fit the region allocated for them exactly when the GOT size is at most 2^29 or a multiple of four |
| TaskAlloc.AllocateUserTask | src/bsp/local/arm-m4-32/kern/task_mem_alloc.c:104-239 | Six zeroed requests in order, stopping at the first failure; on success all eight slots are recorded, on failure the structure is untouched |
| TaskAlloc.SeriesBacked | src/bsp/local/arm-m4-32/kern/task_mem_alloc.c:115-192 | Each address given out is a zeroed, aligned allocation of its own that nobody had, and every earlier allocation is as it was |
| TaskAlloc.TaskOwns | src/bsp/local/arm-m4-32/kern/task_mem_alloc.c:194-234 | The recorded dynamic regions are six such allocations of the recorded sizes |
| TaskAlloc.KernelStack | src/bsp/local/arm-m4-32/kern/task_mem_alloc.c:194-234 | Among them the kernel stack, of 512 bytes on a boundary of eight |
| TaskAlloc.FailedCallLeaks | src/bsp/local/arm-m4-32/kern/task_mem_alloc.c:98-102 | After a failed call, cleaning up the empty structure restores the allocations exactly when the first request was the one that failed |
| TaskAlloc.LeakExample | src/bsp/local/arm-m4-32/kern/task_mem_alloc.c:98-102 | A concrete heap where it does not |
| Mpu.Validate | src/bsp/local/arm-m4-32/core/arm_m4_platform.c:303-337 | Accepts exactly the regions the hardware can describe: a power of two from 32 bytes to 2 GB, on a boundary of its size |
| Mpu.Set | src/bsp/local/arm-m4-32/core/arm_m4_platform.c:349-438 | Accepts exactly those with a programmable protection, and the entry then decodes by section B3.5 of the ARMv7-M manual to exactly that region and those rights; a refused call changes nothing |
| Mpu.BuildRasr | src/bsp/local/arm-m4-32/core/arm_m4_platform.c:389-424 | The masked and shifted fields decode to the size, no disabled subregion, and the rights named |
| Mpu.SetupMpu | src/bsp/local/arm-m4-32/kern/task_mem.c:125-172 | Which region goes to which slot, with which rights; a refused region leaves its slot blank and the call still succeeds |
| Mpu.RoundedDescribable | src/bsp/local/arm-m4-32/kern/task_mem_alloc.c:47-78 | Rounding makes a region describable exactly for lengths up to 2^29, and 2^30 and 2^31 |
| Mpu.AllocatedDescribable | src/bsp/local/arm-m4-32/kern/task_mem_alloc.c:138-234 | With header sizes up to 2^29 every region of a successful allocation can be encoded, the data region included |
| Mpu.MappedExactly | src/bsp/local/arm-m4-32/kern/task_mem.c:125-172 | Then each mapped region is mapped to the byte, and a task can write exactly its stack, heap and bss |
| Mpu.RightsExact | src/bsp/local/arm-m4-32/kern/task_mem.c:125-172 | By the decoders of the architecture manual, byte by byte: a user-mode fetch goes through exactly in the text region, a load exactly in text, stack, heap, GOT and bss, a store exactly in stack, heap and bss |
| Mpu.WritesStayHome | src/bsp/local/arm-m4-32/kern/task_mem.c:125-172 | A task can write no allocator header, no byte of any other allocation, and nothing outside the ranges the allocator was given, so no kernel stack, allocated or static |
| Mpu.TasksApart | src/bsp/local/arm-m4-32/kern/task_mem.c:125-172 | Two tasks owning different allocations can never both write the same byte |
| Mpu.NewTaskSound | src/bsp/local/arm-m4-32/kern/task_mem_alloc.c:104-234 | A newly allocated task owns nothing an earlier task owns, and the earlier task's regions stay sound |
| Loader.InRangeExact | src/kern/user/user_exec.c:44-48 | With its 32-bit sum the range test finds a segment as it is, unless the segment runs up to the last offset; then it finds it empty |
| Loader.FirstCounts | src/kern/user/user_exec.c:162-204 | An offset that several segments hold is relocated by the first of bss, text, data and rodata |
| Loader.SetupSegments | src/kern/user/user_exec.c:214-234 | The stages in order, in place, reach the specified memory and result |
| Loader.SetupGot | src/kern/user/user_exec.c:143-207 | The GOT loop in place |
| Loader.GotRelocates | src/kern/user/user_exec.c:143-207 | It succeeds exactly when every word is in some segment, and then relocates each |
| Loader.GotStays | src/kern/user/user_exec.c:162-204 | It writes nothing outside its own words, whether or not it succeeds |
| Loader.SetupStays | src/kern/user/user_exec.c:105-234 | Setup changes nothing outside the data, bss and GOT destinations |
| Loader.SegmentsLoaded | src/kern/user/user_exec.c:105-141 | No stage undoes another: every byte of every segment is afterwards what the program expects |
| LoadedTask.GivenIsPlaced | src/boards/stm32f429-discovery/test_userload.c:147-177 | The addresses a successful allocation gives meet what the loader relies on, for every image in memory that never was the allocator's |
| LoadedTask.LoadingSpares | src/boards/stm32f429-discovery/test_userload.c:147-177 | Loading is three writes of the task to allocations of its own: the heap stays settled and every other allocation, the earlier ones among them, keeps place, size and bytes, even if a GOT word was bad |
| LoadedTask.LoadedRights | src/bsp/local/arm-m4-32/kern/task_mem.c:125-172 | The rights of a task after a successful allocation, loading and MPU setup: it can execute exactly 0x08000000 to 0x08200000; read and write its bss, heap and stack; read and not write its GOT; and do neither with its kernel stack, nor with its own data segment, which gets no slot |
| LoadedTask.DataReadable | src/bsp/local/arm-m4-32/kern/task_mem.c:157-169 | With the MPU on a program can read its data segment if and only if that is empty |
| Loader.SetupPreservesMeaning | src/kern/user/user_exec.c:105-234 | Setup succeeds exactly when every GOT offset is in some segment; each entry then points into the segment its offset named, at the same relative place, where memory holds the image byte, or zero in bss |
| FlashPak.AlignUpIsNext | src/kern/libraries/align/align_paddr.c:27-33 | Aligning gives the next multiple strictly above: an aligned value moves up a whole unit |
| FlashPak.SizesAgree | src/tools/flash_resource/make_entry.c:32-75 | The total computed for the length field is what the two writes add up to |
| FlashPak.PopulateHeaderBuf | src/tools/flash_resource/make_entry.c:88-123 | The header buffer holds the eight words, the label and zeros |
| FlashPak.MakePak | src/tools/flash_resource/make_entry.c:250-286 | The file is a pak of the entry: header, label, payload after the padding, recorded length equal to the bytes written |
| FlashPak.CheckPak | src/kern/flash/flash_resource.c:41-96 | The parser accepts exactly the magic, and then reads the fields, the cut label and the payload place that memory holds |
| FlashPak.Strlcpyn | src/kern/libraries/string/strlcpyn.c:15-40 | Copies as many bytes as fit, a NUL, leaves the rest of the buffer, and returns the source length |
| FlashPak.RoundTrip | src/kern/flash/flash_resource.c:41-96 | Parsing a pak the tool wrote recovers its fields, and delimits its payload exactly when the pak lies on a 32-byte boundary |
| FlashPak.FirstBytes | src/tools/flash_resource/make_entry.c:108 | The magic lies in the file least significant byte first: every pak begins with 79 19 09 05 |
| FlashSpan.Strncmp | src/kern/libraries/string/strncmp.c:25-39 | Zero exactly when the two C strings agree in their first len characters |
| FlashWalk.EndsUnlessZero | src/kern/flash/flash_resource.c:118-125 | Over any bytes in which no recorded length wraps, the walk ends if and only if it meets no recorded length of zero |
| FlashWalk.EndsUnlessBack | src/kern/flash/flash_resource.c:118-125 | Over any bytes at all it ends if and only if it comes to no place twice |
| FlashWalk.StuckAtZero | src/kern/flash/flash_resource.c:118-125 | One header with length zero keeps the walk for ever |
| FlashWalk.GoesRound | src/kern/flash/flash_resource.c:118-125 | Two headers, neither of length zero, keep it for ever where a length wraps |
| FlashSpan.ChainWalkEnds | src/kern/flash/flash_resource.c:118-125 | Over a chain of paks the walk ends and can read all it comes to |
| FlashSpan.FilesChain | src/kern/flash/flash_resource.c:131-160 | The files of the tool one after another, with a word that is not the magic behind them, are a chain the walk understands |
| FlashSpan.Span.Init | src/kern/flash/flash_resource.c:98-129 | Sets the span up once, on any bytes over which its walk ends and can read what it comes to |
| FlashSpan.Span.Lookup | src/kern/flash/flash_resource.c:131-160 | Returns the first pak seen whose truncated label begins with the request, or false when none does |
| FlashSpan.SeesAll | src/kern/flash/flash_resource.c:146-157 | When the chain ends inside the span, the walk sees all of it |
| FlashSpan.SeenExactly | src/kern/flash/flash_resource.c:146-157 | Exactly: it sees the first pak, and each that does not start beyond the end of the span; one that starts at the end is still seen |
| FlashSpan.StartsAligned | src/kern/flash/flash_resource.c:146-157 | Every start visited is 32-aligned if the span is |
| FlashSpan.FoundPayload | src/kern/flash/flash_resource.c:131-160 | A successful lookup in an aligned span delimits exactly the payload of the pak it found |
| FlashSpan.LongRequestFails | src/kern/flash/flash_resource.c:136-152 | A request of 16 or more characters is never found |
| FlashSpan.MatchesExactly | src/kern/flash/flash_resource.c:136-152 | A label answers exactly the requests of up to 15 characters that it begins with |
| Crc32.Crc32b | src/kern/libraries/crc32/crc32b.c:28-48 | The bitwise loop computes the table-driven CRC-32 of section 8 of RFC 1952 for every message |
| Crc32.ByteStep | src/kern/libraries/crc32/crc32b.c:34-45 | Eight turns of the inner loop are one table step |
| Crc32.ShiftedLinear | src/kern/libraries/crc32/crc32b.c:36-44 | The shift-register step is linear |
| Crc32.TimesInjective | src/kern/libraries/crc32/crc32b.c:36-44 | and never forgets: different contents stay different |
| Crc32.BurstDetected | src/kern/libraries/crc32/crc32b.c:28-48 | Two different messages of equal length that differ only inside some 32-bit window have different checksums |
| Crc32.EmptyChecksum | src/kern/libraries/crc32/crc32b.c:28-48 | The checksum of no bytes is zero |
| Crc32.Residue | src/kern/libraries/crc32/crc32b.c:28-48 | Appending the checksum of a message to it, least significant byte first, gives a message with the checksum 0x2144df1c, whatever the message |

## Left out

- Register drivers, startup code, NVIC and SysTick programming: no state of their own to reason about.
- The assembly context switch, the SVC trampoline and stack frames: a switch is "the current task changes".
- Spinlock internals: a locked region is one step, which disabling interrupts gives on one core.
- `kern_timer_stop`: the runs considered do not call it, so that a queued event can count on ticks to come.
- `kern_task_exit`, `kern_task_cleanup` and the idle loop in task.c: modelled as steps of `System`, not as code in place.
- The fields of a task or event other than its list nodes are kept in maps by address, not as bytes of the memory the
  nodes are in.
- TaskCode.TaskSystem.TimerSet: states the call with nothing between its two locked regions; the interleaved call is a
  series of steps of `System`.
- Timer re-arm, `kern_task_kill` and `kern_realloc`: not implemented by the code.
- `user_exec_program_parse_header` and its missing bounds checks: fourteen loads in a row.
- Reading the payload file, option parsing and allocation failure in make_entry.c.
- TaskCode.TaskSystem.SelectTask: the MPU table programming that ends `kern_task_select` is register writes; which table
  a task has is `Mpu`.
- SleepTime.WakesOnTime: the task reaches the run queue; that it then returns is `Wakeup.SleepEnds`.
- Caching and bus effects of the memory attributes in the MPU table; overlapping MPU regions are counted as the union of
  what they allow.
- The `checksum` field of a pak: the tool writes zero and the parser does not check it.
