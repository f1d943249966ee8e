# Verified model of a small 32-bit kernel's core

The kernel is a teaching operating system for IA-32, written in C. This project models the parts of it
that other code relies on, and proves for all inputs, all runs and all interleavings what those parts are
for. Where the C code departs from what its comments promise, the code is followed, and the exact condition
under which it keeps the promise is proved.

| Module | Models | Form |
|---|---|---|
| `Machine` | words, tasks, nullable pointers | values |
| `Bitmap` | `lib/kernel/bitmap.c`: bits in bytes, the first-fit scan pass by pass, the bulk setter | class over a byte array, and the scan as a step function |
| `List` | `lib/kernel/list.c`: circular intrusive lists and the sentinel-free queue | heap nodes, in place |
| `Heap` | `mm/memory.c`, kernel path: page runs, arenas, seven block sizes | what a call computes |
| `HeapSafety`, `HeapRuns`, `HeapConservation` | whole runs of `sys_malloc` and `sys_free` | invariant and run theorems |
| `HeapAnswers` | when a request is granted, what it is given, what a release gives back | laws about bitmaps, lists and sizes alone |
| `HeapWords`, `HeapMemory`, `HeapCalls` | the list links and arena headers as words inside the memory that is handed out | word-by-word programs that refine `Heap`, with clients that write in between |
| `KernelHeap` | `mm/memory.c` as it runs: two bitmaps and the words of memory | class that updates both in place |
| `Boot` | pool sizing and page tables of `mm/memory.c`; the format is 32-bit paging, section 4.3 of the Intel SDM, Volume 3A | writes to physical memory, in place |
| `Scheduler` | `thread/thread.c` and the tick of `device/timer.c` | one function per interrupts-off section |
| `Sync` | `thread/sync.c` over the scheduler | step system: one CPU, any tasks, any locks |
| `Thread` | the same two files as they are written | classes that assign fields and relink the tasks' dispatch nodes between rings, proved equal to the functions above |
| `IoQueue` | `device/ioqueue.c` | ring buffer in place, and a step system of producers and consumers |
| `Ide`, `IdeHandshake` | `device/ide.c`: command splitting and registers (the count register follows READ SECTOR(S), section 8 of ATA/ATAPI-6), and the driver/handler handshake | loop in place; step system |
| `Stdio` | `lib/stdio.c`: `itoa`, `vsprintf` | writes through a moving position in a buffer |

`dafny verify dfyconfig.toml` checks everything.

## How the model is cut

- A failed `ASSERT` hangs the machine (`kernel/debug.c`). It is an outcome of its own here, never a
  precondition, except where the source itself asks it of callers.
- A section with interrupts off is one step and ends at the context switch. The statements of
  `lock_acquire` and `lock_release` are steps of their own: an interrupt may fall between any two.
  `thread_start` is one step, as it runs with interrupts off (`kernel/main.c:36-41`). Clock interrupts are
  allowed wherever a step ends, which is more than the kernel allows. A task may block in its own code, with
  locks held or not, and be woken by whoever runs or by an interrupt handler; that is how the ring buffer and
  the disk driver sleep while they hold their lock.
- `sys_malloc` and `sys_free` run under `kernel_pool.lock`, which `Sync` proves to be exclusive; runs of the
  heap are therefore sequences of whole calls.
- `Heap.Form` selects the bulk setter: `Literal` as written, `Documented` as its header promises.
- The heap's class knows the bitmaps and the words of memory; what they mean is its ghost state. A free is asked
  to name a live pointer or one below the heap, as the source asks of its callers.
- A dispatch node belongs to one task for ever (`Node.entry`, which is what `list_entry` computes).
- `World.owner`, `Lock.owner`, `Lock.woken`, `Local.depth`, `Sys.put`, `Sys.got`, `Sys.begun` and `Sys.consumed` are
  bookkeeping: they record what happened and influence no step.

## Where the code departs from its documentation

- `bitmap_set_bits` writes its first bit on every pass (`lib/kernel/bitmap.c:117`). Consequence, proved:
  nothing is ever handed out twice, the two kernel bitmaps agree and everything comes back exactly when no
  request of more than one page was granted.
- `bitmap_apply` never returns a run that touches the last bit. Without a run it answers -1, fails an assertion
  of a scan helper, or cycles forever; which one is decided by the shape of the map, and the heap model keeps
  all three (`Bitmap.ApplyIsExact`).
- `list_find_item` never looks at the last node. It is modelled so; that nobody is queued twice is proved from
  the invariants instead.
- `priority` is cut to 8 bits when it is loaded into `ticks`; the scheduler model cuts it too.
- From 2040 MB and two pages on, the last page-directory entry, which points at the directory, covers the last
  4 MB of the kernel pool. A partly filled last table sits one page further than a full one would; when it is the one
  of the last 4 MB below the self map it lies behind the megabyte that is cleared, and what was in memory before
  decides whether the addresses behind the kernel's pages are mapped (`Boot.NothingBehindThePages`).
- `ioq_getchar` and `ioq_putchar` do not test again after waiting for the lock. FIFO order survives, "a sleeping
  consumer means an empty buffer" does not; when it does is proved.
- `disk_select_sector` ORs address bits 24 to 27 into the device register and nothing clears those of earlier
  commands of the same call, so a long transfer can go astray; exactly when is proved.
- The comment of `device/ide.c` names write command 0x30, the code sends 0x10. No property here depends on it.
- `vsprintf` cannot print `%`: a doubled `%` starts a new conversion, an unknown letter is printed alone, and
  the buffer is only terminated when the last thing written was a string.

## Model

| member | source | states |
|---|---|---|
| `Bitmap.ShiftIsMask` | lib/kernel/bitmap.c:168-171 | the tabulated mask is 1 shifted by the bit number, on every byte |
| `Bitmap.ByteUpdateIsBitUpdate` | lib/kernel/bitmap.c:52-64 | or-ing or and-ing the mask into one byte changes that bit of the map and no other |
| `Bitmap.ApplyIsExact` | lib/kernel/bitmap.c:72-103 | for every map and request the literal loop returns b exactly when b is the least base of a run before the last bit; with none it asserts, loops or answers -1, each exactly for the named shapes |
| `Bitmap.OneOutcome` | lib/kernel/bitmap.c:82-102 | a run of the scan has one outcome only |
| `Bitmap.SweepPass` | lib/kernel/bitmap.c:85-100 | one pass either stops rightly or rules out every base below its new one, strictly further on |
| `Bitmap.WrapPass` | lib/kernel/bitmap.c:82-100 | after a -1 base the loop restarts at the first bit, and what it then does |
| `Bitmap.CycleNeverEnds` | lib/kernel/bitmap.c:82-102 | a scan that returns to an earlier state never stops |
| `Bitmap.FailuresOfOneByte` | lib/kernel/bitmap.c:82-102 | in a map of one byte three pages loop forever behind one clear bit, and one page fails the assertion before one |
| `Bitmap.OnePageNeverLoops` | mm/memory.c:410 | a request for one page cannot loop, and asserts exactly when only the last bit is clear |
| `Bitmap.SetFirstIsSetRange` | lib/kernel/bitmap.c:105-119 | the loop keeps its header's promise if and only if the other bits already have the value |
| `Bitmap.SetFirstMissesTheSecondBit` | lib/kernel/bitmap.c:112-119 | in a map of one byte two pages suffice to break the promise, when setting and when clearing |
| `Bitmap.PageBitmap.FindNextZeroBit` | lib/kernel/bitmap.c:127-139 | the least clear bit from an offset, or -1 when there is none |
| `Bitmap.PageBitmap.FindNextBit` | lib/kernel/bitmap.c:148-161 | the least set bit among those its two limits let it look at, or -1 |
| `Bitmap.PageBitmap.TestBit` | lib/kernel/bitmap.c:39-44 | reads the bit of the abstract map |
| `Bitmap.PageBitmap.SetBit` | lib/kernel/bitmap.c:52-64 | changes one bit of the abstract map |
| `Bitmap.PageBitmap.SetBits` | lib/kernel/bitmap.c:112-119 | leaves the map the literal setter leaves, for any count |
| `Bitmap.PageBitmap.ApplyPass` | lib/kernel/bitmap.c:82-101 | one turn over the bytes is one pass of the scan |
| `Bitmap.PageBitmap.Apply` | lib/kernel/bitmap.c:72-103 | over the bytes: first fit or the failure the map's shape decides |
| `List.ListAdd` | lib/kernel/list.c:27-45 | the node becomes the second of the ring, order kept, both directions |
| `List.ListAddPrev` | lib/kernel/list.c:52-58 | the node becomes the last of the ring |
| `List.Unlink` | lib/kernel/list.c:60-64 | the ring closes over the gap |
| `List.ListDel` | lib/kernel/list.c:70-76 | the rest is a ring and the node points nowhere |
| `List.ListDelSafe` | lib/kernel/list.c:82-86 | the rest is a ring and the node is a ring of its own |
| `List.ListPop` | lib/kernel/list.c:92-95 | the first element leaves, the others stay in order |
| `List.ListLen` | lib/kernel/list.c:101-111 | the number of nodes behind the head; the walk ends |
| `List.ListFindItem` | lib/kernel/list.c:128-145 | finds a node exactly when it is in the ring and not the last one |
| `List.RotateRing` | lib/kernel/list.c:237-254 | a ring read from its last node is a ring |
| `List.Queue.In` | lib/kernel/list.c:181-199 | appends; only the node and the two ends are written |
| `List.Queue.Push` | lib/kernel/list.c:237-254 | prepends; only the node and the two ends are written |
| `List.Queue.Out` | lib/kernel/list.c:206-230 | removes the head or answers NULL; only it and its neighbours are written |
| `Heap.MaskDropsOffset` | mm/memory.c:520-523 | masking an address gives the start of its page |
| `Heap.BlockRoundTrip` | mm/memory.c:511-523 | every block of every size and index leads back to its arena and its index |
| `Heap.BlocksApart` | mm/memory.c:511-514 | different blocks of a size do not overlap |
| `HeapRuns.RunsSeparate` | mm/memory.c:530-685 | for every run that frees only live pointers, with either setter: live extents are large enough, inside the heap, disjoint from each other, from every free block and from every arena header |
| `HeapRuns.GrantIsNew` | mm/memory.c:530-628 | a granted pointer is not live already |
| `HeapRuns.StepKeeps` | mm/memory.c:530-685 | any allowed request keeps the invariant, and leaves no arena entirely free |
| `HeapSafety.TakeKeeps` | mm/memory.c:622-625 | popping a block keeps the invariant and lowers its arena's counter by one |
| `HeapSafety.RefillKeeps` | mm/memory.c:595-619 | cutting a new page keeps the invariant; none of its blocks is on the list, so the assertion at line 612 holds |
| `HeapSafety.GrabKeeps` | mm/memory.c:566-584 | a large allocation keeps the invariant and its pointer is new |
| `HeapSafety.PutKeeps` | mm/memory.c:667-671 | putting a live block back keeps the invariant |
| `HeapSafety.DrainKeeps` | mm/memory.c:671-682 | returning an empty arena keeps the invariant and leaves none of its blocks on the list |
| `HeapSafety.ReleaseKeeps` | mm/memory.c:661-664 | freeing pages keeps the invariant, through the literal setter too |
| `HeapSafety.PhysFreeClears` | mm/memory.c:221-229 | freeing frame by frame clears exactly the run's frames, for addresses inside a page too |
| `HeapSafety.FullMeansAllFree` | mm/memory.c:671 | when the counter reaches the number of blocks, every block is on the list |
| `HeapConservation.RunsKeepBooks` | mm/memory.c:594-682 | after every run each arena's counter is the number of its blocks on its list, below the maximum, and no list keeps a node of a released page |
| `HeapConservation.LastBlockReturnsThePage` | mm/memory.c:667-682 | the free that completes an arena unlinks exactly its blocks and clears its page in both bitmaps |
| `HeapConservation.BitmapsAgree` | mm/memory.c:164-178 | with the documented setter the two kernel bitmaps agree after every run |
| `HeapConservation.BitmapsAgreeAsWritten` | mm/memory.c:164-178 | as written they agree if and only if no request of more than one page was granted |
| `HeapConservation.PageRunsAgree` | mm/memory.c:164-247 | page_alloc and page_free alone keep them equal, whatever address a caller frees |
| `HeapConservation.EverythingComesBack` | mm/memory.c:530-685 | a run that ends with nothing live restores both bitmaps and all seven lists |
| `HeapConservation.WhatComesBackAsWritten` | mm/memory.c:530-685 | as written the lists and the frame bitmap are restored, the virtual bitmap if and only if every grant fitted one page |
| `HeapConservation.ALostPage` | mm/memory.c:455 | a legal run of one request and its release, in a heap of eight pages, that loses a page |
| `HeapConservation.NothingLive` | mm/memory.c:671-682 | with nothing live no arena is left and every list is empty |
| `HeapWords.AddPrevRing` | lib/kernel/list.c:27-55 | on words: the ring is longer by the node, last, and no other word pair changes |
| `HeapWords.UnhookedRing` | lib/kernel/list.c:60-64 | on words: the ring closes over the gap, and no other word pair changes |
| `HeapWords.DelSafeAt` | lib/kernel/list.c:82-86 | on words: likewise for list_del_safe |
| `HeapMemory.ClientsCannotDamage` | mm/memory.c:530-685 | whatever is written inside live extents, links and headers go on saying what they said |
| `HeapMemory.PopRing` | mm/memory.c:622-623 | the block found through the head is the first of the list, and the links are then those of the rest |
| `HeapMemory.TakeRefines` | mm/memory.c:622-625 | list_pop, the clearing of the block and the counter are the model's step on list and header |
| `HeapMemory.RefillRefines` | mm/memory.c:603-617 | clearing a page, its header and linking its blocks are the model's step |
| `HeapMemory.PutRefines` | mm/memory.c:668-671 | list_add_prev and the counter are the model's step |
| `HeapMemory.DrainRefines` | mm/memory.c:673-680 | unlinking every block of the page with list_del_safe is the model's step |
| `HeapMemory.GrabRefines` | mm/memory.c:578-580 | clearing whole pages and their header is the model's step |
| `HeapCalls.EmptyRing` | mm/memory.c:595 | a list is empty just when its head points to itself |
| `HeapCalls.MallocRefines` | mm/memory.c:530-628 | sys_malloc, reading only words and bitmaps, gives the model's answer and leaves words that say the model's state |
| `HeapCalls.FreeRefines` | mm/memory.c:638-685 | sys_free, led by the header it finds, leaves words that say the model's state |
| `HeapCalls.WordsAreTheHeap` | mm/memory.c:530-685 | in every state of every run, with clients writing what they own in between, words, lists and headers agree and nothing overlaps |
| `HeapAnswers.LargeAnswer` | mm/memory.c:566-584 | a request for more than 1024 bytes is granted if and only if a run of the least number of pages that hold it and a header is free before the last page; it gets the least such run, no other bit changes, and a refusal changes nothing |
| `HeapAnswers.LargeWastesLittle` | mm/memory.c:569-570 | it gets at least what it asked for, and less than a page more |
| `HeapAnswers.SmallAnswer` | mm/memory.c:586-627 | a request for up to 1024 bytes gets the first block of the list of the least size that is large enough; only if that list is empty it takes a page, the least free one before the last, and is granted if and only if there is one |
| `HeapAnswers.SmallCapacity` | mm/memory.c:587-592 | what it gets is a block of that least size |
| `HeapAnswers.DeniedOutright` | mm/memory.c:554-557 | a request for nothing, or for more than the pool, is denied and changes nothing |
| `HeapAnswers.PagesForIsLeast` | mm/memory.c:569-570 | the page count is the least that holds the request and a header, and no other number is |
| `HeapAnswers.FreeAnswer` | mm/memory.c:638-685 | of a live pointer: pages go back as the header counts them; a block goes to the end of its list; the last block of a page takes the page out, and the list keeps its other blocks in their order |
| `HeapAnswers.GrantedMemoryIsZero` | mm/memory.c:578-623 | every word of the memory granted is zero, whatever was written there before |
| `KernelHeap.MemBlockDescInit` | mm/memory.c:66-77 | the 16-bit doubling loop gives 16 to 1024 bytes and the block counts that fit a page |
| `KernelHeap.KernelHeap.VaddrAlloc` | mm/memory.c:368-384 | marks exactly the run the scan found |
| `KernelHeap.KernelHeap.PageAlloc` | mm/memory.c:164-178 | in place: both bitmaps change as specified, the second through the literal setter |
| `KernelHeap.KernelHeap.PageFree` | mm/memory.c:212-231 | in place: frames one by one, the virtual run through the literal setter |
| `KernelHeap.KernelHeap.FindClass` | mm/memory.c:587-592 | the smallest block size that is large enough |
| `KernelHeap.KernelHeap.ListEmpty` | lib/kernel/list.c:101-121 | the walk over the words ends and tells whether the head is alone |
| `KernelHeap.KernelHeap.TakeBlock` | mm/memory.c:622-625 | in place: the words list_pop, memset and the counter leave |
| `KernelHeap.KernelHeap.SysMalloc` | mm/memory.c:530-628 | in place, over bitmaps and words: answer and new state are those of which HeapAnswers says when a request is granted and what changes; the words and bits are again those of a good state |
| `KernelHeap.KernelHeap.SysFree` | mm/memory.c:638-685 | in place: fails an assertion exactly below the heap, changing nothing; otherwise likewise |
| `Boot.LayoutIsSound` | mm/memory.c:84-127 | the pools and the three bitmaps are disjoint, inside memory and below the PCB if and only if there are at least 32 MB |
| `Boot.LayoutWastesLittle` | mm/memory.c:84-127 | the kernel's part is within a page of its share, the user pool ends within two pages of memory, and each bitmap covers its pool but for less than eight pages |
| `Boot.BootGivesHeapShape` | mm/memory.c:108-127 | boot establishes what the heap model starts from |
| `Boot.PagingMemory.PageTableInit` | mm/memory.c:277-354 | the loops build the tables, leave every other entry clear or as it was, and write nothing at or above the heap's physical start |
| `Boot.WalkIsLinear` | mm/memory.c:309-354 | a walk through those tables takes every kernel address below the self map to its linear frame, for writing and for user mode too |
| `Boot.UserHalfFaults` | mm/memory.c:299-303 | no address below 0xc0000000 is mapped |
| `Boot.NothingBehindThePages` | mm/memory.c:299-352 | behind the kernel's pages, up to the self map, an address faults unless the partly filled table lies behind the cleared megabyte and held a word with the present bit |
| `Boot.SelfMapShowsTables` | mm/memory.c:353-354 | through the last 4 MB every page table is seen at the page of its directory entry, and the directory at the last |
| `Boot.SelfMapFaults` | mm/memory.c:353-354 | the first address behind the self map is not mapped |
| `Boot.HeapIsMapped` | mm/memory.c:254-354 | every heap address walks to its frame if and only if there is less than 2040 MB and two pages |
| `Scheduler.BlockKeeps` | thread/thread.c:186-216 | when a task blocks with nobody ready, idle is asleep or blocks itself: no assertion fails and somebody runs |
| `Scheduler.UnblockKeeps` | thread/thread.c:223-240 | a sleeping task goes to the front of the ready queue and nothing else changes |
| `Scheduler.SliceEndKeeps` | thread/thread.c:161-200 | the end of a slice rotates the queue, keeps one task running, gives the task that leaves a slice of its priority cut to 8 bits, and changes no other slice and no priority |
| `Scheduler.YieldKeeps` | thread/thread.c:263-272 | yielding rotates the queue and grants no new slice |
| `Scheduler.StartKeeps` | thread/thread.c:123-138 | a new task is last in the queue, its slice its priority cut to 8 bits; nobody else is touched |
| `Scheduler.TickKeeps` | device/timer.c:34-50 | a clock interrupt keeps the scheduler coherent and disturbs no sleeper |
| `Scheduler.RoundRobin` | device/timer.c:42-49 | under clock interrupts alone the k-th ready task runs after exactly the rest of the slice and the slices ahead, one more interrupt each, and not before |
| `Scheduler.TickTraceExists` | device/timer.c:34-50 | from every coherent state any number of interrupts can follow |
| `Scheduler.WaitShrinks` | thread/thread.c:169-200 | a rotation shortens the wait of each task behind by the slice that ended |
| `Scheduler.WholeRound` | device/timer.c:42-49 | under clock interrupts alone, after the slices of all who share the processor, one more interrupt each, the state is as it was, with a new slice for each of them |
| `Scheduler.ComesBack` | device/timer.c:42-49 | from whole slices a task runs for its priority cut to 8 bits plus one, and again exactly after the sum of these over all who share the processor |
| `Scheduler.KeepsItsTurn` | device/timer.c:42-49 | in a round each task has the processor from the end of the slices before it to the end of its own |
| `Scheduler.Periodic` | device/timer.c:42-49 | from whole slices every number of rounds ends where it began |
| `Scheduler.BlockingReloadsNothing` | thread/thread.c:206-216 | blocking grants no slice and changes no priority |
| `Scheduler.YieldingReloadsNothing` | thread/thread.c:263-272 | nor does yielding |
| `Scheduler.WokenAsItWas` | thread/thread.c:223-240 | a woken task has the slice and priority it went to sleep with |
| `Sync.TokenConserved` | thread/sync.c:37-128 | in every state of every interleaving, also of tasks that sleep outside the locks they hold, the value plus the tasks in the section is 1, and the count is the holder's acquires outside the two handovers |
| `Sync.NoAssertionFails` | thread/sync.c:37-128 | in every such state no event fails an assertion but a release without an acquire, at line 117 |
| `Sync.NoLostWakeup` | thread/sync.c:37-85 | whenever the value is 1 and somebody waits, a task that was woken from this queue and has not tested since is awake and about to test |
| `Sync.ServedInTurn` | thread/sync.c:42-80 | in every run whoever is at place k of a queue is at place k - n after n calls of sema_up, and exactly the (k+1)-st wakes it: out of the queue, first to run, about to test |
| `Sync.NobodyOvertakes` | thread/sync.c:42-80 | in every run, when a task has left a queue, every task that was ahead of it had left it before |
| `Sync.QueueStep` | thread/sync.c:37-85 | an event takes the first of a queue out, puts the current task last, or leaves the queue alone, and which |
| `Sync.OneQueueEach` | thread/thread.c:161-272 | a waiter is blocked, in no other queue and not running; no queue has a task twice |
| `Sync.StepKeeps` | thread/sync.c:37-128 | any event keeps the invariant; the only assertion that can fail is line 117, exactly for a release without an acquire |
| `Sync.EffectKeeps` | thread/sync.c:92-126 | each statement of the lock keeps the token, and which one can trip an assertion |
| `Sync.TakeKeeps` | thread/sync.c:58-59 | taking a free value keeps the invariant, line 59 holds |
| `Sync.WaitKeeps` | thread/sync.c:42-56 | the task becomes the last of the waiters, blocked and off the processor; the invariant is kept, line 45 holds |
| `Sync.RaiseKeeps` | thread/sync.c:69-85 | sema_up keeps the invariant, lines 72 and 83 hold and the woken task is asleep |
| `Sync.IdleBlockKeeps` | thread/thread.c:245-258 | idle blocking itself keeps the invariant, also with nobody ready |
| `Sync.ClientBlockKeeps` | device/ioqueue.c:50-55 | a task that blocks in its own code, holding locks or not, keeps the invariant |
| `Sync.ClientWakeKeeps` | device/ioqueue.c:61-66 | waking such a task keeps it, and trips no assertion |
| `Sync.BootIsGood` | thread/thread.c:274-284 | the state after initialisation satisfies the invariant, and every task has a whole slice |
| `Thread.Processor.ScheduleNext` | thread/thread.c:161-200 | in place, over rings of dispatch nodes: fails an assertion or leaves the state that SliceEndKeeps and the round-robin laws are about |
| `Thread.Processor.ThreadBlock` | thread/thread.c:206-216 | in place, likewise |
| `Thread.Processor.ThreadUnblock` | thread/thread.c:223-240 | in place, likewise |
| `Thread.Processor.ThreadYield` | thread/thread.c:263-272 | in place, likewise |
| `Thread.Processor.ThreadStart` | thread/thread.c:123-135 | in place, likewise; the new task has a node of its own |
| `Thread.Processor.ClockService` | device/timer.c:34-50 | in place, likewise |
| `Thread.UnmixedByTask` | lib/kernel/list.c:181-254 | queues of different tasks have no node in common, so relinking one leaves the other a ring |
| `Thread.KernelLock.SemaDownPass` | thread/sync.c:37-62 | in place: one pass of the loop puts the caller's node last in the ring of waiters and gives up the processor, or takes the value |
| `Thread.KernelLock.SemaUp` | thread/sync.c:69-85 | in place: the first waiter's node goes from one ring to the front of the other, the value goes up |
| `Thread.KernelLock.Statement` | thread/sync.c:92-127 | in place: a statement does to holder and count what the step system says |
| `Thread.KernelLock.LockAcquire` | thread/sync.c:92-107 | uninterrupted: takes the lock with count 1, counts one more, or becomes the last of the waiters and loses the processor |
| `Thread.KernelLock.LockRelease` | thread/sync.c:114-128 | uninterrupted: for the holder undoes one acquire; the last one frees the lock and wakes the first waiter |
| `Thread.KernelImage.Down` | thread/sync.c:37-62 | in every good kernel: one pass on one lock is one step of the kernel, and the rings of all other locks stay rings of their waiters |
| `Thread.KernelImage.Up` | thread/sync.c:69-85 | likewise for sema_up |
| `Thread.KernelImage.Statement` | thread/sync.c:92-127 | likewise for a statement of the lock, which fails where the kernel fails |
| `Thread.KernelImage.Happen` | thread/thread.c:161-272 | likewise for a clock interrupt, a yield, and blocking and waking outside the locks |
| `Thread.KernelImage.IdleBlocks` | thread/thread.c:245-258 | likewise for idle |
| `Thread.KernelImage.StartTask` | thread/thread.c:123-135 | likewise for a new task |
| `Thread.KernelImage.constructor` | thread/thread.c:274-284 | the kernel after boot is there, with as many free locks as wanted |
| `IoQueue.PutAppends` | device/ioqueue.c:106-107 | a put into a buffer that is not full appends to the contents |
| `IoQueue.GetTakesTheOldest` | device/ioqueue.c:82-83 | a get removes and returns the oldest byte |
| `IoQueue.EmptyFull` | device/ioqueue.c:33-44 | empty and full are lengths 0 and 63 |
| `IoQueue.RingBuffer.GetcharFromTest` | device/ioqueue.c:71-90 | in place: what was in the buffer is the byte got and what is left, with whom it woke or why it blocked |
| `IoQueue.RingBuffer.PutcharFromTest` | device/ioqueue.c:95-113 | in place: the byte is appended, or the caller blocked (registered, or waiting for the lock) and the contents are as before |
| `IoQueue.Fifo` | device/ioqueue.c:25-113 | in every interleaving of any producers and consumers the bytes put are the bytes got followed by the buffer; no assertion fails, nobody registers over another |
| `IoQueue.StepKeeps` | device/ioqueue.c:50-113 | every event keeps the invariant and trips no assertion |
| `IoQueue.OnlyTheMissingTestBreaksIt` | device/ioqueue.c:75-80 | a step ends "registered means empty, or full" if and only if it sleeps after the lock without a reason |
| `IoQueue.JustifiedRuns` | device/ioqueue.c:75-103 | over a run it holds throughout if and only if nobody ever did |
| `IoQueue.ASleeperOnAByte` | device/ioqueue.c:75-80 | a run of six events in which a consumer sleeps on a byte |
| `IoQueue.OneConsumerNeverStarves` | device/keyboard.c:250-254 | with one consumer and guarded puts a sleeping consumer means an empty buffer, and nobody waits for the lock |
| `Ide.Channel.SelectSector` | device/ide.c:100-113 | what the drive reads from its registers |
| `Ide.Channel.IdeTransfer` | device/ide.c:183-257 | the loop sends these commands and moves this data with each, a count of 256 cut to 8 bits included |
| `Ide.CountSurvives` | device/ide.c:134-160 | cutting 256 to 8 bits and reading 0 as 256 cancel out, for the drive and for the byte count |
| `Ide.WantedTiles` | device/ide.c:191-218 | every sector of the request is in one chunk, at its own 512 bytes of the buffer, and nothing else is |
| `Ide.SplitExactly` | device/ide.c:100-113 | the commands sent are the wanted ones if and only if the last starts within 28 bits and the starts cross no 16M-sector boundary, or one from an even block |
| `Ide.HighBits` | device/ide.c:111-112 | the address bits that pile up in the device register are right just for few crossings |
| `Ide.OddCrossingGoesAstray` | device/ide.c:111-112 | a transfer of 512 sectors that goes to the wrong place |
| `IdeHandshake.ExactlyOne` | device/ide.c:120-126 | with a command pending exactly one of wait_intr and disk_ok == 1, otherwise neither; completions and commands balance |
| `IdeHandshake.HandlerNeverRaisesTwice` | device/ide.c:259-271 | the handler never finds the semaphore at 1, whenever it runs; only an empty transfer asserts |
| `IdeHandshake.SleeperIsWoken` | device/ide.c:203-208 | the next interrupt wakes whoever sleeps, who then takes the completion |
| `IdeHandshake.CallDoesItsRounds` | device/ide.c:183-257 | in every run a call with n commands to send does, from entry to return, exactly n rounds in order: each command begun, sent, its completion taken, the drive polled and the data moved, once; a read takes the completion and polls before it moves, a write moves before it takes the completion |
| `IdeHandshake.EachOnce` | device/ide.c:191-218 | n rounds are n times each of the five, once for each command |
| `IdeHandshake.TodoShrinks` | device/ide.c:183-271 | whatever happens next, what a task still has to do gets shorter at the front by just what it does |
| `IdeHandshake.OnlyTheHolderActs` | device/ide.c:186-219 | whoever begins, sends, takes, polls or moves holds the channel lock, so the rounds of different calls do not mix |
| `IdeHandshake.StepKeeps` | device/ide.c:183-271 | every statement, call and interrupt keeps the handshake's invariant; what a call does in which order is CallDoesItsRounds |
| `IdeHandshake.InterruptKeeps` | device/ide.c:265-270 | the handler turns an outstanding wait into exactly one token and leaves no waiter |
| `Stdio.Itoa` | lib/stdio.c:14-30 | writes the digits at the position, and nothing else |
| `Stdio.PrintThenParse` | lib/stdio.c:14-30 | the digits have no leading zero and parse back to the value, for every value and radix 2 to 36 |
| `Stdio.ParseThenPrint` | lib/stdio.c:14-30 | every numeral without leading zero is what is printed for its value |
| `Stdio.DecimalReadsBack` | lib/stdio.c:80-91 | %d parses back to the int32, the minimum included |
| `Stdio.HexReadsBack` | lib/stdio.c:59-65 | %x parses back to the word |
| `Stdio.OutputIsRendered` | lib/stdio.c:46-93 | for every format the output is one segment for each piece: a plain character as it is, nothing for a stray `%`, for %c the low byte, for %s the string, for %d and %x a numeral that reads back as the argument |
| `Stdio.SegmentsAreDetermined` | lib/stdio.c:46-93 | nothing else reads back like that: format and arguments determine the segments |
| `Stdio.ConversionSays` | lib/stdio.c:57-92 | the bytes of one conversion are its argument's low byte, its string, or a numeral of its value |
| `Stdio.EveryFormatIsSpelt` | lib/stdio.c:46-56 | every format is the spelling of plain characters, conversions and stray `%` signs |
| `Stdio.SpellingIsUnique` | lib/stdio.c:46-56 | and of one such sequence only |
| `Stdio.PercentOnlyFromArguments` | lib/stdio.c:46-93 | whatever the format, a `%` is only printed out of an argument |
| `Stdio.Convert` | lib/stdio.c:57-92 | a conversion writes bytes that say its argument (low byte, string, numeral), %s its NUL behind them, and nothing else |
| `Stdio.Strcpy` | lib/string.c:75-84 | copies the string and its NUL, and nothing else |
| `Stdio.Strlen` | lib/string.c:112-121 | the index of the first NUL |
| `Stdio.Vsprintf` | lib/stdio.c:39-95 | for every format: the buffer holds the output and is otherwise unchanged; the result is its length if and only if no NUL is in it and one is behind it |

## Left out

- The user pool and user processes: mapping, rollback and translation are unfinished in the source.
- Assembly, boot, descriptor tables, interrupt controller and timer programming, loading CR3.
- Port I/O and the drive itself: it may interrupt at any time, and registers read back what was written.
- `busy_wait` timing and `disk_identify`; a poll may fail, which stops the machine.
- `partition_scan`: its static counters carry over between disks.
- Keyboard decoding, console and print routines.
- PCB stack layout, pid allocation, the list of all tasks, `mil_sleep`, the counters of elapsed ticks.
- Bytes within a word of memory: a word is one value, known by the address of its first byte.
- KernelHeap.KernelHeap.SysFree: a pointer into the heap must be live; for a stray one the source reads whatever is there.
- KernelHeap.KernelHeap.PageFree: the pages must lie in the kernel heap; behind it the source clears frames of the user pool or fails an assertion.
- Sync.StepKeeps: the repeat count is unbounded, so 2^32 nested acquires do not wrap.
- Sync.TokenConserved: tasks never exit, as the kernel has no exit; semaphores are those of locks.
- IoQueue.Fifo: the lock is its proven contract, whose runs include holders that sleep, with any waiter next; its statements are not interleaved again, as interrupts are off.
- IdeHandshake.ExactlyOne: the channel lock is its proven contract, as in IoQueue; disk_ok is its own semaphore here, as it starts at 0.
- Ide.Channel.IdeTransfer: one method stands for the loops of ide_read and ide_write, which differ only in when the data moves; that order is proved in IdeHandshake, for each call.
- Stdio.Vsprintf: a string argument must not overlap the buffer, and the buffer must be large enough; both are the caller's business in the source too.
