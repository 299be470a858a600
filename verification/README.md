# A model of an xv6 kernel in Dafny

This project models the hard parts of an xv6 kernel for RISC-V and of two of its user programs,
and proves what they are for.

- `Blocks`, `BufferCache`, `LogSpec`, `Log`: the buffer cache and the write-ahead log. The disk is
  a sequence of blocks, one block is written at a time, and a crash may come between any two writes.
  `Cache.contents` is the plain block map that readers should see.
- `GroupCommit`: begin_op, log_write and end_op of any number of processes, one critical section
  to a step.
- `FsSpec`, `Fs`: bitmap, block maps, reading, writing and truncating files, and the chunks of
  filewrite. `owner` says what each block is for; a file is a sequence of bytes.
- `WorstCase`: a write that logs as many blocks as any chunk may.
- `Mkfs`, `Mount`: the image that mkfs makes, and any use of the file system from there on.
- `CrashFs`: the file system over the log, with inodes encoded in their blocks.
- `Kalloc`, `PageTable`, `Vm`: counted pages and three-level page tables, against a flat map from
  page numbers to entries (Sv39, section 4.4 of the RISC-V Privileged Architecture).
- `Sched`, `SchedRuns`, `SchedCalls`: sleep, wakeup, round-robin dispatch and sleep-locks, as
  interleaved steps of any number of CPUs over any number of processes: what holds throughout every
  run, and what whole calls come to.
- `Virtio`, `VirtioRuns`: the disk driver, the device and the interrupt handler over shared rings
  (sections 2.6 and 5.2.6 of virtio 1.1).
- `Umalloc`: the user allocator, over byte addresses.
- `Shell`, `ShellGrammar`: the shell's parser and its in-place termination of words, and the grammar
  of its command lines.
- `Grep`: the pattern matcher.

Code that changes things step by step is a class whose methods are proved against specification
functions; what the code promises is then proved of those functions. Protocols are state machines,
and their theorems speak of every reachable state.

`dafny verify dfyconfig.toml` checks everything.

Where the code does not do what it is meant to do, the model follows the code, and a theorem says
exactly when it does:

- `GroupCommit.LogWriteSafeExactly` and `KernelSafe`: log_write tests for too big a transaction before
  it looks for absorption. So operations that use up their reservation can reach its panic whatever
  the size of the on-disk log; with the size mkfs gives it, they are safe exactly when each adds at
  most MAXOPBLOCKS - 1 blocks.
- `Umalloc.SbrkAskedFor`: the byte count is cut to an int. `SbrkAskedToShrink` gives the first request
  for which it turns negative.
- `Mkfs.RootHole`: the size of the root directory is rounded past its last block exactly when its
  entries fill whole blocks. `HoleFits` and `MakeHole` give such an image.

## Model

| member | source | states |
|---|---|---|
| LogSpec.CrashAtomicity | kernel/log.c:68-203 | For a crash after any single block write of commit, and any number of crashes during recovery after that, a recovery that completes leaves every home block as it was before the transaction, or every one as logged, and always the latter once the first header write has reached the disk; the header is empty again |
| LogSpec.CommitStandsFor | kernel/log.c:178-203 | Every disk that commit passes through stands for the home blocks before the transaction until the header is written, and for those after it from then on |
| LogSpec.RecoverStandsFor | kernel/log.c:116-123 | Every disk that a recovery passes through stands for the same home blocks as the one it began with, and the last one holds them in place under an empty header |
| LogSpec.InstallStandsFor | kernel/log.c:68-83 | Copying any number of logged blocks home does not change what the disk stands for, so copying may be repeated |
| LogSpec.CommitDone | kernel/log.c:193-203 | A commit that is not interrupted leaves the home blocks as logged and the header empty |
| LogSpec.CrashedRecoveriesStandFor | kernel/log.c:116-123 | Any number of interrupted recoveries keep what the disk stands for |
| LogSpec.HeaderRoundTrip | kernel/log.c:86-114 | Reading a header back gives the block numbers that write_head put there, whatever was in the block |
| LogSpec.CommitTraceAt | kernel/log.c:193-203 | The k-th block write of commit leaves the disk state that CrashAtomicity speaks of |
| LogSpec.RecoverTraceAt | kernel/log.c:116-123 | The same for recovery |
| Log.Log.Commit | kernel/log.c:193-203 | The block writes that reach the disk are a prefix of those of CommitTrace, in order, and all of them when it succeeds; then the log is empty, no buffer is pinned, and the disk holds what readers of the cache saw before. It succeeds whenever no other buffers are held |
| Log.Log.RecoverFromLog | kernel/log.c:116-123 | The block writes are a prefix of those of RecoverTrace, all of them on success; the home blocks are then those the disk stood for, and the log is ready for use |
| Log.Log.LogWrite | kernel/log.c:214-235 | Refused exactly when the log is full or no operation is under way; a block already logged is absorbed, a new one is appended and pinned once; the logged numbers stay distinct with one pin each |
| Log.Log.WriteLog | kernel/log.c:178-191 | Writes the cached copies of the logged blocks to the log area in order, one disk write each, and nothing else |
| Log.Log.InstallTrans | kernel/log.c:68-83 | Copies the log area to the home blocks in order, one disk write each, and takes one pin off each installed block unless recovering |
| Log.Log.WriteHead | kernel/log.c:102-114 | One disk write, after which the header holds exactly the logged block numbers |
| Log.Log.ReadHead | kernel/log.c:86-97 | Afterwards the logged block numbers are exactly those in the header on disk |
| Log.PinsMatchUnpin | kernel/log.c:73-82 | Installing the first logged block takes its one pin off and leaves one pin for each of the others |
| Log.UnpinnedExists | kernel/log.c:68-83 | With fewer logged blocks than buffers there is a buffer that no logged block pins, so commit can get one for the log area |
| BufferCache.Cache.Bread | kernel/bio.c:92-103 | The buffer returned holds what a plain block map would, whether it was cached or had to be read; it is locked, counted once more, and is the block's only buffer; a buffer that had to be recycled is the one unused longest; it fails exactly when the block is not cached and every buffer is in use |
| BufferCache.Cache.Bget | kernel/bio.c:58-89 | A cached block gets its own buffer; otherwise the buffer that has been unused longest is recycled, told by a clock that brelse reads when the last reference goes; it fails exactly when every buffer is in use |
| BufferCache.Cache.AtMostOneBuffer | kernel/bio.c:58-89 | Two buffers of a nonzero device never cache the same block |
| BufferCache.Cache.UnusedIsClean | kernel/bio.c:116-151 | A valid buffer that is neither locked nor pinned equals its block on disk, so it may be recycled |
| BufferCache.Cache.Lookup | kernel/bio.c:65-73 | The walk along the list finds the block's buffer exactly when it is cached |
| BufferCache.Cache.LeastRecentlyUsed | kernel/bio.c:75-88 | The backward walk finds the last buffer in list order that nobody uses, which is the one whose last reference went earliest, and none exactly when all are in use |
| BufferCache.Cache.Bwrite | kernel/bio.c:106-112 | One disk write of the buffer's block; readers see no difference |
| BufferCache.Cache.Brelse | kernel/bio.c:116-137 | Unlocks and gives up one reference; when it was the last, the buffer comes first in the ring, stamped later than every other, and the order of the others is kept; otherwise ring and stamps stay; every block still reads as before |
| BufferCache.Cache.MoveToFront | kernel/bio.c:126-134 | The six pointer assignments leave one doubly linked ring, with the buffer behind the head and the order of the others kept |
| BufferCache.Unlink | kernel/bio.c:128-129 | Two pointer assignments remove one buffer from the ring and leave a ring |
| BufferCache.LinkFront | kernel/bio.c:130-133 | Four pointer assignments put a buffer behind the head of the ring and leave a ring |
| BufferCache.Cache.Bpin | kernel/bio.c:139-144 | One more reference, recorded as a pin; the buffer may then be released while it differs from disk |
| BufferCache.Cache.Bunpin | kernel/bio.c:146-151 | One pin less; allowed only once the buffer is held or equals the disk |
| BufferCache.Cache.constructor | kernel/bio.c:36-53 | The list holds every buffer once, and the cache reads as the disk |
| GroupCommit.GroupCommitSafety | kernel/log.c:126-203 | In every reachable state of any number of processes: commit runs only with outstanding equal to 0, no operation is under way then, no log_write or end_op can happen, the panic of end_op is unreachable, and all log_writes of one operation fall in one transaction |
| GroupCommit.Reservation | kernel/log.c:126-175 | In every reachable state, of operations that log no more than the reservation, lh.n plus the unspent allowance of the operations under way is at most LOGSIZE; with nothing outstanding or committing the log is empty and admits; a process asleep in begin_op could not be admitted now, and has an operation or a commit ahead of it that will wake it |
| GroupCommit.GetsIn | kernel/log.c:126-175 | From any reachable state, a process that waits in begin_op gets in once the operations under way have ended and the commit they lead to is done, by steps of end_op and commit alone |
| GroupCommit.LogHolds | kernel/log.c:214-235 | In every reachable state the log lists, each once, exactly the blocks that the log_writes since the last commit named |
| GroupCommit.NewBlockFits | kernel/log.c:214-235 | In every reachable state a block that is not absorbed finds room in lh.block, and log_write panics on it exactly when lh.n has reached the on-disk log size less one |
| GroupCommit.LogWriteSafeExactly | kernel/log.c:214-235 | For any reservation, capacity, quota of new blocks per operation and on-disk size: no log_write, of a new block or of an absorbed one, ever panics on too big a transaction if and only if nothing is logged, or nobody is admitted, or the largest lh.n that admission allows, operations in parallel, stays below both the capacity and the on-disk size less one |
| GroupCommit.KernelSafe | kernel/log.c:126-143 | With the constants of the kernel: safe exactly when operations add no block, or each adds fewer than MAXOPBLOCKS blocks and MAXOPBLOCKS plus twice that number is less than the on-disk size less one; so never when operations use up their reservation, whatever the size, since a full log refuses even an absorbed write |
| GroupCommit.StepInv | kernel/log.c:126-235 | Every critical section of begin_op, log_write, end_op and commit keeps the invariant |
| GroupCommit.RunInv | kernel/log.c:126-235 | So does every run |
| SchedRuns.NoLostWakeup | kernel/sleeplock.c:21-41 | In every interleaving of any number of CPUs and processes, whenever the inner spinlock of a sleep-lock is free, a process asleep on it, or on its way there, sleeps for a lock that is held |
| SchedRuns.EveryoneWoken | kernel/proc.c:702-715 | When wakeup has passed the last process, nobody is asleep on the lock that was given up, nor on the way to sleep on it |
| SchedRuns.ExclusiveDispatch | kernel/proc.c:506-534 | In every reachable state no process is on two CPUs, and whenever p->lock is free p is RUNNING if and only if exactly one CPU has c->proc equal to p |
| SchedRuns.SleepLockExclusion | kernel/sleeplock.c:21-41 | A sleep-lock is taken only while nobody has it, and given up only by the process that has it |
| SchedRuns.ReturnsWithLock | kernel/sleeplock.c:21-31 | In every reachable state a process that is about to return from acquiresleep holds the lock |
| SchedRuns.HeldUntilReleased | kernel/sleeplock.c:21-41 | Over any run in which the holder does not itself give the lock up it stays the holder, and no other process comes to return from acquiresleep of that lock |
| SchedRuns.HolderStep | kernel/sleeplock.c:21-41 | The holder changes only where acquiresleep sets it, from nobody to the process that runs, and where releasesleep clears it, by the holder |
| SchedRuns.NoPanic | kernel/proc.c:621-638 | The panics of sched, acquire and release do not happen in a process, in any reachable state: it calls sched under p->lock alone and not RUNNING, acquires no lock that its CPU holds, and releases only locks that its CPU holds |
| SchedRuns.NoPanicInScheduler | kernel/proc.c:506-534 | Nor in the scheduler loop: its CPU holds no lock when it acquires a p->lock, and from then until it releases it just that one, although it may be the process that acquired it before swtch |
| Sched.NextInv | kernel/proc.c:506-738 | Every step of every CPU keeps the invariant |
| Sched.Dispatches | kernel/proc.c:511-522 | The scheduler's switch to a RUNNABLE process, made under its lock, keeps the invariant; the lock is handed to the process |
| Sched.SwitchAway | kernel/proc.c:621-638 | The switch from a process back to the scheduler keeps the invariant; the lock is handed back |
| Sched.SleepsOrWakes | kernel/proc.c:672-698 | Setting SLEEPING under p->lock after the condition's lock has been released, and the return from sleep, keep the invariant |
| Sched.Wakes | kernel/proc.c:702-715 | Making a sleeper RUNNABLE under its lock keeps the invariant |
| Sched.NoneMissed | kernel/proc.c:702-715 | A process that wakeup passes over is neither asleep on the lock nor about to be |
| Sched.TakeOrGive | kernel/sleeplock.c:21-41 | Setting and clearing `locked` keeps the invariant: whoever sleeps has a wakeup coming |
| Sched.Kills | kernel/proc.c:720-738 | kill keeps the invariant, though it makes a process RUNNABLE that waits for a lock still held |
| SchedCalls.TakesLock | kernel/sleeplock.c:21-31 | The steps of acquiresleep on a free lock leave the process its holder and change nothing else |
| SchedCalls.GoesToSleep | kernel/proc.c:672-698 | Those on a taken lock leave the process asleep on it, the inner lock released, and its CPU at the scheduler's next process |
| SchedCalls.TriesAgain | kernel/proc.c:690-698 | A process that is back from sleep is no longer on a channel and tests the lock again |
| SchedCalls.GivesLockUp | kernel/sleeplock.c:34-41 | releasesleep frees the lock and makes exactly the processes asleep on it RUNNABLE; nothing else changes |
| SchedCalls.WakesAll | kernel/proc.c:702-715 | wakeup makes exactly the sleepers on the channel RUNNABLE, from any process of the table on |
| SchedCalls.Schedules | kernel/proc.c:506-534 | A pass of the scheduler loop, from any process on and round to it again, dispatches the first RUNNABLE process that it comes to, in three steps for each process passed over and two for that one, and changes no other process |
| SchedCalls.DispatchesSome | kernel/proc.c:506-534 | No CPU idles while a process can run: from every reachable state with the CPU in its scheduler, all p->locks free and some process RUNNABLE, at most three steps for each process lead to its running the first such process after its place in the table, and so the only one if there is one |
| SchedCalls.Yields | kernel/proc.c:641-650 | A process that a timer interrupt makes yield is RUNNABLE again, to go on where it was, and its CPU is at the scheduler's next process |
| SchedCalls.GoesOnWith | kernel/proc.c:641-650 | Back on a CPU it goes on where it was, its lock released |
| SchedCalls.Begins | kernel/proc.c:652-668 | A process that has never run begins in user mode, its lock released |
| SchedCalls.KillsIt | kernel/proc.c:720-738 | kill makes the process RUNNABLE if it sleeps, on whatever, and leaves it otherwise; no other process changes |
| SchedCalls.ForksIt | kernel/proc.c:108-127 | An UNUSED process that fork finds is RUNNABLE in the end, to begin in forkret; no other process changes |
| SchedCalls.ForksNone | kernel/proc.c:108-120 | A process in use is not taken by allocproc, and nothing changes |
| SchedCalls.ReapsIt | kernel/proc.c:394-417 | wait makes a ZOMBIE UNUSED and leaves any other process as it was |
| SchedCalls.Exits | kernel/proc.c:366-380 | exit leaves a ZOMBIE and its CPU at the scheduler's next process |
| SchedCalls.PicksUp | kernel/sleeplock.c:21-31 | A process that has been woken for a lock that is free holds it, and has returned from acquiresleep, once a scheduler comes to it |
| SchedCalls.HandsOver | kernel/sleeplock.c:21-41 | A sleep-lock passes on: one CPU releases it while a process sleeps on it, another CPU's scheduler comes to that process first, and then that process holds the lock, runs, and has returned from acquiresleep |
| VirtioRuns.DescriptorsPartitioned | kernel/virtio_disk.c:156-213 | In every interleaving of requests, device steps and interrupts, the NUM descriptors are split into free ones and disjoint chains of three, of which there are at most two |
| VirtioRuns.SlotsHold | kernel/virtio_disk.c:271-277 | Entries of the avail and used rings that are not yet taken lie in distinct slots and still name their requests, although the indices are 16-bit; index comparison tells exactly whether entries are left |
| VirtioRuns.ExactlyOnce | kernel/virtio_disk.c:283-289 | When virtio_disk_rw goes on, its request has been transferred exactly once and completed exactly once |
| VirtioRuns.AtMostOnce | kernel/virtio_disk.c:294-327 | No published request is ever transferred or completed twice |
| VirtioRuns.TransfersOwn | kernel/virtio_disk.c:232-265 | In terms of the disk's bytes: the device moves exactly those from blockno times BSIZE up to the next block, between disk and the request's own buffer, in the direction asked for, and changes no other byte and no other buffer |
| VirtioRuns.GetsServed | kernel/virtio_disk.c:214-327 | Whatever other requests are under way, the caller of a request in flight can be brought to go on by steps of the device and the handler, none of them another request's transfer: its block has moved, and no other byte of disk or buffers has changed |
| VirtioRuns.WholeCall | kernel/virtio_disk.c:214-292 | In every reachable state with three descriptors free, a call of virtio_disk_rw can run from its start to its return beside whatever else is under way; a read leaves the buffer with the bytes of its block, a write the disk with those of the buffer, and nothing else changes |
| VirtioRuns.CompletesOwn | kernel/virtio_disk.c:294-327 | The interrupt handler's next completion clears b->disk of the buffer of that very request, which was set |
| VirtioRuns.NoPanic | kernel/virtio_disk.c:156-327 | No panic of the driver is reachable and no index strays |
| Virtio.StepOk | kernel/virtio_disk.c:156-327 | Every step of driver, device and interrupt handler keeps the invariant |
| VirtioRuns.DrainRuns | kernel/virtio_disk.c:294-327 | The whole interrupt handler is a run of single completions that takes every entry posted so far |
| Virtio.Wrapped | kernel/virtio_disk.c:271-277 | A 16-bit index picks the same slot as the unbounded count, and two counts less than 65536 apart have equal indices only if they are equal |
| Virtio.AtMostTwo | kernel/virtio_disk.c:201-213 | With three of eight descriptors to a request at most two are under way, so no ring can fill |
| Virtio.StartMeans | kernel/virtio_disk.c:201-274 | A start takes three distinct free descriptors and formats them as one chain, or finds fewer than three free and changes nothing |
| Virtio.Disk.AllocDesc | kernel/virtio_disk.c:156-166 | Takes the lowest free descriptor |
| Virtio.Disk.FreeDesc | kernel/virtio_disk.c:169-182 | Refused exactly for a number out of range or a free descriptor; otherwise clears and frees that one |
| Virtio.Disk.FreeChain | kernel/virtio_disk.c:185-197 | Frees exactly the three descriptors of the chain, and never panics on one |
| Virtio.Disk.Alloc3Desc | kernel/virtio_disk.c:201-213 | Takes the three lowest free descriptors, or puts back those it took when there are fewer |
| Virtio.Disk.StartRw | kernel/virtio_disk.c:215-272 | The assignments of the first half of virtio_disk_rw amount to the one step Start of the machine |
| Virtio.Disk.FinishRw | kernel/virtio_disk.c:288-291 | Those of the second half amount to the step Finish |
| Virtio.Disk.Intr | kernel/virtio_disk.c:294-327 | The loop of the interrupt handler amounts to Drain |
| Umalloc.Heap.Malloc | user/umalloc.c:63-90 | Keeps the free list one circle in address order with a single wrap and no two blocks touching, free and live blocks disjoint, and their units summing to those obtained; gives a block of its own of exactly the units needed; fails only when no free block is large enough and sbrk fails; grows the heap only when no free block is large enough; other live blocks keep their size; the search terminates |
| Umalloc.Heap.Free | user/umalloc.c:24-44 | Gives one live block back: it is live no longer, the units are conserved, the other live blocks are untouched, and the free list is again one ordered circle in which no two blocks touch; the search terminates |
| Umalloc.Heap.Morecore | user/umalloc.c:46-61 | Adds exactly the units asked for, and leaves a free block that is large enough |
| Umalloc.Heap.FindPlace | user/umalloc.c:29-32 | The search for the place of a block ends at the one gap in address order where it belongs, also at the wrap |
| Umalloc.Heap.Insert | user/umalloc.c:29-43 | Inserting and coalescing keeps the circle and conserves units |
| Umalloc.Heap.Search | user/umalloc.c:70-89 | Finds a large enough block and its predecessor, or shows that all were too small |
| Umalloc.MergeNext | user/umalloc.c:33-35 | Joining with the block after keeps order, links, liveness and units |
| Umalloc.MergePrev | user/umalloc.c:38-40 | Joining with the block before keeps order, links, liveness and units |
| Umalloc.LinkNext | user/umalloc.c:36-37 | Linking in before a block that does not touch does the same |
| Umalloc.LinkPrev | user/umalloc.c:41-42 | Linking in after a block that does not touch does the same |
| Umalloc.TakeWhole | user/umalloc.c:75-77 | Taking a whole block off the list keeps the circle, and moves its units to the live blocks |
| Umalloc.TakeTail | user/umalloc.c:78-82 | Taking the tail of a block keeps the circle, and moves those units to the live blocks |
| Umalloc.SbrkAskedFor | user/umalloc.c:46-54 | The int that sbrk gets is the number of bytes wanted if and only if malloc is asked for at most 0x7fffffe0 bytes |
| Umalloc.SbrkAskedToShrink | user/umalloc.c:46-54 | One byte more, and sbrk is asked for -2^31 bytes |
| Kalloc.Kmem.Kalloc | kernel/kalloc.c:108-125 | Returns 0 exactly when the free list is empty, else a page whose count goes from 0 to 1; no other count changes; the list stays free of duplicates and holds exactly the pages with count 0 |
| Kalloc.Kmem.Kfree | kernel/kalloc.c:64-87 | Refused exactly for what is no page; one reference less, and the page joins the list exactly when that was the last |
| Kalloc.Kmem.Drop | kernel/kalloc.c:64-87 | kfree of a counted page keeps the free list the pages with count 0, without duplicates |
| Kalloc.Kmem.Inckref | kernel/kalloc.c:93-97 | One reference more, modulo 2^64, and no other count changes; the free list holds exactly the pages with count 0 afterwards if and only if the count was neither 0 nor 2^64 - 1 |
| Kalloc.Kmem.constructor | kernel/kalloc.c:36-58 | After kinit every page is on the list once, with count 0, although freerange has wrapped the counts |
| Kalloc.Kmem.FreeRange | kernel/kalloc.c:44-51 | Puts every page between end and PHYSTOP on the list once |
| Kalloc.Rounds | kernel/riscv.h:338-339 | PGROUNDUP and PGROUNDDOWN give the multiples of PGSIZE next to an address; the pages below the upper one are exactly those with a byte before the address |
| Kalloc.RefIndexOwn | kernel/kalloc.c:89-91 | Every page has a count of its own within kref.ref, although `end` need not be page-aligned |
| Kalloc.ListedPush | kernel/kalloc.c:79-84 | Pushing a page that is not listed keeps the list duplicate-free and linked |
| Kalloc.ListedPop | kernel/kalloc.c:114-118 | Popping does too |
| PageTable.PteRoundTrip | kernel/riscv.h:341-353 | A page-table entry decodes to the page, the flags and the other low bits it was encoded from |
| PageTable.WordRoundTrip | kernel/riscv.h:341-353 | And every word is the encoding of what it decodes to, so that nothing is lost by speaking of entries and not of words |
| PageTable.PxOwn | kernel/riscv.h:355-358 | Two pages with the same three 9-bit indices are one |
| PageTable.LookSetLeaf | kernel/vm.c:136-158 | Writing one leaf entry changes the flat map at that page and nowhere else |
| PageTable.TreeAdd | kernel/vm.c:82-99 | Hanging a new empty table into an unused entry leaves the tables a tree without sharing |
| PageTable.LookAdd | kernel/vm.c:82-99 | It changes nothing in the flat map |
| PageTable.TreeSetLeaf | kernel/vm.c:136-184 | Writing a leaf entry leaves the tables a tree |
| PageTable.SpaceSet | kernel/vm.c:136-184 | Writing a leaf keeps the account: a table page has one reference, and a mapped page at least as many as it has mappings |
| PageTable.PlantedSet | kernel/vm.c:136-184 | Writing any leaf, also one that maps a free page or a table, leaves the tables a tree whose pages are their own: what is needed for the kernel's own page table |
| Vm.Vm.Walk | kernel/vm.c:82-99 | Finds the last-level table of an address below MAXVA, making tables only if asked; the flat map does not change; it fails only when memory has run out; panics exactly from MAXVA on |
| Vm.Vm.WalkAddr | kernel/vm.c:104-121 | Agrees with the flat map: the page of a valid user mapping below MAXVA, else 0; changes nothing |
| Vm.Vm.MapPages | kernel/vm.c:136-158 | For any tree of tables, counted or not, and any range and target: the flat map gains exactly the pages of the range, each with its consecutive page and the permissions given, or when it stops short exactly the first m; panics exactly for size 0, or when the next page is mapped or beyond MAXVA; stops short otherwise only when memory has run out; tables stay a tree; counts stay an account of the mappings if the target pages have references to spare |
| Vm.Vm.UvmUnmap | kernel/vm.c:163-184 | For any tree of tables: the flat map loses exactly the named pages; each page loses a reference for each mapping removed if freeing, else none; refused exactly for an unaligned address or an unmapped page |
| Vm.Vm.KvmMap | kernel/vm.c:126-130 | The kernel's mapping, of memory and devices that nobody counts: the flat map gains exactly the range, consecutively; panics only for size 0, a page mapped already, an address beyond MAXVA, or when memory has run out |
| Vm.Vm.UvmCreate | kernel/vm.c:188-196 | An empty flat map, over one table page that was free; fails exactly when there is none |
| Vm.Vm.UvmAlloc | kernel/vm.c:215-238 | Panics only when a page of the range is mapped already or lies beyond MAXVA, and succeeds only when none is; on success the range is mapped to pages that were free, a different one for each, all zeroes, with that one reference; it fails only when memory runs out: then no more pages are free than were asked for, the flat map is as before and every count too, but for new table pages; in no case is a page in use written to, other than this page table's own |
| Vm.OwnOn | kernel/vm.c:219-237 | A page whose count is 0 when it is taken is none of those taken before |
| Vm.Vm.UvmDealloc | kernel/vm.c:244-255 | Unmaps exactly the pages between the rounded sizes and gives up one reference for each |
| Vm.Vm.FreeWalk | kernel/vm.c:259-274 | Succeeds exactly when no page is mapped below the table; then every table at or below it has been freed exactly once and no other page is touched |
| Vm.Vm.UvmFree | kernel/vm.c:278-283 | Succeeds exactly when the pages below sz are mapped and none above; then every table page is free and every user page has lost a reference for each mapping |
| PageTable.NameWord | kernel/vm.c:95-95 | The entry that walk makes for a new table is the word of its page number and PTE_V alone |
| Vm.SharedWord | kernel/vm.c:309-310 | The child's entry is the parent's word with PTE_W cleared and PTE_COW set, every other bit kept |
| Vm.Vm.UvmCopy | kernel/vm.c:291-328 | Panics only on a page that the parent does not map, the child maps already, or that lies beyond MAXVA, and succeeds only when there is none; on success the child maps each of the parent's pages, not writable, and each page has one reference more for each of the parent's mappings; it fails only when no page is free, and then the child's map and all counts are restored, but for new table pages; the parent's map does not change, and no page in use is written to, other than the child's own tables |
| Vm.NoLeavesIs | kernel/vm.c:259-274 | The tables have no leaf if and only if the flat map is empty |
| Vm.RolledBack | kernel/vm.c:219-237 | Unmapping what a failing uvmalloc has mapped restores the map and the counts |
| Vm.CopyRolledBack | kernel/vm.c:309-328 | Unmapping what a failing uvmcopy has shared restores the counts |
| Vm.TreePrune | kernel/vm.c:259-274 | What is left while freewalk takes branches down is still a tree |
| Vm.AllGone | kernel/vm.c:259-274 | Freeing the branches and then the table itself frees each of them once |
| FsSpec.NoSharing | kernel/fs.c:382-453 | In a consistent file system no block stands in two places: direct addresses, entries and blocks of addresses of all inodes are pairwise distinct, lie among the data blocks, and are marked in the bitmap |
| Fs.Fs.Balloc | kernel/fs.c:65-88 | Never returns a block that is owned: it was free, and is now zeroed and marked; 0 exactly when every block is marked; no file changes |
| Fs.Fs.Bfree | kernel/fs.c:91-105 | Panics exactly when the bit is clear; clears that bit and no other |
| Fs.Fs.FindFree | kernel/fs.c:71-85 | The nested loops find the first clear bit over all bitmap blocks, also in a last one that is partly used |
| Fs.Fs.Bmap | kernel/fs.c:382-421 | Panics exactly past the largest file; else gives the block of the file at bn, new and zeroed if there was none; the file's other blocks, its size and all other files stay; the file system stays consistent; 0 only when every block is in use; logs every block that changes and no more than the block itself, the block of addresses and a bitmap block for each new one |
| Fs.Fs.Writei | kernel/fs.c:505-539 | -1 exactly when off is past the end or the write would pass the largest file; else replaces or extends exactly the number of bytes returned and keeps the rest; stops short only when every block is in use; all other files keep their bytes; a file without holes gets none; every block that changes is logged, and so is the inode's, and no more distinct blocks than WriteCost says |
| Fs.Fs.Readi | kernel/fs.c:471-496 | Returns exactly the slice of the file's bytes that the range covers, empty past the end or on wrap-around, and changes nothing |
| Fs.Fs.Itrunc | kernel/fs.c:425-453 | The file is empty, exactly its blocks have become free, the other files are untouched, and bfree never finds a clear bit |
| Fs.Fs.FileWrite | kernel/file.c:148-175 | Writes the bytes in chunks, each a transaction that takes a consistent file system to a consistent one, logs every block it changes, and logs at most MAXOPBLOCKS distinct blocks whatever the offset, the length and the number of bitmap blocks; the bytes written are a prefix of those given; all of them unless the offset is past the end, the file would be too large, or every block is in use; then in as few chunks of three blocks' bytes as it takes |
| Fs.Fs.WriteChunk | kernel/file.c:157-174 | One chunk: one transaction of at most MAXOPBLOCKS distinct blocks |
| FsSpec.ChunkBound | kernel/file.c:149-160 | What a chunk may log (data blocks, a bitmap block for each that is new, the block of addresses and its bitmap block if the chunk reaches it, the inode's block) is at most 10; it is 10 if and only if the chunk touches four blocks and one of them is reached through the block of addresses |
| WorstCase.LogsTen | kernel/file.c:157-174 | The bound is met: on a disk laid out as mkfs does, with four bitmap blocks, writei of one chunk, across the end of the direct blocks, writes all of it and logs exactly ten distinct blocks |
| WorstCase.Ten | kernel/fs.c:505-539 | So it is for every outcome that writei's contract allows there: four data blocks, the block of addresses, four bitmap blocks and the inode's block, all distinct |
| FsSpec.AllocOk | kernel/fs.c:65-88 | Marking and zeroing a free block keeps the file system consistent and touches no file |
| FsSpec.FreeOk | kernel/fs.c:91-105 | Clearing the bit of a block that no inode names keeps the file system consistent; the bit was set |
| FsSpec.OwnedLinkDirect | kernel/fs.c:388-394 | A loose block may be put into an empty direct address without being shared |
| FsSpec.OwnedLinkEntry | kernel/fs.c:407-417 | The same for an entry of the block of addresses, whose bytes change only there |
| FsSpec.OwnedUnlinkIndirect | kernel/fs.c:439-449 | Forgetting the block of addresses makes it and all the blocks it names loose at once |
| FsSpec.BytesWrite | kernel/fs.c:516-528 | Splicing bytes into one block, which the file may just have got, changes exactly those bytes of the file |
| Blocks.SetBit | kernel/fs.c:75-77 | Setting a bit of a byte leaves the other bits of the block |
| Blocks.ClearBit | kernel/fs.c:98-102 | So does clearing one |
| Blocks.PutWord | kernel/fs.c:408-413 | A 32-bit word of a block reads back, and the other words are kept |
| Mkfs.Make | mkfs/mkfs.c:68-173 | Makes an image exactly when everything fits; it is consistent, with no block loose; each file holds exactly the bytes given; the root directory holds its entries; the root directory has a hole if and only if its entries fill whole blocks |
| Mkfs.Image.IAppend | mkfs/mkfs.c:252-294 | Appends the bytes to that file and changes no other; fails exactly when the file would be too large or the image too small; the blocks handed out are always the metadata plus what the files' sizes need |
| Mkfs.Image.IAlloc | mkfs/mkfs.c:220-232 | The next inode, empty; nothing else changes |
| Mkfs.Image.Balloc | mkfs/mkfs.c:234-248 | The bitmap marks exactly the blocks handed out, so that the image is consistent; no file changes |
| Mkfs.Image.FixRoot | mkfs/mkfs.c:163-168 | After the rounding of its size the root directory has a block for every byte if and only if its size was not a multiple of the block size |
| Mkfs.Image.constructor | mkfs/mkfs.c:92-111 | A zeroed image whose layout has room for the inodes and the bitmap before the data blocks |
| Mkfs.RootHole | mkfs/mkfs.c:163-168 | The condition for the hole, for every file in the making |
| Mkfs.HoleFits | mkfs/mkfs.c:163-168 | The condition is met by an input that fits: 62 empty files, whose entries fill one block |
| Mkfs.MakeHole | mkfs/mkfs.c:163-168 | mkfs on that input makes an image whose root directory lacks a block below its size |
| Mkfs.BitmapOk | mkfs/mkfs.c:234-248 | One bitmap block whose low bits are set makes an image consistent, also when there are more bitmap blocks |
| Mkfs.TakeEntry | mkfs/mkfs.c:274-282 | Naming the next block in the block of addresses hands it to the file alone |
| Mount.MakeAndRun | kernel/fs.c:382-539 | From an image of mkfs, over every sequence of writes, reads and truncations: each file starts with the bytes given to mkfs, each read returns the slice of the bytes written so far, and no operation changes another file; at the end no block is shared, the bitmap is exact and no block is lost; and the run is a sequence of transactions from one consistent file system to the next; and whatever commits the log makes of it, a crash anywhere in it is recovered from as CrashFs.CrashInRun says, beginning with the disk that mkfs wrote |
| Mount.Run | kernel/fs.c:382-539 | The same from any consistent file system: the blocks and inodes refine a plain sequence of bytes per file |
| CrashFs.CrashInRun | kernel/log.c:116-203 | Over any run of operations from a consistent file system, with commits after any of them, so that each commit has the work of any number of operations: a crash after any block write of any commit, and any number of crashes while recovering, leave on disk, under an empty log header, the consistent file system as the operations up to the commit before left it, or up to this one, and the latter exactly from the write of the header on: the operations that share a commit are there all together or not at all |
| CrashFs.CrashInCommits | kernel/log.c:116-203 | The same in terms of the log's own transactions |
| CrashFs.GroupsAreTransactions | kernel/log.c:126-175 | The operations between two commits make one transaction of the log, which logs what any of them logs |
| CrashFs.ImageDisk | mkfs/mkfs.c:95-115 | An image of mkfs as a disk: the file system is on it, with inodes encoded in their blocks, and the log's header is empty |
| CrashFs.CrashInTransaction | kernel/log.c:116-203 | The same for one transaction |
| CrashFs.BetweenTransactions | kernel/log.c:193-203 | Commits that run to their end leave on disk, after each transaction, the file system as that transaction left it |
| CrashFs.CommitOf | kernel/log.c:193-203 | Every transaction that fits the log has a commit: the blocks logged, and as their contents what the file system then holds, inodes encoded in their blocks |
| CrashFs.CacheView | kernel/fs.c:224-241 | Writing back the blocks and the inodes that a transaction changed changes no block but those it logged |
| CrashFs.PutInode | kernel/fs.c:224-241 | An inode put in its 64 bytes reads back, and the other inodes of the block as before |
| ShellGrammar.ParsesExactly | user/sh.c:328-447 | For every line without NUL and every command tree: the line is derived by the shell's grammar (precedence of redirection, pipe, background and list; parentheses; redirections before, between and after words; free whitespace; at most 9 words) for that tree if and only if the parser accepts the line with that tree. So the parser is sound and complete, and the grammar is not ambiguous |
| ShellGrammar.Accepts | user/sh.c:328-447 | Every derivation's text is parsed, as what the derivation stands for |
| ShellGrammar.Derives | user/sh.c:328-447 | Every parsed line has a derivation, with all its whitespace and parentheses, that stands for the tree |
| ShellGrammar.RoundTrip | user/sh.c:328-447 | For every command tree with at most 9 words to a command, all of them nonempty and free of whitespace, NUL and symbols, parsing what is printed with no parentheses but those that precedence asks for, and with redirections between the words, gives the tree back |
| ShellGrammar.Reprinted | user/sh.c:328-447 | Every line that is parsed can be printed from its tree and parsed again, to the same tree: the printable trees are all that the parser makes |
| ShellGrammar.LineRead | user/sh.c:345-360 | A derived form is parsed wherever it stands before the end of the line or a closing parenthesis, and the parser stops right behind it |
| Shell.WordsEndInPlace | user/sh.c:450-494 | After a successful parse, nulterminate makes every recorded argument and file name read as exactly the text of its token: no NUL lands inside another word |
| Shell.LineSpans | user/sh.c:345-360 | Every word recorded by a successful parse lies in the line and ends at whitespace, a symbol or the end |
| Shell.CutAt | user/sh.c:450-494 | nulterminate writes NUL exactly at the ends of the recorded words and nothing elsewhere |
| Shell.ParseLineInPlace | user/sh.c:328-343 | The parser followed by nulterminate, on the buffer itself: a panic leaves the buffer as it was, a success makes every recorded word a C string of its token |
| Shell.NulTerminate | user/sh.c:450-494 | The recursive walk writes the buffer as Cut describes |
| Shell.Parser.TakeToken | user/sh.c:266-309 | The cursor version of gettoken agrees with its specification on every input and never runs past the end |
| Shell.Parser.Redirections | user/sh.c:375-398 | The same for parseredirs, with the panic on a missing file name |
| Shell.Parser.Arguments | user/sh.c:430-444 | The same for the loop of parseexec, with its panics on a bad token and on too many arguments |
| Shell.Parser.Execution | user/sh.c:416-447 | The same for parseexec |
| Shell.Parser.Block | user/sh.c:400-414 | The same for parseblock |
| Shell.Parser.Pipeline | user/sh.c:362-373 | The same for parsepipe |
| Shell.Parser.Line | user/sh.c:345-360 | The same for parseline; the mutual recursion terminates on every input |
| Grep.Match | user/grep.c:71-81 | True exactly when some substring of the text, a prefix if the pattern starts with ^, is in the declarative language of the parsed pattern |
| Grep.MatchHere | user/grep.c:84-95 | True exactly when some prefix, all of the text if the pattern ends in $, is in the language; the mutual recursion terminates |
| Grep.MatchStar | user/grep.c:98-105 | The same for a starred character followed by the rest |
| Grep.HereCons | user/grep.c:84-105 | The language of a pattern splits at its first item, in both directions |
| Grep.OccursIsHere | user/grep.c:71-81 | An unanchored pattern occurs exactly when it matches at some position |

## Left out

- BufferCache.Cache.Bread: one device only, and a buffer that another process has locked is not waited for; at boot the buffers name device 0, block 0, and so uniqueness is stated for nonzero devices.
- BufferCache.Cache.Bget: one device only.
- BufferCache.Cache.Brelse: takes for granted that a changed buffer has been written or logged before it is released, which is the rule its callers keep.
- BufferCache.Cache.Bunpin: takes for granted that a buffer that differs from disk is still held by someone when its last pin goes, as in install_trans.
- Log.Log.Commit: runs to its end or stops where bget finds no buffer; other processes are not interleaved with it, since GroupCommit shows that none logs meanwhile.
- GroupCommit.Reservation: takes for granted that an operation adds at most MAXOPBLOCKS new blocks; `Fs.Fs.FileWrite` shows it for filewrite, not for the other system calls.
- CrashFs.CrashInRun: operations that share a commit come one after the other, as far as the file system can tell; they are not interleaved block by block. Type, device numbers and link count of an inode do not change.
- SchedRuns.NoLostWakeup: all processes are scheduled round robin. The first-come scheduler tests and sets a state without the lock and is not modelled.
- SchedRuns.NoPanic: does not model interrupt enabling and its nesting count, nor the memory barriers of spinlocks.
- VirtioRuns.GetsServed: that a request can be carried out, not that a device must get round to it; processes that wait for descriptors are modelled as trying again.
- SchedCalls.Schedules: the steps of one CPU, with no other CPU holding a p->lock it comes to meanwhile; the same of the other members of SchedCalls. What holds under every interleaving is in SchedRuns.
- Umalloc.Heap.Malloc: for requests of which the byte count survives the conversion to int; sbrk is a parameter that answers with memory above what it gave before, or fails.
- Vm.Vm.MapPages: for permissions with one of R, W and X; an entry without any would be taken for a table. Addresses are not cut to 64 bits.
- Vm.Vm.UvmUnmap: freeing is for page tables whose mapped pages are counted.
- Vm.Vm.UvmAlloc: sizes are not cut to 64 bits; nothing is said of the tables after a panic.
- Vm.Vm.UvmCopy: for a parent whose pages are readable or executable pages of the allocator; the parent's entries stay writable, as in the code, so no isolation after fork is claimed.
- Fs.Fs.Writei: user copies succeed; a failing copy leaves a change that is not logged. The file has no hole below its size.
- Fs.Fs.Readi: user copies succeed, and the file has no hole below its size.
- Fs.Fs.FileWrite: the file has no hole below its size; a hole comes only from the root directory of `Mkfs.RootHole`.
- Mkfs.Make: at most ninodes - 2 files. The source never compares the inode number with NINODES, and with more files it writes inodes past their blocks. The super block's bytes are left out; names come padded to 14 bytes; files are read in whole blocks.
- Mkfs.Image.IAlloc: for an inode number below ninodes, for the same reason.
- Mkfs.Image.IAppend: the inode is updated as the blocks are handed out, and not first in a copy; nothing reads it in between.
- Directories, path names and link counts: link counts do not add up in this code, since a file can be made in a removed directory.
- What user programs write to their pages, copyin, copyout, and the copy-on-write fault path, in which counts are not conserved.
- The console with its history: its erase loop does not end on an empty line.
- The first-come scheduler and process statistics.
- calculate_free_ram: one loop that misses the last page.
- Assembly, interrupts, device set-up, memory barriers and ELF loading: effects of the hardware.
- System-call plumbing, the other user programs and the test programs.
- kernel/ramdisk.c: not built.
