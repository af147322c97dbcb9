# Verified models of the ucore-thumips kernel, its disk image tool and the Decaf liveness analysis

This project models the parts of a small MIPS kernel, of its disk image builder and of a
Decaf compiler whose correctness is hardest to see, and proves what they are for. To check
all of it, call `dafny verify dfyconfig.toml` in this directory.

- **Red-black tree** (`RbShape`, `RbBalance`, `RbInsert`, `RbDelete`, `RbLink`, `RbTree`,
  `RbCheck`). Nodes are heap objects. A memory value and a layout (the nodes in order, and
  for each node the range of positions below it and its black height) make every rule a
  condition on one node and its children. Insertion and deletion, with the sentinel as a
  node that has a live parent, a header above the root and a cached root in the delete
  repair, keep all rules and change the order by exactly one node.
- **Buddy page allocator** (`BuddyBlocks`, `BuddyPages`, `BuddyPmm`). Free blocks as a set,
  their representation by page flags and free lists, and the operations on it: splitting,
  trimming, cutting arbitrary ranges, coalescing.
- **Object allocator** (`SlabConfig`, `Slabs`, `SlabSteps`, `Kmalloc`). Free chains threaded
  through an array, lists of full and other slabs, slab headers in other slabs.
- **Processes** (`Kernel`, `KernelSafety`, `KernelFamily`, `KernelRuns`, `KernelTree`,
  `KernelSleep`, `KernelKill`, `ChildLinks`, `ProcTable`, `KernelView`, `KernelMachine`,
  `KernelPids`, `Timers`, `Pids`). Kernel code is not preempted, so what a process does between
  two calls of schedule() is one step of a transition system, with interrupts between any two
  steps. Its invariant is proved over all runs. `KernelMachine` has the processes as heap objects
  with their state, wait state and the pointers parent, cptr, optr and yptr, a run queue of such
  objects with its counter, and the process table; `KernelView` says how these stand for a state
  of the system. Every operation on the objects does the step, and says what becomes of the
  objects, so the child lists are well linked and the counters right after every run from boot.
  `Pids` has the static variables of get_pid, from which `KernelPids` gives the processes their
  numbers.
- **Simple file system** (`SfsDisk`, `SfsMap`, `SfsBlocks`, `SfsBytes`, `SfsView`, `SfsIo`,
  `SfsFile`, `Bitmap`, `MkBlocks`, `MkSfs`, `InodeReclaim`). Block maps in two tiers with
  indirect blocks as bytes on the disk, block accounting, unaligned input and output,
  truncation, the bit map, the image builder from the first block to the file that is read
  after mounting, and the protocol by which in-memory inodes are found, dropped and reclaimed
  by interleaved threads.
- **Liveness analysis** (`Liveness`, `FlowGraph`). The meaning by paths, the equations, the
  iteration, and the pass over single instructions.
- **Memory areas** (`Vma`) and **arithmetic** (`Divide`, `PrintNum`, `Intrinsic`).

`Basics` has what several of them share: lists without repetitions and powers of two.

Three properties the code does not keep. The first two are about a file whose blocks are to
be as many as its size needs, blocks = ceil(size / 4096), the third about its own assertion:

- `sfs_truncfile` that runs out of blocks while it grows a file leaves the blocks taken so
  far with the file but not the new size. A later call with the current size then meets its
  own assertion. `SfsFile.Sfs.Truncfile` states exactly when the equality holds afterwards and
  exactly when the assertion fails, for files with surplus blocks and for files that lack
  their last one; `SfsFile.GrowthBreaks` makes the two calls on a disk with one free block.
- `sfs_io_nolock` that is to write inside the block that would come after the last one of a
  file, not at its start, and finds no block for it, still sets the size to the place where it
  was to write. The file then lacks one block. `SfsFile.Sfs.Io` states exactly this condition;
  `SfsFile.WriteBreaks` makes the call, a read that finds no block either, and a truncation
  that meets its assertion. The place comes from a position kept in a file descriptor while
  another one opens the file to create or truncate it (`kern/fs/vfs/vfsfile.c:56`) and the
  blocks given back then go to other files. Worse does not come of it: every outcome of `Io`
  and `Truncfile` keeps size / 4096 <= blocks, so that at most the last block is missing, and
  what a reader gets of that block is zeros.
- The assertion in `sfs_bmap_load_nolock` that no block is skipped fails for a write that
  starts past that block; `SfsFile.Sfs.Io` has the condition, `SfsFile.WriteSkips` an input, and
  `SfsFile.Sfs.WriteAfterTruncation` the way there: a file emptied under a kept position of 4096
  or more.

Where code and comments differ, the code is followed: `find_vma` is described by its
comment as finding an area that contains the address, but returns the first area that ends
above it; blocks that return in the flow graph keep block 0 as both successors, so the live
sets are those of the graph with these edges.

## Model

| member | source | states |
|---|---|---|
| RbTree.Tree.Rotate | ucore-thumips-2017summer/kern/libs/rb_tree.c:78-100 | Either rotation makes exactly the link changes of a rotation, for a child that may be the sentinel. |
| RbTree.Tree.InsertBinary | ucore-thumips-2017summer/kern/libs/rb_tree.c:112-130 | The new node becomes a red leaf at the place in order behind all nodes that are not greater. |
| RbTree.Tree.Insert | ucore-thumips-2017summer/kern/libs/rb_tree.c:132-171 | All red-black rules and the order are kept; the nodes in order are the old ones with the new node behind every smaller or equal and before every greater one. |
| RbTree.Tree.InsertFixup | ucore-thumips-2017summer/kern/libs/rb_tree.c:136-170 | The repair loop turns a tree with one red-red edge into a red-black tree with the same nodes in the same order. |
| RbTree.Tree.Search | ucore-thumips-2017summer/kern/libs/rb_tree.c:231-239 | Returns null iff no node compares equal, otherwise a matching node above all other matches, after a number of steps s with 2^s at most (n + 1)^2. |
| RbTree.Tree.Successor | ucore-thumips-2017summer/kern/libs/rb_tree.c:178-201 | The next node in order, or the sentinel behind the last one. |
| RbTree.Tree.Predecessor | ucore-thumips-2017summer/kern/libs/rb_tree.c:204-227 | The previous node in order, or the sentinel before the first one. |
| RbTree.Tree.DeleteFixup | ucore-thumips-2017summer/kern/libs/rb_tree.c:245-291 | From a tree one black node short below some node, which may be the sentinel, and with a root remembered from before, a red-black tree with the same order results. |
| RbTree.Tree.Delete | ucore-thumips-2017summer/kern/libs/rb_tree.c:294-327 | All rules are kept and the nodes in order lose the deleted node and no other. |
| RbTree.Bushy | ucore-thumips-2017summer/kern/libs/rb_tree.c:231-239 | A node of black height h has at least 2^h - 1 nodes in its subtree. |
| RbCheck.Whole | ucore-thumips-2017summer/kern/libs/rb_tree.c:378-404 | Following the links from the root gives a binary tree whose in-order walk is the layout's order, with a black root, no red-red edge and equal black heights on all paths. |
| RbCheck.HoldsOnce | ucore-thumips-2017summer/kern/libs/rb_tree.c:378-404 | The links determine that tree uniquely. |
| RbCheck.CheckTree | ucore-thumips-2017summer/kern/libs/rb_tree.c:378-404 | None of the assertions of the checking routine fails on a valid tree, and it returns the black height. |
| BuddyBlocks.Canonical | ucore-thumips-2017summer/kern/mm/buddy_pmm.c:158-186 | A block is free as a block iff all its pages are free and those of the next larger block around it are not all free. |
| BuddyBlocks.Determined | ucore-thumips-2017summer/kern/mm/buddy_pmm.c:158-186 | The free pages alone determine the free blocks. |
| BuddyBlocks.RunAvailable | ucore-thumips-2017summer/kern/mm/buddy_pmm.c:93-118 | There is a free block of order k or more iff some aligned run of 2^k pages is free. |
| BuddyBlocks.MergeProper | ucore-thumips-2017summer/kern/mm/buddy_pmm.c:158-186 | Joining a block with free buddies leaves disjoint aligned blocks without two free buddies, with exactly its pages added. |
| BuddyBlocks.HalveProper | ucore-thumips-2017summer/kern/mm/buddy_pmm.c:100-112 | Cutting a block in two keeps the free blocks proper and frees exactly the upper half. |
| BuddyPmm.FreeUndoesAlloc | ucore-thumips-2017summer/kern/mm/buddy_pmm.c:189-216 | Freeing the pages an allocation took restores the very same set of blocks. |
| BuddyPmm.AllocThenFree | ucore-thumips-2017summer/kern/mm/buddy_pmm.c:80-216 | Allocating any number of pages and freeing them brings the allocator back to the very same free blocks. |
| BuddyPmm.Pmm.InitMemmap | ucore-thumips-2017summer/kern/mm/buddy_pmm.c:53-78 | A new zone is laid out in proper blocks that hold all its pages and no others. |
| BuddyPmm.Pmm.AllocSub | ucore-thumips-2017summer/kern/mm/buddy_pmm.c:93-118 | Fails iff no free block is large enough, and then changes nothing; otherwise the block cut is of the smallest sufficient order and first on its list, and one block of the order asked for at its start is taken, and exactly its pages. |
| BuddyPmm.Pmm.Alloc | ucore-thumips-2017summer/kern/mm/buddy_pmm.c:80-132 | Panics iff more than 2^10 pages are asked for; fails iff no aligned run of the rounded size is free; otherwise takes exactly n pages of one zone, and the count of free pages falls by n. |
| BuddyPmm.Pmm.FreeSub | ucore-thumips-2017summer/kern/mm/buddy_pmm.c:134-186 | Flags, lists and counters represent the free blocks after joining the block with its free buddies. |
| BuddyPmm.Pmm.Free | ucore-thumips-2017summer/kern/mm/buddy_pmm.c:189-216 | Any allocated range of fewer than 2^11 pages is cut into aligned blocks; exactly its pages become free, and the count rises by n. |
| BuddyPmm.Pmm.NrFreePages | ucore-thumips-2017summer/kern/mm/buddy_pmm.c:220-227 | The sum over the lists is the number of free pages. |
| SlabConfig.InitCache | ucore-thumips-2017summer/kern/mm/kmalloc.c:163-283 | Initialising the thirteen caches gives the stated table and reaches none of the panics. |
| SlabConfig.Layout | ucore-thumips-2017summer/kern/mm/kmalloc.c:163-283 | Objects and header fit into the slab, or the header into an object of a cache with headers inside its own slabs. |
| SlabConfig.CacheEstimate | ucore-thumips-2017summer/kern/mm/kmalloc.c:163-202 | Without a header inside, as many objects as fit; otherwise the largest number not above the precomputed guess that fits together with the header. |
| Slabs.ChainPop | ucore-thumips-2017summer/kern/mm/kmalloc.c:370-381 | Taking the first free index leaves a chain through the others. |
| Slabs.ChainPush | ucore-thumips-2017summer/kern/mm/kmalloc.c:445-462 | Putting an index back gives a chain that starts with it. |
| SlabSteps.TakeOk | ucore-thumips-2017summer/kern/mm/kmalloc.c:370-381 | The slab invariant is kept when an object is taken: chain, counts, lists, pages and headers of all slabs. |
| SlabSteps.PutOk | ucore-thumips-2017summer/kern/mm/kmalloc.c:445-462 | It is kept when an object comes back to a slab that has others in use. |
| SlabSteps.AddSlabOk | ucore-thumips-2017summer/kern/mm/kmalloc.c:326-367 | It is kept when a slab is made on pages that were free. |
| SlabSteps.DropOk | ucore-thumips-2017summer/kern/mm/kmalloc.c:424-462 | It is kept when the last object of a slab comes back and the slab goes. |
| Kmalloc.Allocator.Grow | ucore-thumips-2017summer/kern/mm/kmalloc.c:292-367 | Makes an empty slab at the front of its list, with a header where one is needed. It fails iff no run of free pages is long enough for the slab, or, where the header lies elsewhere, no slab has room for it and no run is left for one that would; then nothing has changed. |
| Kmalloc.Allocator.CacheAlloc | ucore-thumips-2017summer/kern/mm/kmalloc.c:385-407 | Hands out an object nobody has, and only that; no page is lost. It fails iff no slab of the cache has room and the cache cannot grow, both before the call. |
| Kmalloc.Allocator.Kmalloc | ucore-thumips-2017summer/kern/mm/kmalloc.c:411-419 | Panics iff more than the largest object is asked for. There is no memory iff the smallest sufficient cache, as it was before the call, has no slab with room and cannot grow; otherwise the object comes from that cache. |
| Kmalloc.Allocator.CacheFree | ucore-thumips-2017summer/kern/mm/kmalloc.c:424-490 | The address leads to the right slab and index; exactly that object is given back, and an empty slab goes with its header. |
| Kmalloc.NoOverlap | ucore-thumips-2017summer/kern/mm/kmalloc.c:292-381 | No byte belongs to two live objects, or to a live object and a slab header. |
| Kmalloc.AllGivenBack | ucore-thumips-2017summer/kern/mm/kmalloc.c:424-484 | When callers have no object left, there is no slab, all lists are empty, and the free pages are all pages, also those of headers. |
| Kmalloc.FreeLast | ucore-thumips-2017summer/kern/mm/kmalloc.c:424-490 | Freeing the last object of all returns every page of every slab to the page allocator. |
| KernelRuns.StepSafe | ucore-thumips-2017summer/kern/process/proc.c:463-516 | No step that can be taken in a state of the invariant trips an assertion; the kernel stops iff idle or init exits; the invariant is kept. |
| KernelRuns.NeverFails | ucore-thumips-2017summer/kern/sync/sem.c:16-76 | The same for every state that any run from boot reaches, with kills, ticks, keys and exits interleaved. |
| KernelRuns.Mutex | ucore-thumips-2017summer/kern/sync/sem.c:16-65 | Over every run in which only holders call up(), at most one process has come back from down() on a semaphore that starts from 1 without an up() since. Whoever calls down() comes back at once iff nobody holds it or is about to, and otherwise sleeps; who comes back later is the only holder. |
| KernelRuns.Permits | ucore-thumips-2017summer/kern/sync/sem.c:16-76 | Over every such run these are constant in sum: those who came back from down(), by coming back and not by the value; those an up() has passed a permit to who have not come back yet; and the value. |
| KernelRuns.Fifo | ucore-thumips-2017summer/kern/sync/sem.c:16-76 | Waiters are served in the order they came; start value plus up()s equals value plus granted down()s; the value is never negative, and positive only with nobody waiting. |
| KernelRuns.RunQueueExact | ucore-thumips-2017summer/kern/schedule/default_sched.c:13-29 | In every reachable state a process is on the run queue iff it is runnable, not running and not idle, and once only; proc_num is the length of the queue. |
| KernelRuns.Dispatched | ucore-thumips-2017summer/kern/schedule/default_sched.c:13-38 | The process at place j of the run queue runs after the (j + 1)-th schedule(). |
| KernelRuns.NoLostWakeup | ucore-thumips-2017summer/kern/process/proc.c:786-845 | Who sleeps in do_wait has a child to wait for, and no such child is dead, whether born to it or handed to init. |
| KernelRuns.Families | ucore-thumips-2017summer/kern/process/proc.c:463-516 | Parents and children agree, parents are never dead, dead processes have no children. |
| KernelFamily.ExitInvariant | ucore-thumips-2017summer/kern/process/proc.c:463-516 | do_exit wakes a waiting parent, hands over all children and keeps the invariant. |
| KernelFamily.OrphansToInit | ucore-thumips-2017summer/kern/process/proc.c:495-510 | init gets the children of the dead process in front of its own, the eldest first. |
| KernelFamily.WaitInvariant | ucore-thumips-2017summer/kern/process/proc.c:786-845 | do_wait, from the children the caller has: without one that it asks for nothing changes; while none of those is dead the caller sleeps and must call schedule(); of those that are dead exactly the youngest disappears. The invariant is kept. |
| KernelTree.Descends | ucore-thumips-2017summer/kern/process/proc.c:495-510 | In every reachable state the links to the parents lead from every process to idle, without a circle. |
| KernelTree.AllQuit | ucore-thumips-2017summer/kern/process/proc.c:926-933 | In every reachable state init has no child, and idle none but init, iff no other process is there. |
| KernelSleep.SleepsOn | ucore-thumips-2017summer/kern/schedule/sched.c:101-172 | In any run in which a sleeper is not killed and fewer ticks pass than it has left, it sleeps, and its timer has lost exactly those ticks. |
| KernelSleep.SleepsExactly | ucore-thumips-2017summer/kern/process/proc.c:996-1010 | Whoever calls do_sleep(t), and is not killed, is asleep in every run with fewer than t ticks, and the t-th tick makes it runnable. |
| KernelSafety.FireInvariant | ucore-thumips-2017summer/kern/schedule/sched.c:142-172 | Waking the owners of due timers trips no assertion and leaves no timer due. |
| KernelSafety.UpInvariant | ucore-thumips-2017summer/kern/sync/sem.c:16-30 | The first waiter still waits for this semaphore when up() passes it the permit. |
| KernelView.MirrorWake | ucore-thumips-2017summer/kern/schedule/sched.c:57-75 | A process in memory that the system may wake is not dead and not queued yet; woken, its fields and the queue of objects stand for the state after the step. |
| KernelView.MirrorRound | ucore-thumips-2017summer/kern/process/proc.c:495-510 | Handing the first child of a process to init in memory, and waking init if that child is dead and init waits, is the step of the system. |
| KernelView.MirrorReap | ucore-thumips-2017summer/kern/process/proc.c:836-842 | Taking a dead child out of the family, and its number out of the table of numbers, leaves the view intact. |
| KernelMachine.Machine.WakeupProc | ucore-thumips-2017summer/kern/schedule/sched.c:57-75 | The process is runnable and waits for nothing; it is queued behind all others iff it slept and is neither running nor idle, and only then the counter rises; nothing else changes. |
| KernelMachine.Machine.DoSchedule | ucore-thumips-2017summer/kern/schedule/sched.c:77-99 | The running process goes to the end of the queue, the first of the queue runs, idle if there is none; memory follows the step. |
| KernelMachine.Machine.DoUp | ucore-thumips-2017summer/kern/sync/sem.c:16-30 | Without a waiter the value rises. Otherwise the first waiter waits for a semaphore, as asserted; it gets the permit, is runnable, waits for nothing and is last on the run queue. |
| KernelMachine.Machine.DoDown | ucore-thumips-2017summer/kern/sync/sem.c:32-44 | A positive value falls by one and the caller goes on as it was. At 0 the caller is last in the queue of the semaphore, asleep for a semaphore, inside down(), and must call schedule(); no other semaphore changes. |
| KernelMachine.Machine.DoTryDown | ucore-thumips-2017summer/kern/sync/sem.c:67-76 | Succeeds iff the value was positive, then takes one from it, and changes nothing else. |
| KernelMachine.Machine.DoFork | ucore-thumips-2017summer/kern/process/proc.c:417-449 | A new runnable object becomes the youngest child of the running process in the pointers, is found by its number and queued last; the table stays well linked. |
| KernelMachine.Machine.HandAll | ucore-thumips-2017summer/kern/process/proc.c:495-510 | The pointer loop moves all children to the front of the list of init, the eldest first, although the yptr fields of those left are stale during it, wakes init where needed, and is the recursive step of the system. |
| KernelMachine.Machine.DoExit | ucore-thumips-2017summer/kern/process/proc.c:463-512 | The process is dead and must call schedule(); a parent that slept in do_wait is awake and queued; the children are in front of those of init, the eldest first; the table is well linked. |
| KernelMachine.Machine.DoWait | ucore-thumips-2017summer/kern/process/proc.c:786-845 | From the children in memory: the call finds a child iff there is one that it asks for. The youngest dead one of these leaves the child list, the table and the numbers; with none dead the caller sleeps for a child inside do_wait and must call schedule(); with no such child nothing changes. |
| KernelMachine.Machine.WaitAgain | ucore-thumips-2017summer/kern/process/proc.c:818-827 | A waiter that was killed dies and its children go to init. Any other one does what do_wait does, for the very number it was called with, and with the children it has now. |
| KernelMachine.Machine.DoKill | ucore-thumips-2017summer/kern/process/proc.c:848-862 | The process found is marked. If it was not marked before and slept, and not in down(), it is runnable, waits for nothing and is last on the run queue; otherwise all else is as before. |
| KernelKill.KillEffect | ucore-thumips-2017summer/kern/process/proc.c:848-862 | The same for the state of the system: the whole state after do_kill, in every state of the invariant. |
| KernelKill.KilledExits | ucore-thumips-2017summer/kern/process/proc.c:818-862 | In every run, a process that is killed while it sleeps in do_wait is dispatched once all that were queued before it have been, and what it does then is to exit: it is dead and must call schedule(). Init cannot, and the kernel stops. |
| KernelMachine.Machine.DoTick | ucore-thumips-2017summer/kern/schedule/sched.c:142-172 | The loop over due timers wakes exactly the processes of the step, and its assertion on their wait state holds. |
| KernelMachine.Machine.DoKey | ucore-thumips-2017summer/kern/sync/wait.c:97-112 | All readers are awake and none is left in the queue. |
| KernelMachine.Machine.DoSleep | ucore-thumips-2017summer/kern/process/proc.c:996-1010 | The caller sleeps for a timer inside do_sleep and must call schedule(); its timer is in the list. |
| KernelMachine.Machine.DoRead | ucore-thumips-2017summer/kern/sync/wait.c:113-121 | The caller sleeps for a key, last in the queue of the keyboard readers, and must call schedule(). |
| KernelMachine.Machine.Leave | ucore-thumips-2017summer/kern/sync/sem.c:46-65 | The assertion in down() holds after the wakeup; the caller is out of the call, a sleeper's timer and a reader's place are gone, and nothing else changes. |
| KernelMachine.Machine.Perform | ucore-thumips-2017summer/kern/process/proc.c:134-159 | Any step that can be taken, other than the exit of idle or init, is done in memory with all assertions holding; the process table is well linked and its count right before and after. |
| KernelMachine.Machine.Execute | ucore-thumips-2017summer/kern/process/proc.c:463-516 | So is any run: memory ends in a state that stands for the last state of the run. |
| KernelMachine.Replay | ucore-thumips-2017summer/kern/process/proc.c:944-982 | The same from boot on: after every run the child lists of all processes are doubly linked, the counters agree with the lists, and the invariant holds. |
| KernelMachine.Machine.InitAlone | ucore-thumips-2017summer/kern/process/proc.c:926-935 | What init_main asserts when it has no child left holds in every reachable state: init has no relatives but idle, two processes are counted, and init alone is listed. |
| KernelPids.Census | ucore-thumips-2017summer/kern/process/proc.c:134-159 | In every state of the machine proc_list names every process but idle once, and nr_process is the number of processes. |
| KernelPids.DoForkNumbered | ucore-thumips-2017summer/kern/process/proc.c:417-449 | do_fork refuses iff MAX_PROCESS processes exist; otherwise the child gets the first number after the last one given, going round, that no process has, and what get_pid remembers stays right. |
| KernelPids.PerformNumbered | ucore-thumips-2017summer/kern/process/proc.c:161-194 | Every other step keeps this: no number strictly between the two that get_pid remembers is ever in use when it is called. |
| KernelPids.BootNumbers | ucore-thumips-2017summer/kern/process/proc.c:972-981 | The first call of get_pid gives init the number 1, as proc_init asserts. |
| Timers.AddDue | ucore-thumips-2017summer/kern/schedule/sched.c:101-121 | Adding to the delta list adds to the map of remaining ticks and changes no other timer. |
| Timers.AddPlace | ucore-thumips-2017summer/kern/schedule/sched.c:101-121 | The new timer stands behind all that are due no later and before all that are due later. |
| Timers.DelDue | ucore-thumips-2017summer/kern/schedule/sched.c:123-140 | Deleting removes one timer from the map and changes no other. |
| Timers.TickWellformed | ucore-thumips-2017summer/kern/schedule/sched.c:142-172 | A tick takes one from every timer, drops those that reach 0, and leaves no 0 at the head. |
| Timers.FiresOnTime | ucore-thumips-2017summer/kern/schedule/sched.c:101-172 | A timer added for t ticks fires on the t-th later tick, under any adds and deletes of other timers. |
| Timers.TimerList.AddTimer | ucore-thumips-2017summer/kern/schedule/sched.c:101-121 | The loop and the splice give the list of the specification. |
| Timers.TimerList.DelTimer | ucore-thumips-2017summer/kern/schedule/sched.c:123-140 | The loop and the unlinking give the list of the specification. |
| Timers.TimerList.RunTimerList | ucore-thumips-2017summer/kern/schedule/sched.c:142-172 | Exactly the timers with one tick left fire, the others lose one tick. |
| ProcTable.Table.SetLinks | ucore-thumips-2017summer/kern/process/proc.c:134-144 | The new process is the first of its parent's doubly linked child list; all other lists are as before; the count is the list's length plus one. |
| ProcTable.Table.RemoveLinks | ucore-thumips-2017summer/kern/process/proc.c:146-159 | The process leaves its siblings and the table, wherever it stood among them. |
| ProcTable.Table.HandFirst | ucore-thumips-2017summer/kern/process/proc.c:495-510 | One round of the pointer loop: the youngest child becomes the youngest of init, and all lists stay linked but the yptr fields of those left. |
| ProcTable.Table.FirstDead | ucore-thumips-2017summer/kern/process/proc.c:809-817 | The youngest dead child, or null iff none is dead; tells whether there are children. |
| ChildLinks.DropWired | ucore-thumips-2017summer/kern/process/proc.c:146-159 | Unlinking a childless process keeps all child lists doubly linked. |
| ChildLinks.HandWired | ucore-thumips-2017summer/kern/process/proc.c:495-510 | One round of the child loop keeps all lists but the yptr fields of the one being emptied. |
| Pids.Allocator.GetPid | ucore-thumips-2017summer/kern/process/proc.c:161-194 | Terminates and returns the first unused number after the one given last, going round, and keeps that no number between last_pid and next_safe, in Dafny lastPid and nextSafe, is in use. |
| Pids.Allocator.Scan | ucore-thumips-2017summer/kern/process/proc.c:171-192 | The scan with its restarts ends at the first unused number from where it began. |
| Pids.Allocator.Fork | ucore-thumips-2017summer/kern/process/proc.c:417-441 | Refuses iff MAX_PROCESS processes exist; numbers stay distinct. |
| Pids.PassOne | ucore-thumips-2017summer/kern/process/proc.c:178-187 | Each number passed is in use and brings the scan one step nearer to an unused one. |
| InodeReclaim.StepSafe | ucore-thumips-2017summer/kern/fs/sfs/sfs_inode.c:98-150 | No step of any thread trips an assertion or uses a freed inode, in any interleaving. |
| InodeReclaim.Protocol | ucore-thumips-2017summer/kern/fs/sfs/sfs_inode.c:700-738 | In every run: reclaim_count is the number of pending reclaim calls plus one while there are references; one inode per number; what is freed is unreferenced, unopened, awaited by no call and not freed before. |
| InodeReclaim.CountsExact | ucore-thumips-2017summer/kern/fs/sfs/sfs_inode.c:98-150 | In every run, for every inode: its reference count is the number of references that lookups and vop_ref_inc handed out and that were not given back, and likewise for open files; only inodes in memory are held, and no inode that somebody holds is ever freed. |
| InodeReclaim.LookupGives | ucore-thumips-2017summer/kern/fs/sfs/sfs_inode.c:98-150 | A lookup of a number that is linked gives that inode with one reference more and nothing else changed; of one that is not linked it goes on to read the inode, with the lock held. |
| InodeReclaim.Advances | ucore-thumips-2017summer/kern/fs/sfs/sfs_inode.c:700-738 | Where each step leaves its thread and the lock: the last reference dropped leads to a reclaim call, which goes on iff there is no reference and no other such call. |
| InodeReclaim.NoneForgotten | ucore-thumips-2017summer/kern/fs/vfs/inode.c:60-70 | Unless writing back failed, every inode in memory is in use or has a reclaim call to come. |
| InodeReclaim.FailedStays | ucore-thumips-2017summer/kern/fs/sfs/sfs_inode.c:711-720 | After a failed write-back the inode stays linked and a later load revives it with the right counts. |
| SfsDisk.PutGet | ucore-thumips-2017summer/kern/fs/sfs/sfs_inode.c:152-195 | A block number written into an indirect block reads back, and no other entry changes. |
| SfsMap.OwnedOnce | ucore-thumips-2017summer/kern/fs/sfs/sfs_inode.c:197-237 | Every block of a file is in use and belongs to one place of one file, and is no inode or indirect block. |
| SfsBlocks.AddBlockOk | ucore-thumips-2017summer/kern/fs/sfs/sfs_inode.c:197-237 | Taking a block for a file keeps the accounting: free bits, count and owners. |
| SfsBlocks.DropBlockOk | ucore-thumips-2017summer/kern/fs/sfs/sfs_inode.c:240-283 | Giving back the last block keeps it. |
| SfsFile.Sfs.BlockAlloc | ucore-thumips-2017summer/kern/fs/sfs/sfs_inode.c:65-75 | Fails iff no block is unused; otherwise the first free block, cleared. |
| SfsFile.BlockAllocInMap | ucore-thumips-2017summer/kern/fs/sfs/sfs_inode.c:65-75 | With the free map in its words, the same block is taken in the same cases. |
| SfsFile.Sfs.GetSub | ucore-thumips-2017summer/kern/fs/sfs/sfs_inode.c:152-195 | Finds or makes the entry of an indirect block, making that block if need be, and gives it back if there is no second block. |
| SfsFile.Sfs.BmapLoad | ucore-thumips-2017summer/kern/fs/sfs/sfs_inode.c:286-304 | A block of the file, or a new block of zeros behind the last; fails iff the blocks needed are not there, and then no file has changed. |
| SfsFile.Sfs.BmapTruncate | ucore-thumips-2017summer/kern/fs/sfs/sfs_inode.c:306-317 | The last block goes, all others keep their bytes. |
| SfsFile.Sfs.Io | ucore-thumips-2017summer/kern/fs/sfs/sfs_inode.c:439-526 | For a file that lacks at most its last block: a read gives the bytes up to the end of the file, zeros where the block is missing, which it takes; it stops there iff no block is free, and changes nothing if none is missing. A write of any alignment changes exactly the bytes it reports as written, also when space runs out; other files and the accounting are kept. A range is refused iff it starts outside the largest file or its end overflows; the assertion fails iff a write would skip a block. The file has the blocks its size needs afterwards iff it had them and the transfer did not start behind them in vain, or it went beyond them and a block was free; and it never lacks more than the last. |
| SfsFile.Sfs.WriteThenRead | ucore-thumips-2017summer/kern/fs/sfs/sfs_inode.c:439-526 | A write and then a read through two calls: any range read gives the written bytes where they were written and the old ones elsewhere, also when the write ran out of space; the read is complete if the file had its blocks. |
| SfsFile.Sfs.Truncfile | ucore-thumips-2017summer/kern/fs/sfs/sfs_inode.c:768-809 | For a file that lacks at most its last block: its assertion fails iff the length is the current size and the blocks are not as many as it needs; otherwise it succeeds iff there is space, then bytes up to the shorter length are kept and those of new blocks are zero; without space the bytes are kept. Afterwards blocks = ceil(size / 4096) iff it succeeded, or blocks ran out exactly there; and there are at least that many iff it succeeded, or there were before, or one was free. |
| SfsFile.GrowthCanBreak | ucore-thumips-2017summer/kern/fs/sfs/sfs_inode.c:784-792 | A consistent disk on which there is a block for growing a file, but not all of them. |
| SfsFile.GrowthBreaks | ucore-thumips-2017summer/kern/fs/sfs/sfs_inode.c:779-792 | On that disk growing fails, leaves one block with a file of size 0, and the next call with size 0 fails its assertion. |
| SfsFile.Sfs.GrowTwice | ucore-thumips-2017summer/kern/fs/sfs/sfs_inode.c:779-792 | So it is on every disk, for every file that can get some but not all of the blocks. |
| SfsFile.WriteBreaks | ucore-thumips-2017summer/kern/fs/sfs/sfs_inode.c:486-526 | On a full disk a byte written at place 5 of an empty file fails and leaves size 5 without a block; reading it fails, and truncating to 5 meets the assertion. |
| SfsFile.WriteSkips | ucore-thumips-2017summer/kern/fs/sfs/sfs_inode.c:286-304 | A byte written at place 4096 of an empty file meets the assertion that no block is skipped. |
| SfsFile.Sfs.WriteAfterTruncation | ucore-thumips-2017summer/kern/fs/sfs/sfs_inode.c:286-304 | When a file is emptied under a kept position, the next write there meets that assertion iff the position is 4096 or more. |
| SfsFile.Sfs.Wbuf | ucore-thumips-2017summer/kern/fs/sfs/sfs_io.c:57-70 | The bytes of the given part of the block are the data, its other bytes and all other blocks are as before. |
| Bitmap.Map.constructor | ucore-thumips-2017summer/kern/fs/sfs/bitmap.c:18-50 | Exactly the first nbits bits are set. |
| Bitmap.Map.Alloc | ucore-thumips-2017summer/kern/fs/sfs/bitmap.c:52-70 | Takes the first set bit, fails iff there is none, and changes no other bit. |
| Bitmap.LowestBit | ucore-thumips-2017summer/kern/fs/sfs/bitmap.c:57-67 | A word other than 0 has a bit set, so the assertion behind the inner loop is not reached. |
| Bitmap.Map.Free | ucore-thumips-2017summer/kern/fs/sfs/bitmap.c:87-93 | Sets one bit and no other. |
| Bitmap.ChangeBit | ucore-thumips-2017summer/kern/fs/sfs/bitmap.c:72-93 | A mask operation on a word changes one bit of the map. |
| MkSfs.Image.constructor | ucore-thumips-2017summer/tools/mksfs.c:223-253 | A new image is consistent: super block, free map and root inode are in use, all other blocks are free and counted. |
| MkSfs.Image.AllocIno | ucore-thumips-2017summer/tools/mksfs.c:173-180 | Hands out blocks behind the free map in order, each once, and keeps the count. |
| MkSfs.Image.NewInode | ucore-thumips-2017summer/tools/mksfs.c:201-213 | The new file is empty, all others keep their bytes, and the image stays consistent; fails iff no block is left. |
| MkSfs.Image.UpdateCache | ucore-thumips-2017summer/tools/mksfs.c:382-395 | An indirect block is made iff there is none; the search in the cache is never reached. |
| MkSfs.Image.AddData | ucore-thumips-2017summer/tools/mksfs.c:397-426 | A block is taken, written and appended, with an indirect block where the thirteenth block needs it: the image stays consistent, the file has the block more, other files keep their bytes; fails iff the blocks needed are not there. |
| MkSfs.Image.OpenFile | ucore-thumips-2017summer/tools/mksfs.c:516-530 | The file holds exactly the bytes read, in ceil(n / 4096) blocks; fails iff the blocks for it, and for an indirect block if they are more than twelve, are not there. |
| MkBlocks.StuffedOk | ucore-thumips-2017summer/tools/mksfs.c:397-426 | Appending a block, through a new indirect block or not, keeps owners, free bits and count. |
| MkBlocks.LoadSaved | ucore-thumips-2017summer/kern/fs/sfs/sfs_inode.c:124-132 | An inode written to its block is read back as it was. |
| MkSfs.Image.CloseSfs | ucore-thumips-2017summer/tools/mksfs.c:312-350 | The free map written has exactly the blocks not handed out set; indirect blocks and inodes are in their places, no two of these writes meet, and no data is overwritten. |
| MkSfs.CloseThenMount | ucore-thumips-2017summer/kern/fs/sfs/sfs_fs.c:165-182 | Mounting a closed image counts exactly the unused blocks its super block records, finds every inode, and gives a consistent file system in which every file has the bytes it was given. |
| MkSfs.FileComesBack | ucore-thumips-2017summer/tools/mksfs.c:516-530 | A file put into any image under construction, which is closed and mounted, is read through the file system with the very bytes; this succeeds iff there is space. |
| Liveness.BeforeIsSummary | decaf_modified/decaf-dev/src/decaf/dataflow/BasicBlock.java:152-217 | Going back instruction by instruction gives what the block summary gives. |
| Liveness.LiveInSolution | decaf_modified/decaf-dev/src/decaf/dataflow/FlowGraph.java:172-191 | Every solution of the equations contains what some path reads before it writes it. |
| FlowGraph.FlowGraph.ComputeDefAndLiveUse | decaf_modified/decaf-dev/src/decaf/dataflow/BasicBlock.java:62-150 | liveUse is what the block reads first, def what it writes first, for every setting of the visit marks by other blocks. |
| FlowGraph.FlowGraph.AnalyzeLiveness | decaf_modified/decaf-dev/src/decaf/dataflow/FlowGraph.java:172-191 | Terminates with a solution of the equations in which a temporary is live iff some path of next[] edges reads it before writing it. |
| FlowGraph.Least | decaf_modified/decaf-dev/src/decaf/dataflow/FlowGraph.java:172-191 | It is the least solution. |
| FlowGraph.FlowGraph.AnalyzeBlock | decaf_modified/decaf-dev/src/decaf/dataflow/BasicBlock.java:152-217 | The set behind each instruction, and one more step back gives the liveIn of the block. |
| Vma.Mm.FindVma | ucore-thumips-2017summer/kern/mm/vmm.c:76-101 | With or without the cache, the first area that ends above the address. |
| Vma.Mm.InsertVma | ucore-thumips-2017summer/kern/mm/vmm.c:104-143 | Sorted and disjoint again, and none of the overlap assertions fails for an area that overlaps no other. |
| Vma.Mm.MmMap | ucore-thumips-2017summer/kern/mm/vmm.c:160-189 | Refuses iff the pages are no user range or overlap an area; otherwise inserts exactly that area. |
| Vma.Mm.UserMemCheck | ucore-thumips-2017summer/kern/mm/vmm.c:434-459 | True iff the range is a non-empty user range without overflow and every address of it may be read, or written outside the first page of a stack. |
| Divide.Remainder10 | ucore-thumips-2017summer/kern/include/thumips.h:29-38 | The estimate leaves a remainder from 0 to 15. |
| Divide.Divu10Exact | ucore-thumips-2017summer/kern/include/thumips.h:29-38 | The quotient is exact for every 32-bit number. |
| Divide.Divu5Exact | ucore-thumips-2017summer/kern/include/thumips.h:40-48 | The quotient is exact for every 32-bit number. |
| PrintNum.PrintNum | ucore-thumips-2017summer/kern/libs/printfmt.c:84-117 | Puts out padding and the digits, for every base from 1 to 16; other than in bases 8 and 10 the digits are those of base 16, as many as the comparison with the base asks for. |
| PrintNum.PrintedReads | ucore-thumips-2017summer/kern/libs/printfmt.c:84-117 | The output is as long as width or digits ask for, and reads back as the number; in bases 8, 10 and 16 without leading zeros. |
| Intrinsic.Divide | decaf_modified/tools/intrinsic.c:9-23 | The bit loop divides, and no number in it overflows. |
| Intrinsic.Div | decaf_modified/tools/intrinsic.c:9-23 | The quotient of division truncated toward zero, as section 6.5.5 of ISO/IEC 9899:1999 has it. |
| Intrinsic.Rem | decaf_modified/tools/intrinsic.c:25-39 | The remainder of that division. |
| Intrinsic.TruncatesOnce | decaf_modified/tools/intrinsic.c:9-39 | Quotient and remainder are unique, so the two functions fit together. |

## Left out

- Hardware: trap entry, TLB and control registers, context switch, console and disk drivers. schedule() is a change of the current process, the disk an array of blocks that never fails.
- Interrupts inside a step: they come between steps, also between a process putting itself to sleep and its call of schedule(); the few instructions between two assignments of one step are not split further.
- The idle process is taken never to block or be killed; exit codes, time slices, memory and files of a process are not part of the process model. A semaphore's history (who came, who was served, how many up()s) is recorded beside it for the statements.
- KernelMachine: the run queue is a sequence of process objects, the hash table of numbers a map, and wait queues and timers name processes by number; the timers are a list that changes as Timers.TimerList does, not an object of that class. The links run_link, list_link and hash_link are not fields of the objects.
- KernelRuns.Mutex: is stated for callers that call up() only while they hold the semaphore, which the kernel does not check.
- Timers and keyboard readers are known by their process; the keyboard buffer itself is not modelled.
- Slab and page allocation: AllocPages in Kmalloc is a first-fit search for a run of free pages that stands for the page allocator; it fails iff there is no such run, while the buddy allocator needs an aligned one. Interrupts between growing a cache and taking the object are not modelled.
- RbTree: the compare function is the comparison of an integer key; the search takes any function that is monotone along the order. Destroying a tree and the self tests are left out.
- Buddy: the index arithmetic with exclusive or and shifts is modelled by division and remainder; interrupt masking is left out.
- Bitmap: words are numbers below 2^32 and the mask operations are defined by recursion over their bits.
- SfsFile.Sfs.Io: is stated for writes that end within the direct and the single indirect tier, the only ones the disk inode has; locks and interleaved operations on different files are left out. The file system object keeps its free map as a sequence of bits; that the words of the bit map give the same is stated for the allocation alone.
- SfsFile.Sfs.Truncfile: after a cut to a length inside a block the rest of that block is not cleared, so nothing is said about these bytes when the file grows again.
- SFS directories, links, names and link counts, and writing back of inodes and super block by the kernel.
- InodeReclaim: hash buckets are one list; the blocks of an inode without links are not freed in this model; callers are taken to use an inode only through a reference.
- MkSfs.Image.constructor: an image too small for its own free map ends the tool and is excluded; the information text of the super block is not written.
- MkSfs.Image.AddData: files end with the single indirect tier, since the kernel's disk inode has no double indirect block; the tool goes on to 32768 blocks. Directory entries are blocks of 256 bytes like any other data; the walk over the host's directories is left out.
- PrintNum.PrintNum: bases from 1 to 16, as its comment demands; the formatter itself is left out.
- Intrinsic.Div: operands equal to the least integer and division by zero are excluded, since the code negates its operands.
- Liveness starts from the simplified graph; building and simplifying it, register allocation and code emission are left out.
- Vma: page tables, copying of address spaces and page faults; the check for kernel threads without an address space.
- Path lookup, ELF loading, system call plumbing, user programs, the Decaf front end and its virtual machine, scripts.
