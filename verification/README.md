# Verified models of the xv6 labs, the OSTEP exercises and the coroutine library

This project models, in Dafny, the parts of the repository whose correctness is not plain from the
code: the redo log over the buffer cache, copy-on-write fork over three-level page tables, the inode
layer, the virtio disk driver, the user-level memory allocator, sleep and wakeup under sleep-locks, a
reader-writer lock, a barrier, the shell's parser and the coroutine scheduler. Each is a model of the
code as it stands, with the properties proved for all inputs, all interleavings or all runs.

`dafny verify dfyconfig.toml` checks everything.

## How the parts fit

| files | what they model |
|---|---|
| `Options`, `Counting` | shared definitions |
| `Lists` | the intrusive ring of list.h, used by the buffer cache and the coroutine scheduler |
| `BufferCache` | bio.c: thirty buffers, an LRU ring, pins; the disk is a sequence of blocks, each `bwrite` one atomic step |
| `LogDisk` | what every prefix of the block writes of a commit or a recovery leaves on the disk |
| `Log` | log.c over the buffer cache, each function shown to write exactly those blocks in that order |
| `LogRuns`, `LogReservation`, `LogSafety`, `LogProgress` | the log as a state machine: any interleaving of operations, group commits and crashes, with the unlocked guard of `log_write` a step of its own; commits and recoveries end, and with what |
| `Cow`, `CowRuns`, `CowCopy`, `CowLeaks` | copy-on-write on a flat page table, beside the eager copy it replaces; what running out of memory does for good |
| `KfreeRace` | several processes in `kfree` at once |
| `PageTable`, `Physical`, `FreeTables`, `Vm` | kalloc.c and vm.c over frames that hold bytes, tables or free-list links, shown to do to the flat page table what `Cow` says |
| `DiskLayout`, `Inodes`, `FileBytes`, `InodeLayer` | fs.c over raw bytes: bitmap, on-disk inodes, indirect blocks, files as byte sequences; `filewrite`'s chunks |
| `Virtio`, `VirtioService`, `VirtioDriver` | virtio_disk.c: the protocol between requesters, device and interrupt handler, what a request comes to, and the driver's functions |
| `Umalloc` | umalloc.c |
| `SleepLock`, `RwLock`, `Barrier` | concurrent protocols as steps of any number of processes or threads |
| `Shell`, `ShellParser` | sh.c's language and its parser |
| `Coroutine` | the round-robin scheduler |

A frame, a block, a process is a number. Null pointers and error returns are `Option`s; where the
code panics, the method either returns `None` or `false` with the exact condition in its contract, or
has the negation of the panic's guard as a precondition, so that its callers are shown never to reach
it. What `sbrk`, user memory or the device would answer is a parameter.

## What the code does that its callers might not expect

Each of these is proved, with the exact condition.

- `log_write` looks at the length of the log before it takes the lock, so operations can pass the guard
  on the same length and both append. Operations within their budgets are crash safe in every
  interleaving if and only if `log.size > LOGSIZE` or `log.size == 1` (`LogSafety.SafetyIff`). On a log of
  2 to LOGSIZE blocks, and mkfs makes logs of exactly LOGSIZE, three of them can bring `commit` to write
  the home block behind the log before anything has committed (`LogSafety.OverrunReachable`).
- The guard also comes before the search for the block. Whatever the size of the log, operations within
  their budgets can run into the panic "too big a transaction" (`LogSafety.PanicReachable`). On a log of more
  than LOGSIZE blocks a call within the budget panics if and only if LOGSIZE blocks are logged, and then
  its block is one of them (`LogSafety.PanicExactly`); a panic for a block that is not logged yet is within
  reach if and only if `log.size <= LOGSIZE` (`LogSafety.NewBlockPanicIff`).
- A commit finds a buffer for the log if and only if the logged blocks and the buffers that other
  processes hold are fewer than NBUF (`Log.Log.Commit`). Operations within their budgets can log NBUF
  blocks (`LogSafety.AllBuffersPinned`).
- `copyout` ignores the result of the page-fault handler. With no memory left it writes into the shared
  frame; the outcome is right if and only if no one else maps the frame or nothing changes
  (`CowRuns.CopyoutOutOfMemory`). From boot, three steps lead to a `copyout` to one process that another
  one sees (`CowLeaks.CopyoutSeenByOther`).
- A failed `uvmcopy` leaves the frame of the page it failed at with one reference too many
  (`CowRuns.FailedForkOk`), and that frame is never free again (`CowLeaks.LeakedForEver`).
- `kfree` lowers the count and looks at it in two steps. A frame is put on the free list as often as it
  should be, in every interleaving, if and only if another reference stays or at most one process drops
  its own at the time (`KfreeRace.FreedRightIff`).
- `writei` sets `n` to -1 when a copy fails. As an unsigned number that is positive, so the size and
  the inode are still written: the bytes copied before the failure stay in the file
  (`InodeLayer.Fs.Writei`). `filewrite` then leaves the offset at the start of the failed chunk, before
  bytes that were stored (`InodeLayer.Fs.FileWrite`).

## Model

| member | source | states |
|---|---|---|
| Lists.RingUnique | Coroutine/list.h:8-42 | following `next` from a head determines the ring: two rings on the same links with the same head are equal |
| Lists.ListHeads.InitListHead | Coroutine/list.h:13-17 | the node becomes a ring of its own |
| Lists.ListHeads.ListAdd | Coroutine/list.h:19-25 | the ring gains the node right after the given position, both directions stay consistent, nodes off the ring keep their links |
| Lists.ListHeads.ListAppend | Coroutine/list.h:27-31 | the ring gains the node at its end |
| Lists.ListHeads.ListDel | Coroutine/list.h:33-37 | the ring loses exactly that node |
| Lists.ListHeads.ListEmpty | Coroutine/list.h:39-42 | true exactly when the ring is the head alone |
| BufferCache.Bcache.constructor | MIT-xv6/Lab Multithreading/kernel/bio.c:36-53 | every buffer is on the LRU ring once, unreferenced, and the cache agrees with the disk |
| BufferCache.Bcache.Lookup | MIT-xv6/Lab Multithreading/kernel/bio.c:64-72 | finds a buffer that holds the block if and only if there is one |
| BufferCache.Bcache.LeastRecentlyUsed | MIT-xv6/Lab Multithreading/kernel/bio.c:74-87 | the unreferenced buffer furthest from the head of the ring, or none exactly when all are referenced |
| BufferCache.Bcache.FindBuf | MIT-xv6/Lab Multithreading/kernel/bio.c:58-89 | the block's buffer, or the least recently used one recycled for it; no block looks different through the cache |
| BufferCache.Bcache.AcquireBuf | MIT-xv6/Lab Multithreading/kernel/bio.c:68-71 | the buffer is locked and nothing else changes |
| BufferCache.Bcache.Bread | MIT-xv6/Lab Multithreading/kernel/bio.c:92-103 | a locked buffer with the block's current contents, cached or from disk; fails exactly when the block is not cached and all buffers are referenced |
| BufferCache.Bcache.Bwrite | MIT-xv6/Lab Multithreading/kernel/bio.c:106-112 | one atomic block write, recorded as one crash point; no block looks different through the cache |
| BufferCache.Bcache.Brelse | MIT-xv6/Lab Multithreading/kernel/bio.c:116-137 | a buffer that agrees with the disk or is pinned is let go and, with its last reference, moves to the front of the ring; the cache stays coherent |
| BufferCache.Bcache.Bpin | MIT-xv6/Lab Multithreading/kernel/bio.c:139-144 | one more pin and one more reference; no block looks different through the cache |
| BufferCache.Bcache.Bunpin | MIT-xv6/Lab Multithreading/kernel/bio.c:146-151 | one pin and one reference fewer; no block looks different through the cache |
| BufferCache.CleanView | MIT-xv6/Lab Multithreading/kernel/bio.c:58-151 | a block whose buffer is neither locked nor pinned looks the same in the cache and on the disk |
| LogDisk.CommitBlocks | MIT-xv6/Lab Multithreading/kernel/log.c:178-203 | what each disk block holds after any number of the block writes of a commit |
| LogDisk.HeadPlace | MIT-xv6/Lab Multithreading/kernel/log.c:35-38 | the header block has the count in its first word and block number i in word i + 1 |
| LogDisk.CommitHead | MIT-xv6/Lab Multithreading/kernel/log.c:100-114 | the header on disk is the transaction exactly from the first header write to before the second |
| LogDisk.CommitAtomic | MIT-xv6/Lab Multithreading/kernel/log.c:193-203 | at every crash point of a commit, what recovery makes of the disk is all old up to the header write and all new from it on |
| LogDisk.CommitDone | MIT-xv6/Lab Multithreading/kernel/log.c:193-203 | a finished commit leaves the logged blocks home and the log empty |
| LogDisk.RecoverStable | MIT-xv6/Lab Multithreading/kernel/log.c:116-123 | stopping recovery after any of its writes does not change what recovery would make of the disk |
| LogDisk.CrashesHarmless | MIT-xv6/Lab Multithreading/kernel/log.c:116-123 | the same for any number of crashes inside recovery |
| LogDisk.CrashAtomicity | MIT-xv6/Lab Multithreading/kernel/log.c:68-123 | for every transaction, every crash point of its commit and any sequence of crashes during recovery: finishing recovery leaves the home blocks all old or all new, and all new exactly when the header write had reached the disk |
| LogDisk.InstallInCommit | MIT-xv6/Lab Multithreading/kernel/log.c:68-83 | installing after the header write makes exactly the remaining block writes of the commit |
| LogDisk.CommitRecovers | MIT-xv6/Lab Multithreading/kernel/log.c:193-203 | every disk that a commit passes through recovers to the old home blocks, up to the header write, or to the new ones, from it on |
| LogDisk.RecoveryKeeps | MIT-xv6/Lab Multithreading/kernel/log.c:116-123 | every disk that a recovery passes through recovers to the same |
| Log.Log.WriteLog | MIT-xv6/Lab Multithreading/kernel/log.c:178-191 | makes exactly the first block writes of a commit, in order; with something logged, fails exactly when pins and other processes leave no buffer |
| Log.Log.WriteHead | MIT-xv6/Lab Multithreading/kernel/log.c:102-114 | one block write, of the header block; what other processes hold is untouched |
| Log.Log.InstallTrans | MIT-xv6/Lab Multithreading/kernel/log.c:68-83 | one block write for each logged block, unpinning when it is not recovery; what other processes hold is untouched |
| Log.Log.Commit | MIT-xv6/Lab Multithreading/kernel/log.c:193-203 | the disk goes through exactly the crash points of a commit and ends with the blocks home; with something logged, succeeds if and only if the logged blocks and the buffers that other processes hold are fewer than NBUF |
| Log.Log.RecoverFromLog | MIT-xv6/Lab Multithreading/kernel/log.c:116-123 | the disk goes through exactly the crash points of a recovery, each of which recovers to the same, and ends recovered |
| Log.Log.BeginOp | MIT-xv6/Lab Multithreading/kernel/log.c:126-142 | admits the operation exactly when no commit is in progress and its budget fits |
| Log.Log.LogWrite | MIT-xv6/Lab Multithreading/kernel/log.c:214-235 | adds the block to the transaction once and pins it; panics exactly when the log is full or no operation is outstanding |
| Log.Log.EndOp | MIT-xv6/Lab Multithreading/kernel/log.c:146-175 | the last operation out commits: the disk becomes what was in the cache, and every disk on the way recovers to the old blocks up to the header write and to the new ones from it on |
| Log.Log.Fetch | MIT-xv6/Lab Multithreading/kernel/bio.c:92-103 | bread by any process keeps every logged block pinned and cached |
| Log.Log.Change | MIT-xv6/Lab Multithreading/kernel/log.c:209-213 | a change of a locked buffer keeps every logged block pinned and cached |
| Log.Log.Release | MIT-xv6/Lab Multithreading/kernel/bio.c:116-137 | so does brelse of a logged block or of one that was only read |
| Log.Log.Update | MIT-xv6/Lab Multithreading/kernel/log.c:209-235 | bread, change, log_write, brelse: the processes see the change, the buffer keeps only its pin; panics exactly when no buffer is free for the block or the guard of log_write refuses |
| Log.Log.Operation | MIT-xv6/Lab Multithreading/kernel/log.c:126-175 | begin_op, changes, end_op beside other operations and readers: it is admitted exactly under the guards of begin_op; then it succeeds if the guard of log_write lets each change through and a buffer is left, and only if the guard does; the last one out leaves all changes on the disk, and every disk on the way recovers to all of them or to none |
| Log.BudgetRoom | MIT-xv6/Lab Multithreading/kernel/log.c:126-142 | an admitted operation that changes at most MAXOPBLOCKS distinct blocks, however often, is let through by a log of more than 21 blocks |
| Log.FreeBuffers | MIT-xv6/Lab Multithreading/kernel/bio.c:74-89 | the pinned blocks and the processes leave a buffer free if and only if there are fewer than NBUF of both together |
| LogRuns.InvNext | MIT-xv6/Lab Multithreading/kernel/log.c:126-235 | every step of operations, commit, crash or recovery keeps the invariant as long as what is logged fits the log |
| LogReservation.Reservation | MIT-xv6/Lab Multithreading/kernel/log.c:126-142 | logged blocks and unused budgets together never exceed LOGSIZE, in any interleaving and whatever the size of the log |
| LogSafety.RunInv | MIT-xv6/Lab Multithreading/kernel/log.c:126-235 | what every state of every interleaving keeps, with the guard of log_write and its append two steps, for budgeted operations on a log of more than LOGSIZE blocks or of the header alone |
| LogSafety.RunMonotone | MIT-xv6/Lab Multithreading/kernel/log.c:146-203 | committed operations stay committed and lost ones lost, in every run on every log |
| LogSafety.CrashSafety | MIT-xv6/Lab Multithreading/kernel/log.c:126-235 | in every state of every such run the recovered disk is the effect of exactly the committed operations, in order; operations in progress are never partly on disk; with none in progress the cache shows the same |
| LogSafety.OverrunReachable | MIT-xv6/Lab Multithreading/kernel/log.c:178-235 | on a log of 2 to LOGSIZE blocks, a run within the budgets in which commit changes the block behind the log before anything has committed |
| LogSafety.SafetyIff | MIT-xv6/Lab Multithreading/kernel/log.c:214-235 | runs within the budgets are durable in every state if and only if the log has more than LOGSIZE blocks or only its header |
| LogSafety.NoPanic | MIT-xv6/Lab Multithreading/kernel/log.c:214-235 | on a log of more than LOGSIZE blocks no call within its operation's budget panics for a block that is not logged yet |
| LogSafety.PanicExactly | MIT-xv6/Lab Multithreading/kernel/log.c:214-235 | on such a log a call within the budget panics if and only if LOGSIZE blocks are logged, and then its block is one of them |
| LogSafety.PanicReachable | MIT-xv6/Lab Multithreading/kernel/log.c:214-235 | on a log of any size a run within the budgets ends in the panic |
| LogSafety.NewBlockPanicIff | MIT-xv6/Lab Multithreading/kernel/log.c:214-235 | one for a block that is not logged yet if and only if the log has at most LOGSIZE blocks |
| LogSafety.AllBuffersPinned | MIT-xv6/Lab Multithreading/kernel/log.c:146-203 | on a log of more than LOGSIZE blocks, a run within the budgets in which commit starts with NBUF blocks logged |
| LogProgress.CommitEnds | MIT-xv6/Lab Multithreading/kernel/log.c:146-203 | from every state in the middle of a commit there is a run of exactly the block writes that are left, after which the operations of the group count as committed, the log is empty and the home blocks are what the processes saw |
| LogProgress.RecoveryEnds | MIT-xv6/Lab Multithreading/kernel/log.c:116-123 | from every state in the middle of a recovery there is a run of exactly the block writes that are left, after which the disk and the cache hold the effect of the committed operations |
| LogProgress.CrashEnds | MIT-xv6/Lab Multithreading/kernel/log.c:116-123 | from every state, whatever is in progress, a crash and the boot after it lead to a running system with exactly the committed operations on the disk and the others lost |
| LogProgress.OperationEnds | MIT-xv6/Lab Multithreading/kernel/log.c:126-235 | with no operation outstanding, a new one with at most MAXOPBLOCKS writes that the log has room for can begin, make them, end and commit; then exactly its writes have been added to the home blocks |
| Cow.UnmapOk | MIT-xv6/Lab Copy-on-Write/kernel/vm.c:211-234 | unmapping a page removes that page from the views and nothing else, and the references owed beside the mappings stay the same |
| Cow.KallocOk | MIT-xv6/Lab Copy-on-Write/kernel/kalloc.c:104-120 | a new frame is mapped by no one and changes no view |
| Cow.MapOk | MIT-xv6/Lab Copy-on-Write/kernel/vm.c:186-206 | mapping a counted frame adds exactly that page to the views and keeps the sharing rules |
| CowRuns.FaultOk | MIT-xv6/Lab Copy-on-Write/kernel/vm.c:116-150 | the handler changes no view; afterwards the page has a frame of its own, writable |
| CowRuns.ForkOk | MIT-xv6/Lab Copy-on-Write/kernel/vm.c:347-374 | either form of fork, copying or sharing, gives the child the parent's view of each page and changes no other view |
| CowRuns.SpecForkIs | MIT-xv6/Lab Copy-on-Write/kernel/vm.c:341-346 | what a fork means, page by page: the child sees what the parent sees and nothing else changes |
| CowRuns.ForkEntries | MIT-xv6/Lab Copy-on-Write/kernel/vm.c:347-374 | after either fork, parent and child have the rights the parent had in each page; shared, one frame that neither entry lets them write, both marked copy-on-write; copied, the parent's entry as it was and another frame for the child |
| CowRuns.ViewShows | MIT-xv6/Lab Copy-on-Write/kernel/riscv.h:331-340 | what a view shows of a page: the bytes of its frame and the rights in its entry, copy-on-write as writable |
| CowRuns.FailedForkOk | MIT-xv6/Lab Copy-on-Write/kernel/vm.c:347-374 | a fork that fails changes no view, and the frame of the page it failed at, still in use, has exactly one reference that no mapping accounts for |
| CowLeaks.StepExcess | MIT-xv6/Lab Copy-on-Write/kernel/kalloc.c:45-120 | no step, with memory or without, gives back a reference that no mapping accounts for |
| CowLeaks.LeakedForEver | MIT-xv6/Lab Copy-on-Write/kernel/vm.c:347-374 | whatever happens after a failed fork, that frame keeps the reference and is never on the free list |
| CowLeaks.CopyoutSeenByOther | MIT-xv6/Lab Copy-on-Write/kernel/vm.c:392-420 | from boot with any free list, a run after which copyout to one process changes what another one sees |
| KfreeRace.NeitherEarlyNorLost | MIT-xv6/Lab Copy-on-Write/kernel/kalloc.c:78-99 | in every interleaving of concurrent kfrees a frame still referenced is not freed, and one that is not is freed at least once |
| KfreeRace.FreedRightIff | MIT-xv6/Lab Copy-on-Write/kernel/kalloc.c:52-99 | it is freed exactly as often as it should be, in every interleaving, if and only if another reference stays or at most one process drops its own |
| CowRuns.StoreOk | MIT-xv6/Lab Copy-on-Write/kernel/vm.c:116-150 | a user store changes the views as a plain write would, when there is memory for the page fault, if it causes one |
| CowRuns.CopyoutOk | MIT-xv6/Lab Copy-on-Write/kernel/vm.c:392-420 | so does copyout, when there is memory where it asks for some, no one else maps the frame, or nothing changes |
| CowRuns.WritesBytes | MIT-xv6/Lab Copy-on-Write/kernel/vm.c:392-420 | after a store or a copyout to a user page, the bytes from the offset on are the data, every other byte of the page, its rights and every other page are as before |
| CowRuns.WritesSafe | MIT-xv6/Lab Copy-on-Write/kernel/vm.c:392-420 | with memory or without, neither breaks the invariant or the counts |
| CowRuns.FailedCopyOk | MIT-xv6/Lab Multithreading/kernel/vm.c:285-313 | a fork that copies and runs out of memory changes no view and keeps the counts exact |
| CowRuns.CopyoutOutOfMemory | MIT-xv6/Lab Copy-on-Write/kernel/vm.c:392-420 | without memory, copyout to a shared page is right if and only if no one else maps the frame or the bytes there are the data already |
| CowRuns.GrowOk | MIT-xv6/Lab Copy-on-Write/kernel/vm.c:267-291 | growing by a page adds a zeroed page to the views and nothing else |
| CowRuns.StepOk | MIT-xv6/Lab Copy-on-Write/kernel/vm.c:116-420 | every step with memory where it is needed does to the views what the specification does |
| CowRuns.StepSafe | MIT-xv6/Lab Copy-on-Write/kernel/kalloc.c:45-120 | every step, with memory or without, keeps the invariant, and the counts exact but for a failed fork that shares |
| CowRuns.RunSafe | MIT-xv6/Lab Copy-on-Write/kernel/kalloc.c:45-120 | so does every run, with memory or without |
| CowRuns.RunRefines | MIT-xv6/Lab Copy-on-Write/kernel/vm.c:116-420 | every run, copy-on-write or eager, in which kalloc succeeds where it is needed shows what the specification shows for its visible actions |
| CowRuns.InvMeans | MIT-xv6/Lab Copy-on-Write/kernel/kalloc.c:45-120 | a mapped frame is not free, is counted at least once for each mapping, and has one mapping if writable |
| CowRuns.ReachableSafe | MIT-xv6/Lab Copy-on-Write/kernel/kalloc.c:45-120 | the invariant in every state of every run from boot, whether memory runs out or not; counts equal mappings when no sharing fork has failed |
| CowRuns.CowRefinesEager | MIT-xv6/Lab Multithreading/kernel/vm.c:285-313 | runs of the copy-on-write kernel and of the eager one with the same visible actions, in which kalloc succeeds where it is needed, show every process the same memory |
| CowCopy.CopyoutRefines | MIT-xv6/Lab Copy-on-Write/kernel/vm.c:392-420 | copyout across pages does to the views what a plain copy would, as long as each page has memory or goes right without |
| CowCopy.EnoughFrames | MIT-xv6/Lab Copy-on-Write/kernel/vm.c:392-420 | a free frame for each page touched is enough for that |
| CowCopy.CopyinRefines | MIT-xv6/Lab Copy-on-Write/kernel/vm.c:425-445 | copyin reads what the views hold, or fails at the first page that is not a user page |
| CowCopy.CopyoutAway | MIT-xv6/Lab Copy-on-Write/kernel/vm.c:392-420 | copyout changes no page below its start and no other space |
| CowCopy.CopyRoundTrip | MIT-xv6/Lab Copy-on-Write/kernel/vm.c:392-445 | what copyout wrote, copyin reads back |
| CowCopy.CopyoutBytes | MIT-xv6/Lab Copy-on-Write/kernel/vm.c:392-420 | copyout on the views, address by address: byte i of the source is at va + i, up to a page that is not a user's, and no other byte, right or space has changed |
| CowCopy.CopyoutMeans | MIT-xv6/Lab Copy-on-Write/kernel/vm.c:392-420 | it succeeds if and only if every address of the range is in a user page below MAXVA, and then all the bytes are there |
| CowCopy.CopyinMeans | MIT-xv6/Lab Copy-on-Write/kernel/vm.c:425-445 | copyin succeeds under the same condition, and returns the byte at va + i as byte i |
| CowCopy.PagesTouchedIs | MIT-xv6/Lab Copy-on-Write/kernel/vm.c:392-420 | the number of pages that copyout asks memory for is that of the pages from the first address to the last |
| CowCopy.CopyoutAllMeans | MIT-xv6/Lab Copy-on-Write/kernel/vm.c:392-420 | the same for copyout on the machine: exactly when it succeeds, and which bytes the views then show |
| CowCopy.CopyinAllMeans | MIT-xv6/Lab Copy-on-Write/kernel/vm.c:425-445 | the same for copyin on the machine |
| PageTable.SetLeafPt | MIT-xv6/Lab Copy-on-Write/kernel/vm.c:186-206 | storing a leaf entry changes the page map at that page and nowhere else |
| PageTable.SetLeafOk | MIT-xv6/Lab Copy-on-Write/kernel/vm.c:186-206 | and every leaf still maps a page in use |
| PageTable.NewTablePt | MIT-xv6/Lab Copy-on-Write/kernel/vm.c:71-90 | hanging an empty table from an entry changes no mapping |
| PageTable.PathChild | MIT-xv6/Lab Copy-on-Write/kernel/vm.c:60-70 | the index taken from an address at each level leads to the child on the address's path |
| PageTable.LeavesWithout | MIT-xv6/Lab Copy-on-Write/kernel/vm.c:211-234 | a frame that no leaf maps can be given up |
| Physical.NewRootOk | MIT-xv6/Lab Copy-on-Write/kernel/vm.c:238-247 | a zeroed page as a new top table changes no mapping, and its space has none |
| FreeTables.KeptStep | MIT-xv6/Lab Copy-on-Write/kernel/vm.c:313-329 | the subtree of a slot is what one turn of the loop of freewalk removes |
| FreeTables.DroppedOk | MIT-xv6/Lab Copy-on-Write/kernel/vm.c:313-329 | freeing a table that points at nothing leaves one dangling entry and changes no mapping |
| Vm.Vm.Kalloc | MIT-xv6/Lab Copy-on-Write/kernel/kalloc.c:104-120 | pops the linked free list, or fails exactly when it is empty |
| Vm.Vm.Kfree | MIT-xv6/Lab Copy-on-Write/kernel/kalloc.c:78-99 | the count drops by one; at zero the frame goes to the front of the free list |
| Vm.Vm.Freerange | MIT-xv6/Lab Copy-on-Write/kernel/kalloc.c:36-43 | afterwards the free list holds every frame once |
| Vm.Vm.Walk | MIT-xv6/Lab Copy-on-Write/kernel/vm.c:71-90 | finds the entry for the address, adding tables if asked, each for one frame; asked to add, it fails exactly when the address is out of range or there are fewer frames than tables missing; addresses from 1 << 38 on are out of range; no mapping changes |
| Vm.Vm.Lookup | MIT-xv6/Lab Copy-on-Write/kernel/vm.c:71-90 | without allocation: fails exactly when the address is 1 << 38 or more or the lowest table is missing, and changes nothing |
| Vm.Vm.WalkAddr | MIT-xv6/Lab Copy-on-Write/kernel/vm.c:95-113 | the frame of a mapped user page, and only of one |
| Vm.Vm.MapLoop | MIT-xv6/Lab Copy-on-Write/kernel/vm.c:186-206 | the loop over pages, with as many mapped as were reached when it stopped; it ends if and only if the range is within bounds and there is a frame for each table missing on the way |
| Vm.Vm.MapPages | MIT-xv6/Lab Copy-on-Write/kernel/vm.c:186-206 | adds exactly the pages of its range to the page map; when it fails, exactly those before the page it failed at; succeeds if and only if the range is within bounds and there is a frame for each table missing on the way |
| Vm.Vm.UvmUnmap | MIT-xv6/Lab Copy-on-Write/kernel/vm.c:211-234 | removes exactly its range from the page map, dropping a reference for each page if asked |
| Vm.Vm.UvmCreate | MIT-xv6/Lab Copy-on-Write/kernel/vm.c:238-247 | a new space without pages; no view changes |
| Vm.Vm.UvmAlloc | MIT-xv6/Lab Copy-on-Write/kernel/vm.c:267-291 | adds zeroed pages up to the new size, or changes no view at all; succeeds if and only if there is a free frame for each new page and each table missing on the way |
| Vm.PageNeeded | MIT-xv6/Lab Copy-on-Write/kernel/riscv.h:326-327 | a size of sz bytes takes page i if and only if the first byte of the page is below sz |
| Vm.Vm.UvmDealloc | MIT-xv6/Lab Copy-on-Write/kernel/vm.c:297-309 | removes exactly the pages beyond the new size |
| Vm.Vm.FreeWalk | MIT-xv6/Lab Copy-on-Write/kernel/vm.c:313-329 | returns exactly the tables of the subtree to the free list and changes no mapping and no other table |
| Vm.Vm.UvmFree | MIT-xv6/Lab Copy-on-Write/kernel/vm.c:333-339 | the space's pages and tables are gone, the free list has gained exactly them and the frames no one else maps, other spaces are untouched |
| Vm.Vm.PgfaultHandler | MIT-xv6/Lab Copy-on-Write/kernel/vm.c:116-150 | on a user's copy-on-write page with memory to spare, what the flat machine's fault does; in all other cases it refuses and changes nothing |
| Vm.Vm.RefCntIncr | MIT-xv6/Lab Copy-on-Write/kernel/kalloc.c:60-66 | one more reference to the frame |
| Vm.Vm.UvmCopy | MIT-xv6/Lab Copy-on-Write/kernel/vm.c:347-374 | shares the parent's pages with the child as the flat fork does; on failure the views are as before; succeeds if and only if there is a frame for each of the child's tables that is missing |
| Vm.Vm.Copyout | MIT-xv6/Lab Copy-on-Write/kernel/vm.c:392-420 | does to the flat machine what the page-by-page copy says, including when memory runs out; succeeds if and only if the whole range is in user pages; with memory where it is needed, byte i of the source is then at address dstva + i in the views and nothing else has changed |
| Vm.Vm.Copyin | MIT-xv6/Lab Copy-on-Write/kernel/vm.c:425-445 | returns what the page-by-page copy says and changes nothing; succeeds if and only if the whole range is in user pages, and then byte i is the one the views hold at srcva + i |
| DiskLayout.WordAfter | MIT-xv6/Lab Multithreading/kernel/fs.h:29-47 | a stored word is read back and all other words of the block keep their value |
| DiskLayout.InodePlace | MIT-xv6/Lab Multithreading/kernel/fs.h:41-45 | inode j lies 64 * j bytes behind the start of the inode blocks |
| DiskLayout.BitPlace | MIT-xv6/Lab Multithreading/kernel/fs.h:47-51 | the bit for block b is bit number b behind the start of the bitmap |
| DiskLayout.BitInByte | MIT-xv6/Lab Multithreading/kernel/fs.c:72-75 | in its block it is bit bi % 8 of byte bi / 8, the low bits first |
| DiskLayout.DinodePlace | MIT-xv6/Lab Multithreading/kernel/fs.h:31-39 | where type, major, minor, nlink, size and the thirteen addresses lie in the 64 bytes of an inode, low bytes first |
| DiskLayout.BitAfter | MIT-xv6/Lab Multithreading/kernel/fs.c:64-103 | setting or clearing a bitmap bit changes that bit alone |
| DiskLayout.DinodeAfter | MIT-xv6/Lab Multithreading/kernel/fs.c:221-237 | an inode stored in its slot is read back, and the block's other inodes are unchanged |
| Inodes.OwnedOnce | MIT-xv6/Lab Multithreading/kernel/fs.c:64-103 | the bitmap marks a data block exactly when a slot names it, and never do two |
| Inodes.MarkOk | MIT-xv6/Lab Multithreading/kernel/fs.c:64-86 | marking a free block changes no slot and no file |
| Inodes.UnmarkOk | MIT-xv6/Lab Multithreading/kernel/fs.c:89-103 | clearing the mark of a block that no slot names changes no slot and no file |
| Inodes.AttachOk | MIT-xv6/Lab Multithreading/kernel/fs.c:377-387 | putting a fresh block in an empty direct or indirect slot changes no byte of any file |
| Inodes.AttachEntryOk | MIT-xv6/Lab Multithreading/kernel/fs.c:389-402 | the same for an entry of an indirect block |
| Inodes.WriteOk | MIT-xv6/Lab Multithreading/kernel/fs.c:494-504 | writing a block of a file changes that block of that file and nothing else |
| Inodes.SaveOk | MIT-xv6/Lab Multithreading/kernel/fs.c:221-237 | writing an inode to disk changes nothing else and brings the disk up to date with it |
| Inodes.EntriesApart | MIT-xv6/Lab Multithreading/kernel/fs.c:422-432 | no block is named twice by an indirect block, nor by it and its pointer |
| Inodes.FormattedOk | MIT-xv6/Lab Multithreading/kernel/fs.h:8-25 | a disk with no inode in use and only the blocks before the data marked satisfies the invariant |
| FileBytes.StoredReadsBack | MIT-xv6/Lab Multithreading/kernel/fs.c:455-516 | after a write the range holds what was written, everything else in the file is as before, and the length is the larger of the two |
| FileBytes.BytePlace | MIT-xv6/Lab Multithreading/kernel/fs.c:377-405 | byte x of a file is byte x % 1024 of the block that address x / 1024 of the inode names, or word x / 1024 - 12 of the indirect block from the thirteenth block on; where no block is named it is zero |
| FileBytes.StoredTwice | MIT-xv6/Lab Multithreading/kernel/file.c:155-175 | two writes, one after the other, are one write of both |
| InodeLayer.Fs.constructor | MIT-xv6/Lab Multithreading/kernel/fs.c:30-47 | a disk whose every block is accounted for, with no inode in memory |
| InodeLayer.Fs.Balloc | MIT-xv6/Lab Multithreading/kernel/fs.c:64-86 | marks the first block that was free and zeroes it, no file changes; fails exactly when every block is marked |
| InodeLayer.Fs.Bfree | MIT-xv6/Lab Multithreading/kernel/fs.c:89-103 | clears the mark of a marked block |
| InodeLayer.Fs.Bmap | MIT-xv6/Lab Multithreading/kernel/fs.c:377-405 | the file's block, allocated first if missing; an existing block changes nothing, a new one changes no byte of any file; panics only with every block marked |
| InodeLayer.Fs.Iupdate | MIT-xv6/Lab Multithreading/kernel/fs.c:221-237 | brings the disk up to date with the inode in memory |
| InodeLayer.Fs.Itrunc | MIT-xv6/Lab Multithreading/kernel/fs.c:409-437 | frees exactly the inode's blocks, never a free one, and leaves an empty file; other files and their blocks are untouched |
| InodeLayer.Fs.Ilock | MIT-xv6/Lab Multithreading/kernel/fs.c:288-313 | the inode in memory is the one on disk |
| InodeLayer.Fs.Ialloc | MIT-xv6/Lab Multithreading/kernel/fs.c:195-215 | the first free inode becomes an empty one of the given type; no file changes |
| InodeLayer.Fs.Iget | MIT-xv6/Lab Multithreading/kernel/fs.c:242-272 | one more reference to the inode and to no other, in the slot that has it or in a free one with nothing valid; panics exactly when no slot has it and all fifty are in use; no inode is in two slots |
| InodeLayer.Fs.Idup | MIT-xv6/Lab Multithreading/kernel/fs.c:276-283 | one more reference to the inode and to no other |
| InodeLayer.Fs.Iput | MIT-xv6/Lab Multithreading/kernel/fs.c:332-358 | one reference fewer to the inode and to no other; with the last one to a valid inode without links, its blocks and the inode are freed and the other inodes and their blocks are untouched; otherwise no inode changes |
| InodeLayer.Fs.Readi | MIT-xv6/Lab Multithreading/kernel/fs.c:455-477 | returns the slice of the file's bytes, never allocates and changes nothing; -1 exactly when the copy out fails before the end |
| InodeLayer.Fs.Writei | MIT-xv6/Lab Multithreading/kernel/fs.c:483-516 | on success the bytes are spliced in at the offset, extending the file if need be; after a failed copy exactly the bytes before it are; other files are unchanged and every block stays owned by one slot |
| InodeLayer.LoggedFew | MIT-xv6/Lab Multithreading/kernel/file.c:148-155 | a write to n blocks of a file logs at most n + 3 blocks when one bitmap block covers the disk |
| InodeLayer.BlockEndIs | MIT-xv6/Lab Multithreading/kernel/fs.c:494-504 | which blocks a write up to byte n can touch: those that hold one of the first n bytes |
| InodeLayer.Fs.WriteOp | MIT-xv6/Lab Multithreading/kernel/file.c:157-166 | one chunk of filewrite, of at most 3072 bytes, stores its bytes up to where the copy in fails, panics only with every block marked, and, on a disk that one bitmap block covers, logs at most seven blocks, within MAXOPBLOCKS |
| InodeLayer.Fs.FileWrite | MIT-xv6/Lab Multithreading/kernel/file.c:148-175 | the bytes stored are a prefix of what was asked, all of it when memory, size and disk allow, else up to less than a block before the copy in fails or less than a chunk before the largest size, and the result is -1; the panic of balloc comes only with every block marked; the offset moves by whole chunks only, so after a failure it can lie before the end of what was stored; a short chunk, the panic, cannot happen |
| Virtio.SubmitOk | MIT-xv6/Lab Multithreading/kernel/virtio_disk.c:203-266 | publishing a chain keeps the invariant: descriptors, rings, places, marks and sleepers |
| Virtio.FinishOk | MIT-xv6/Lab Multithreading/kernel/virtio_disk.c:268-280 | freeing a chain keeps the invariant |
| Virtio.CompleteMoves | MIT-xv6/Lab Multithreading/kernel/virtio_disk.c:225-250 | following the descriptors as far as their flags link them, writing to memory only where they allow it, the device moves exactly the data asked for, between the buffer and the sector asked for, and reports status zero |
| Virtio.NextOk | MIT-xv6/Lab Multithreading/kernel/virtio_disk.c:203-315 | every step of requesters, device and handler keeps the invariant |
| Virtio.RunInv | MIT-xv6/Lab Multithreading/kernel/virtio_disk.c:203-315 | it holds in every state of every interleaving |
| Virtio.ExactlyOnce | MIT-xv6/Lab Multithreading/kernel/virtio_disk.c:252-259 | in every run the device takes each published chain once and in order and the handler consumes each completion once and in order, whatever the 16-bit indices wrap to |
| Virtio.OwnCompletion | MIT-xv6/Lab Multithreading/kernel/virtio_disk.c:263-272 | between a request's submission and the moment its requester next goes on, the requester's record stays the same, the device completed that very chain and the handler consumed that very completion |
| Virtio.FinishOwn | MIT-xv6/Lab Multithreading/kernel/virtio_disk.c:263-269 | a requester's buffer is done if and only if its own chain has been consumed |
| Virtio.DescriptorsShared | MIT-xv6/Lab Multithreading/kernel/virtio_disk.c:144-201 | each descriptor is free or in exactly one chain |
| Virtio.FreeDescOk | MIT-xv6/Lab Multithreading/kernel/virtio_disk.c:157-170 | the chain that is freed has no free descriptor in it, so free_desc never panics |
| Virtio.ConsumesHead | MIT-xv6/Lab Multithreading/kernel/virtio_disk.c:297-312 | the handler meets the oldest completion, of a request in flight, with status zero |
| Virtio.NoDeadlock | MIT-xv6/Lab Multithreading/kernel/virtio_disk.c:214-266 | when every requester sleeps, the device or the handler can move |
| Virtio.InitOk | MIT-xv6/Lab Multithreading/kernel/virtio_disk.c:76-141 | the state after initialisation satisfies the invariant |
| VirtioService.Delivered | MIT-xv6/Lab Multithreading/kernel/virtio_disk.c:203-272 | in every run, between a request's submission and the moment its requester goes on there is a moment at which a write puts what the buffer held at the submission in the sector asked for, or at which the sector asked for held what the requester of a read then finds in the buffer |
| VirtioService.AllServed | MIT-xv6/Lab Multithreading/kernel/virtio_disk.c:203-315 | from every state there is a run without new requests, of at most five steps for each one that is there, after which all have been served |
| VirtioService.NewcomerServed | MIT-xv6/Lab Multithreading/kernel/virtio_disk.c:203-315 | from every state, anyone without a request can come with a buffer that is not in use, and be served |
| VirtioDriver.Driver.AllocDesc | MIT-xv6/Lab Multithreading/kernel/virtio_disk.c:144-154 | the lowest free descriptor, or none exactly when none is free |
| VirtioDriver.Driver.FreeDesc | MIT-xv6/Lab Multithreading/kernel/virtio_disk.c:157-170 | the descriptor is clear and free |
| VirtioDriver.Driver.FreeChain | MIT-xv6/Lab Multithreading/kernel/virtio_disk.c:173-185 | follows the links and frees exactly the chain |
| VirtioDriver.Driver.Alloc3Desc | MIT-xv6/Lab Multithreading/kernel/virtio_disk.c:189-201 | the three lowest free descriptors, or none and everything as before |
| VirtioDriver.Driver.Publish | MIT-xv6/Lab Multithreading/kernel/virtio_disk.c:221-259 | formats the chain and publishes it as the protocol's step does |
| VirtioDriver.Driver.Retire | MIT-xv6/Lab Multithreading/kernel/virtio_disk.c:268-280 | frees the chain as the protocol's step does |
| VirtioDriver.Driver.Intr | MIT-xv6/Lab Multithreading/kernel/virtio_disk.c:282-315 | consumes all completions, across the wrap of the index, or panics at the first that carries an error, and does so exactly when one does |
| VirtioDriver.HandlerReady | MIT-xv6/Lab Multithreading/kernel/virtio_disk.c:297-312 | in every state that the protocol allows, the completions the handler has to look at are those of requests, and none carries an error |
| VirtioDriver.RetireReady | MIT-xv6/Lab Multithreading/kernel/virtio_disk.c:173-185 | in every such state, a waiting request's descriptors are linked and in use as freeing them asks |
| Umalloc.Allocator.Free | MIT-xv6/Lab Multithreading/user/umalloc.c:24-44 | the ring stays in address order with no two blocks adjacent, every unit stays in exactly one block, and exactly that block stops being handed out; the search ends |
| Umalloc.Allocator.Morecore | MIT-xv6/Lab Multithreading/user/umalloc.c:46-61 | asks for at least 4096 units, adds exactly the granted units to the free blocks, and the block before or after freep is then large enough |
| Umalloc.Allocator.Scan | MIT-xv6/Lab Multithreading/user/umalloc.c:72-87 | one round finds a block exactly when one is large enough, and then the first one from freep on |
| Umalloc.Allocator.Take | MIT-xv6/Lab Multithreading/user/umalloc.c:73-83 | hands out a block of exactly the units asked for, the end of the free block it was taken from, and nothing else |
| Umalloc.Allocator.Malloc | MIT-xv6/Lab Multithreading/user/umalloc.c:63-90 | hands out a block of a header and room for the bytes asked for, in units of sixteen and not one too many, disjoint from all others; it is the end of the first free block from freep on that is large enough, if there is one, and then morecore is not called; otherwise it is called once, for at least 4096 units; fails only if that call fails |
| Umalloc.JoinUpOk | MIT-xv6/Lab Multithreading/user/umalloc.c:32-36 | joining with the block above keeps the heap well formed and every unit accounted for |
| Umalloc.JoinDownOk | MIT-xv6/Lab Multithreading/user/umalloc.c:37-42 | so does joining with the block below |
| Umalloc.LinkInOk | MIT-xv6/Lab Multithreading/user/umalloc.c:35-42 | and linking in a block that touches neither |
| Umalloc.SearchStops | MIT-xv6/Lab Multithreading/user/umalloc.c:29-31 | the search of free stops at the block before the one freed and nowhere else |
| Umalloc.UnitsConserved | MIT-xv6/Lab Multithreading/user/umalloc.c:24-90 | free and handed-out blocks share the heap among them: every unit is in exactly one |
| SleepLock.NextOk | MIT-xv6/Lab Multithreading/kernel/proc.c:555-601 | every step keeps the invariant, with kill waking sleepers at any time |
| SleepLock.MutualExclusion | MIT-xv6/Lab Multithreading/kernel/sleeplock.c:21-41 | in every state of every run at most one process has the lock, the one lk->pid names |
| SleepLock.NoLostWakeup | MIT-xv6/Lab Multithreading/kernel/proc.c:555-601 | in every state of every run, when a process sleeps on the lock, the lock is held or a wakeup's scan has still to pass that process |
| SleepLock.NoDeadlock | MIT-xv6/Lab Multithreading/kernel/sleeplock.c:21-41 | as long as a process is not idle, one of those can go on |
| SleepLock.GetsLock | MIT-xv6/Lab Multithreading/kernel/sleeplock.c:21-41 | in every run, between leaving its idle state and coming back to it a process has had the lock to itself |
| SleepLock.LockReachable | MIT-xv6/Lab Multithreading/kernel/sleeplock.c:21-30 | any of any number of processes can get the lock, in five steps when it is free |
| SleepLock.KilledGoesOn | MIT-xv6/Lab Multithreading/kernel/proc.c:618-640 | in every state of every run, a sleeper whose lock is free can be killed and then goes on, whether or not the sleep-lock has been released |
| RwLock.NextOk | OSTEP/Chapter31/reader-writer-nostarve.c:25-55 | every step keeps the invariant |
| RwLock.Exclusion | OSTEP/Chapter31/reader-writer-nostarve.c:25-55 | a writer excludes readers and other writers, in every state of every run |
| RwLock.FirstReaderNeverBlocks | OSTEP/Chapter31/reader-writer-nostarve.c:25-35 | the first reader finds _lock free |
| RwLock.ReadersDoNotGrow | OSTEP/Chapter31/reader-writer-nostarve.c:46-55 | while a writer holds _wait_writer_lock, read_count does not grow |
| RwLock.NoDeadlock | OSTEP/Chapter31/reader-writer-nostarve.c:25-55 | as long as a thread is inside one of the functions, one of those can go on |
| RwLock.WriterWrites | OSTEP/Chapter31/reader-writer-nostarve.c:46-55 | in every run, between a writer's call and its return it has been in its critical section |
| RwLock.ReaderReads | OSTEP/Chapter31/reader-writer-nostarve.c:25-44 | and so has a reader |
| RwLock.ReadersTogether | OSTEP/Chapter31/reader-writer-nostarve.c:25-35 | any number of threads can be reading at once |
| Barrier.NextOk | OSTEP/Chapter31/barrier.c:33-42 | every step keeps the invariant, with n read outside the semaphore |
| Barrier.NoEarlyLeave | OSTEP/Chapter31/barrier.c:33-42 | when a thread has left or is about to, every thread has subtracted itself from n |
| Barrier.NoDeadlock | OSTEP/Chapter31/barrier.c:33-42 | as long as a thread has not left, one that has not can go on |
| Barrier.RunBounded | OSTEP/Chapter31/barrier.c:33-42 | a run takes at most six steps for each thread |
| Barrier.AllLeave | OSTEP/Chapter31/barrier.c:33-42 | a run that can go no further is one in which every thread has left |
| Shell.ParseToks | MIT-xv6/Lab Multithreading/user/sh.c:344-446 | parsing the tokens of any tree with at most MAXARGS - 1 arguments to a command gives the tree |
| Shell.LexSpell | MIT-xv6/Lab Multithreading/user/sh.c:265-308 | tokens spelled out are read back |
| Shell.PrintParse | MIT-xv6/Lab Multithreading/user/sh.c:265-446 | printing any such tree and parsing what was printed gives the tree |
| Shell.Reparse | MIT-xv6/Lab Multithreading/user/sh.c:265-446 | whatever line without NULs the parser accepts, printing its tree and parsing that gives the same tree |
| Shell.BlanksSeparate | MIT-xv6/Lab Multithreading/user/sh.c:262-308 | two words with one or more blanks of any of the five kinds between them are two tokens |
| Shell.SymbolsSeparate | MIT-xv6/Lab Multithreading/user/sh.c:263-308 | two words with any of the seven symbols between them are two words and that symbol |
| Shell.AppendSeparates | MIT-xv6/Lab Multithreading/user/sh.c:287-294 | and with two > between them, two words and the append token |
| Shell.CommandLimit | MIT-xv6/Lab Multithreading/user/sh.c:428-442 | a line of words alone is a command of just those words if there are at most nine, and a panic otherwise |
| ShellParser.Parser.Gettoken | MIT-xv6/Lab Multithreading/user/sh.c:265-308 | takes exactly the next token and delimits its word, whole |
| ShellParser.Parser.Peek | MIT-xv6/Lab Multithreading/user/sh.c:310-320 | tells what the next token starts with and takes nothing |
| ShellParser.Parser.Parseredirs | MIT-xv6/Lab Multithreading/user/sh.c:374-397 | puts exactly the redirections that come next around the command, in order, each with the mode and the file descriptor of its symbol; panics exactly when a file is missing |
| ShellParser.Parser.Parseargs | MIT-xv6/Lab Multithreading/user/sh.c:428-445 | collects arguments and redirections; panics exactly on a syntax error or at MAXARGS arguments |
| ShellParser.Parser.Parseexec | MIT-xv6/Lab Multithreading/user/sh.c:415-446 | parses what the grammar says, and ends |
| ShellParser.Parser.Parseblock | MIT-xv6/Lab Multithreading/user/sh.c:399-413 | parses what the grammar says, and ends |
| ShellParser.Parser.Parsepipe | MIT-xv6/Lab Multithreading/user/sh.c:361-372 | parses what the grammar says, and ends |
| ShellParser.Parser.Parseline | MIT-xv6/Lab Multithreading/user/sh.c:344-359 | parses what the grammar says, and ends |
| ShellParser.Parser.Parsecmd | MIT-xv6/Lab Multithreading/user/sh.c:327-342 | the whole line as a tree, or a panic exactly when it is no line of the grammar; < opens file descriptor 0 for reading, > opens 1 for writing, created and truncated, and >> opens 1 for writing, created |
| ShellParser.Nulterminate | MIT-xv6/Lab Multithreading/user/sh.c:449-493 | writes a NUL after every word of the tree and changes nothing else |
| ShellParser.WordsTerminated | MIT-xv6/Lab Multithreading/user/sh.c:448-493 | afterwards every argument and file name, read as a C string, is the word gettoken delimited |
| Coroutine.Scheduler.constructor | Coroutine/coroutine-jmp.c:23-31 | an empty queue |
| Coroutine.Scheduler.CreateCoroutine | Coroutine/coroutine-jmp.c:38-61 | a coroutine in the first free slot, at the end of the queue; the queue holds exactly the ones that are not dead |
| Coroutine.Scheduler.DefaultSchedPolicy | Coroutine/coroutine-jmp.c:8-21 | the first one in the queue that is not dead, moved to the end |
| Coroutine.Scheduler.Schedule | Coroutine/coroutine-jmp.c:94-124 | dispatches the head of the queue and rotates it, which is a step of the runs of RoundRobin, or does nothing exactly when the queue is empty |
| Coroutine.Scheduler.ExitCoroutine | Coroutine/coroutine-jmp.c:77-83 | the running coroutine is dead and leaves the queue, the others keep their order |
| Coroutine.RoundRobin | Coroutine/coroutine-jmp.c:8-124 | between two consecutive dispatches of a coroutine every other one that stays runs exactly once |

## Left out

- Log.Log.Commit: asks that no other process holds a logged block or a block of the log while it runs; where a reader holds a logged block, the code sleeps until it lets go. So do Log.Log.WriteLog, Log.Log.WriteHead, Log.Log.InstallTrans and Log.Log.EndOp, which share the condition.
- LogRuns.InvNext: the guard of `log_write` is one look at the length of the log; the code's two comparisons would see the same value unless the compiler reads it twice.
- BufferCache.Bcache.Bread: asks that the block's buffer is not locked, where the code sleeps until it is not.
- The disk as anything but atomic blocks: no torn block writes, no reordering of writes by the device.
- The inode layer over the log class itself: `InodeLayer` reads and writes blocks as the cache shows them, and records which blocks are logged.
- Concurrency within vm.c and fs.c: each call runs to its end, and `kfree` is one step in `Cow` and `Vm`; `KfreeRace` has its two steps apart.
- The bit layout of page-table entries, TLB flushes, the trampoline and trapframe pages, `uvminit`, `uvmclear` as a method, `copyinstr` and the kernel's own page table.
- Directories, path lookup, devices, pipes, `stati` and the locks of inodes.
- BufferCache.Bcache.Brelse: asks that a changed buffer be written or pinned before it is let go, which bio.c leaves to its callers and log.c sees to; there is one device.
- InodeLayer.Fs.WriteOp: the bound on logged blocks is for disks that one bitmap block covers, as mkfs makes them.
- mkfs: its result is taken as a disk that satisfies the invariant.
- Error status from the disk device in runs: the device of `Virtio` completes every request with status zero; `VirtioDriver.Driver.Intr` has the panic.
- Fairness of the device, the scheduler and the semaphores; what is proved of progress is that some step is always possible, that commits and recoveries can run to their end, that the requests of the disk driver can all be served, and what a call has gone through when it returns.
- `exit`, `wait` and `reparent`, `yield`, and the choice the scheduler makes among runnable processes.
- Umalloc.Allocator.Malloc: requests so large that the argument of `sbrk`, an `int`, would be truncated are not modelled, because sizes here are unbounded.
- Umalloc.Allocator.Scan: the loop of `malloc` appears as one round of the ring at a time, with `morecore` between two rounds, which is the order the code follows.
- Vm.Vm.UvmAlloc: the error return 0 is `None`, so a successful growth to size 0 is told from a failure, which the code cannot do.
- Running a parsed command (`runcmd`), reading lines, and the storage of trees.
- Stacks and jumps of the coroutine library: a dispatch, a yield and an exit are steps on the queue.
- The other labs' copies of the same files, the test programs, drivers for the console, the UART, the interrupt controller and the network, and the remaining OSTEP programs, which would add easier members only.
