# A model of xv6 with kernel threads, with proofs

This project models the parts of the kernel and its user programs whose correctness rests on
invariants, and proves what they are for.  Code that updates structures in place is written as
classes and methods with loops, proved against specification functions; concurrency is a system
of critical sections that may interleave in any order.  A spinlock section is one step, code that
reads or writes shared state without its lock is a step of its own, a sleep-lock is ownership, and a panic is a result that is proved unreachable or given its exact
condition.

| files | what they model |
|---|---|
| `LogDisk`, `LogCode`, `LogRun`, `LogTheorems`, `LogWitness` | the write-ahead log: the disk writes of a commit and of recovery, the code that issues them, and all runs of the logging system with crashes between any two block writes, for every size of the log area |
| `Ring`, `BufferCache` | the buffer cache, its MRU ring, and the data its readers see |
| `Bytes`, `FsModel`, `FsFiles`, `FsTrunc`, `FsLogged`, `FsCode` | the free map, block maps, reading, writing and truncating files, what is logged, and the log budget of `filewrite` |
| `FsCrash` | the file system on top of the log: what a crash leaves of the files |
| `PageModel`, `PageSpaces`, `PageCounts`, `PageCode` | the page allocator, page tables and address spaces, and how many pages each operation takes |
| `FreeList`, `FreeSteps`, `Malloc` | the user-level allocator |
| `Pipe`, `ProcTable`, `Descriptors` | pipes; sleep, wakeup, exit, wait and join; descriptor propagation between clones |
| `ShellGrammar`, `ShellLines`, `ShellCode`, `Grep` | the shell's parser, the command language as a set of lines with their meaning, and the pattern matcher |
| `Common` | definitions that several of these share |

Conventions.  A block or page is known by its number, a pointer by an index, and an address in the
user allocator by its header unit.  Machine integers are unbounded except where width matters: the
pipe's counters, the sums in `malloc`, `readi` and `writei` are taken modulo 2^32.  Each disk block
write is atomic, as the log assumes.  What `sbrk` returns, whether a process has been killed and
which step comes next are parameters.

Where the code and its comments or documentation differ, the model follows the code:

- `log_write` makes its size tests before it takes the lock (log.c:218-223), so two operations can
  pass them together and then both append.  With the log area that mkfs makes (LOGSIZE blocks,
  mkfs.c:25), `write_log` can then overwrite the first inode block.  `LogIsSafeIff` proves that
  the log is crash safe if and only if the area has more than LOGSIZE blocks, or only one, so
  that nothing can be logged; `Overwrites` is the run.  The theorems about whole runs are for the
  sizes that are safe; with one operation at a time every size is (`SerialKeeps`).
- The tests also come before the block is looked for in the list, so a write that would be absorbed
  can panic; and with the log area that mkfs makes, an operation within its budget can.
  `AppendsNeverPanicIff` gives the exact condition.
- `pipewrite` returns -1 to a killed writer without waking readers (pipe.c:86-88).
  `PipeBuf.Write` states exactly which calls lose a wakeup, and `LostWakeup` is such a run.
- `exit` wakes the process that cloned a thread, `join` sleeps in the thread's parent
  (proc.c:428, proc.c:551).  `JoinerSleepsIff` gives the exact condition: the joiner sleeps on
  if and only if another process cloned the thread, unless the joiner is init and the thread
  leaves it a zombie child.  `LostJoin` is such a run.
- `fork` and `clone` store the parent of a new process without the lock (proc.c:214-217,
  proc.c:343-368), and a thread may have read its own parent just before that process exited.
  So a parent need not be alive; no wakeup is lost by it (`Store`).
- `>>` is parsed as `>` (sh.c:391-393).

## Model

| member | source | states |
|---|---|---|
| LogDisk.RecoveryRestarts | log.c:115-122 | recovery cut short after any number of its block writes leaves a readable header, and a completed recovery then gives the same home blocks |
| LogDisk.RecoveryIdempotent | log.c:115-122 | any number of interrupted recoveries followed by one that completes has the effect of one |
| LogDisk.CommitIsAtomic | log.c:192-202 | a crash after any prefix of the block writes of commit, then any interrupted recoveries and a complete one, gives all old or all new home blocks and an empty header on disk; the header write decides which |
| LogDisk.Encode | log.c:101-113 | the header block that write_head writes holds the count and the block numbers |
| LogCode.Absorb | log.c:224-230 | log absorption: the list gains the block if it was not there, and stays free of duplicates |
| LogCode.Log.constructor | log.c:53-66 | the log at boot, before recovery: nothing pinned, nothing listed |
| LogCode.Log.Bwrite | bio.c:108-116 | one block write: the disk, the pins and the record of writes |
| LogCode.Log.TryBeginOp | log.c:125-141 | an operation is admitted exactly when no commit runs and the blocks listed with MAXOPBLOCKS for it and for each outstanding operation are at most LOGSIZE; otherwise its process sleeps on the log; no process sleeps while that holds |
| LogCode.Log.EndOp | log.c:145-163 | the last operation starts the commit and any other wakes the sleepers; the panic is exactly that a commit is running; no process is left asleep that could be admitted |
| LogCode.Log.EndCommit | log.c:169-172 | the commit is over and every sleeper is woken |
| LogCode.Log.Tests | log.c:218-221 | the panics of log_write: the list or the log area is full, or no operation is outstanding |
| LogCode.Log.Append | log.c:223-232 | the critical section of log_write: the new list and the pinned data |
| LogCode.Log.WriteLog | log.c:177-190 | the blocks written are the views of the listed blocks, to consecutive log blocks, and no others |
| LogCode.Log.WriteHead | log.c:101-113 | one write, of the encoded header |
| LogCode.Log.ReadHead | log.c:85-96 | the in-memory list is the one in the header block |
| LogCode.Log.InstallTrans | log.c:69-82 | the log blocks are copied to their homes in order, and unpinned |
| LogCode.Log.RecoverFromLog | log.c:115-122 | it issues exactly the writes of the specification, so the two recovery theorems are about this code |
| LogCode.Log.Commit | log.c:192-202 | it issues exactly the writes of CommitWrites, so CommitIsAtomic is about this code |
| LogTheorems.RunKeeps | log.c:125-233 | if the size of the log area is safe, every state of every run satisfies the invariants of disk, counts, contents, whole operations and reserved space |
| LogTheorems.SerialKeeps | log.c:125-233 | with one operation at a time they hold for every size of the log area |
| LogTheorems.CrashRecoversGroups | log.c:115-202 | if the size is safe, a crash at any point of any run recovers exactly what the groups committed so far made of the disk |
| LogTheorems.GroupsOnlyGrow | log.c:192-202 | committed groups are never lost |
| LogTheorems.GroupsHoldWholeOps | log.c:145-174 | a committed group holds all writes of each of its operations, no others, and no operation is in two groups |
| LogTheorems.HomeChangesOnlyByInstall | log.c:69-82 | if the size is safe, no home block changes on disk except by install_trans copying it from the log |
| LogTheorems.ReadersSeeTransaction | log.c:213-233 | if the size is safe, at every point readers see the committed groups with the running transaction on top |
| LogTheorems.NoCommitPanic | log.c:145-174 | committing implies no outstanding operation, and the panic of end_op is unreachable, for every size of the log area |
| LogTheorems.NoSleeperForgotten | log.c:128-174 | in every reachable state, whoever sleeps on the log sleeps because a commit runs or one more reservation does not fit in LOGSIZE; and begin_op can be taken exactly when neither is so |
| LogTheorems.ReservationHolds | log.c:126-141 | an operation within MAXOPBLOCKS that appends a block finds fewer than LOGSIZE blocks listed, whatever the others do and whatever the size of the log area |
| LogWitness.CommitStepsAreCommitWrites | log.c:192-202 | in every run, if the size is safe, the steps of a commit are the writes of the method Commit, in order |
| LogWitness.LogIsSafeIff | log.c:214-233 | every crash of every run recovers the committed groups, and only install_trans changes home blocks, if and only if the log area has more than LOGSIZE blocks or just one |
| LogWitness.Overwrites | log.c:177-190 | a run for every other size in which write_log overwrites the home block after the log area although nothing has been committed |
| LogWitness.AppendsNeverPanicIff | log.c:214-219 | the size test never stops an append within budget if and only if the log area has more than LOGSIZE blocks |
| LogWitness.AbsorbedWriteCanPanic | log.c:214-219 | a run in which a write that would be absorbed panics |
| Ring.Unlink | bio.c:132-133 | taking a node out leaves a ring of the others with prev and next inverse |
| Ring.PushFront | bio.c:134-137 | putting a node in front gives a ring that begins with it |
| BufferCache.ContentsKept | bio.c:62-141 | changing one buffer and its block's data keeps blocks unique and every clean or dirty copy up to date |
| BufferCache.CleanIsFresh | bio.c:78-91 | the disk has the latest data of a block whose buffer is clean, so recycling loses nothing |
| BufferCache.Released | bio.c:130-138 | moving a released buffer to the front keeps the ring in order of last release |
| BufferCache.OldestOf | bio.c:81-91 | the first recyclable buffer from the end is the one least recently released |
| BufferCache.BCache.constructor | bio.c:38-56 | binit: the ring holds every buffer once, all free |
| BufferCache.BCache.FindCached | bio.c:69-71 | the first loop of bget finds the buffer of the block, if there is one |
| BufferCache.BCache.FindOldest | bio.c:81-83 | the second finds, of the buffers with no references that are not dirty, the one least recently released, if there is one |
| BufferCache.BCache.Bget | bio.c:62-93 | the buffer of the block with one reference more, or the least recently released of the buffers with no references that are not dirty; the panic is exactly that there is none; a buffer without users and without a pending log_write is always enough |
| BufferCache.BCache.Hit | bio.c:69-76 | a cached block gains a user |
| BufferCache.BCache.Recycle | bio.c:81-91 | a free clean buffer takes a new block, keeping every invariant |
| BufferCache.BCache.AcquireSleep | bio.c:73-74 | the buffer still holds the block asked for, and valid data are the latest |
| BufferCache.BCache.Iderw | memide.c:39-60 | the panics, and the transfer in either direction |
| BufferCache.BCache.Bread | bio.c:96-106 | the data are the latest given to bwrite or log_write, and the panics of iderw are unreachable |
| BufferCache.BCache.Change | bio.c:35-36 | the owner of a buffer may change its data |
| BufferCache.BCache.Bwrite | bio.c:109-116 | the data become the latest and are on disk |
| BufferCache.BCache.LogWrite | log.c:231 | the data become the latest and the buffer cannot be recycled |
| BufferCache.BCache.ReleaseSleep | bio.c:123-126 | an owner whose changes were handed in gives up the lock |
| BufferCache.BCache.Unref | bio.c:128-140 | one reference less; with the last the buffer is the most recently released |
| BufferCache.BCache.MoveToFront | bio.c:132-137 | the six pointer writes move the node to the front of the ring |
| Bytes.WordOfPut | fs.c:389-393 | a block number stored in an indirect block reads back, and no other entry changes |
| Bytes.BytesOfPut | fs.c:389-393 | a block number is stored with its lowest byte first |
| Bytes.BitIs | fs.c:66-68 | bit k of a byte is the one that counts for 2 to the power of k |
| Bytes.SetAndClear | fs.c:66-68 | setting or clearing a bit adds or takes away what it counts for |
| FsModel.UsedAfterMark | fs.c:66-68 | setting or clearing the bit of a block changes that bit only |
| FsModel.UsedIs | fs.c:62-68 | a block is in use when its bit of the free map is set: which byte of which block, and which bit |
| FsModel.FillDirect | fs.c:378-382 | a fresh block in a direct slot keeps every block with exactly one owner and the free map exact |
| FsModel.FillEntry | fs.c:391-394 | the same for an entry of the indirect block |
| FsModel.FreeDirect | fs.c:414-419 | giving back a direct block keeps the same invariant |
| FsModel.DropIndirect | fs.c:421-431 | giving back the indirect block and all it lists keeps the same invariant |
| FsFiles.MapDirect | fs.c:378-382 | mapping a direct block changes no other block of any file |
| FsFiles.MapIndirect | fs.c:387-388 | a fresh indirect block changes no block of any file |
| FsFiles.MapEntry | fs.c:391-394 | mapping through the indirect block changes no other block of any file |
| FsFiles.WritingNext | fs.c:498-504 | each round of writei writes its bytes and leaves no hole |
| FsFiles.WritingEnd | fs.c:506-509 | at the end the file is the old one overwritten at the offset, every other file is as it was, no file has a hole, no inode changes its type, and no other inode changes at all |
| FsTrunc.TruncEnd | fs.c:433-434 | the file is empty, exactly its blocks are free, every other file is as it was, no inode changes its type, and no other inode changes at all |
| FsTrunc.FreedExactly | fs.c:408-435 | the blocks of the file are free again and no other block is |
| FsLogged.LogsNext | fs.c:499-502 | one round of writei logs only the block it writes, its map block if it is new, and the indirect block with its map block |
| FsLogged.ChunkFitsOp | file.c:126-133 | a chunk logs at most MAXOPBLOCKS blocks, however many blocks the free map has |
| FsLogged.ChunkFitsSeven | file.c:126-133 | a chunk spans at most four data blocks, and logs at most seven blocks when the free map is one block |
| FsLogged.IsTransaction | fs.c:481-511 | between two intact volumes every block and every inode that changed was given to log_write |
| FsCode.EmptyVolume | mkfs.c:237-251 | a file system with no blocks in use but its own satisfies the invariants |
| FsCode.NewMap | mkfs.c:237-251 | the first map block of a new file system has exactly the bits of the blocks in use set |
| FsCode.NewMapIs | mkfs.c:237-251 | with it the free map is exact for a file system with no files |
| FsCode.FileSystem.constructor | fs.c:28-39 | an intact file system is a valid state |
| FsCode.FileSystem.Balloc | fs.c:56-78 | the first free block, marked and zeroed; the panic is exactly that none is free |
| FsCode.FileSystem.Bfree | fs.c:81-95 | the bit is cleared; the panic is exactly that it was clear |
| FsCode.FileSystem.Iupdate | fs.c:220-236 | the inode on disk is the one in memory |
| FsCode.FileSystem.AllocDirect | fs.c:378-382 | a fresh block for a direct slot; the panic means the disk is full |
| FsCode.FileSystem.AllocIndirect | fs.c:387-388 | a fresh indirect block |
| FsCode.FileSystem.AllocEntry | fs.c:391-394 | a fresh block for an entry of the indirect block |
| FsCode.FileSystem.Bmap | fs.c:372-400 | the block of the file, allocated only if it was missing, with everything else unchanged; the panics and the blocks logged |
| FsCode.FileSystem.Readi | fs.c:452-476 | the slice of the file's bytes, cut at its end; it never allocates, logs or changes anything; -1 exactly for a bad offset |
| FsCode.FileSystem.WriteRound | fs.c:498-504 | one round of the loop |
| FsCode.FileSystem.Writei | fs.c:481-511 | the file's bytes are overwritten at the offset, its type is kept, other files and inodes are untouched, inodes on disk are up to date, every block that changed was logged, and the blocks logged are bounded; -1 exactly for a bad range, and then nothing changed |
| FsCode.FileSystem.Filewrite | file.c:117-156 | all bytes are written and the offset advances by their number if and only if they fit; otherwise -1 with a prefix written; the type and all other inodes are kept; each chunk of 1536 bytes, and what is left, is a transaction between intact volumes within its budget, and a short write is unreachable |
| FsCode.OverwriteTwice | file.c:134-152 | writing at the end of what was written is one longer write |
| FsCode.ReadBack | fs.c:452-511 | what was written can be read back |
| FsCode.FileSystem.TruncDirect | fs.c:414-419 | the direct blocks are given back, and bfree never panics |
| FsCode.FileSystem.TruncIndirect | fs.c:421-431 | the indirect block and all it lists are given back, and bfree never panics |
| FsCode.FileSystem.Itrunc | fs.c:407-435 | the file is empty and keeps its type, exactly its blocks are free, other files and inodes are untouched, every block that changed was logged, and freeing a free block is unreachable |
| FsCrash.DiskDetermines | fs.h:8-48 | the blocks on disk determine the inodes, the free map and every data block |
| FsCrash.UnloggedSame | log.c:204-212 | a block that a transaction did not log is the same on disk before and after it |
| FsCrash.TransactionShows | log.c:204-212 | what a transaction logged, put into a disk with the volume before it, gives a disk with the volume after it |
| FsCrash.CanCarry | log.c:204-212 | every transaction can be logged, with one entry for each of its blocks |
| FsCrash.SafeWasNow | log.c:145-174 | the volume that is safe on disk is one there was between two transactions |
| FsCrash.CrashLeavesFiles | log.c:115-202 | a crash at any point of any sequence of file-system transactions, with any interrupted recoveries, leaves a disk that holds an intact volume: one there was between two transactions, with every block owned once, the free map exact and no hole in any file |
| PageModel.AddTableKeeps | vm.c:45-52 | a new page table keeps every page with exactly one owner and changes no mapping |
| PageModel.UserMapKeeps | vm.c:69-73 | mapping an allocated page at an absent user page keeps every page with exactly one owner |
| PageModel.UnmapKeeps | vm.c:269-276 | unmapping and freeing a user page keeps the same |
| PageModel.ShrunkSkip | vm.c:266-268 | skipping pages that are not mapped is the same as visiting each of them |
| PageModel.ShrunkNext | vm.c:269-276 | one more page unmapped and freed |
| PageSpaces.ExtendPage | vm.c:233-247 | one more fresh page mapped, in a page table that may be new |
| PageSpaces.GrowUndone | vm.c:235-239 | giving back the pages of a failed growth removes every page of the range, and nothing else |
| PageSpaces.UndoneIsRestored | vm.c:235-246 | so the mapping is as it was, if none of them was mapped before |
| PageSpaces.GrowUndoneLoose | vm.c:241-246 | the same when the last page could not be mapped and is freed after the others |
| PageSpaces.KernelRowsOk | vm.c:105-115 | the rows of kmap lie above KERNBASE, do not overlap, and map all of physical memory and the devices for the kernel only, with text and read-only data not writable |
| PageSpaces.KernelledMap | vm.c:68-78 | one more page of a kernel row mapped |
| PageSpaces.SpaceDropped | vm.c:291-297 | freeing the tables and the directory frees all that the directory owned and nothing else |
| PageSpaces.NewSpaceFreed | vm.c:342-344 | an address space that is made and freed again leaves no trace |
| PageSpaces.ExtendedZeroed | vm.c:240-241 | each new page of a grown space is mapped writable for the user, and every byte of it is 0 |
| PageSpaces.NewSpaceCopied | vm.c:325-335 | each page of a child has the flags and the bytes of the parent's page, on another page |
| PageSpaces.OthersUnseen | vm.c:222-345 | no operation on one directory changes what another maps or what its pages hold |
| PageCode.Memory.constructor | kalloc.c:31-53 | freerange puts every page on the free list |
| PageCode.Memory.Kfree | kalloc.c:59-77 | the page is free and has no owner; the panic is exactly a page out of range, and unreachable for an allocated page |
| PageCode.Memory.Kalloc | kalloc.c:82-95 | the first free page, or 0 exactly when there is none |
| PageCode.Memory.Walk | vm.c:35-55 | the page table, made if asked for; 0 exactly when it is absent and not made |
| PageCode.Memory.MapPage | vm.c:68-78 | one round of mappages; the panic is exactly that the page is mapped; it fails only out of memory; in both cases nothing changed |
| PageCode.Memory.Mappages | vm.c:60-80 | a kernel row is mapped page by page, up to where memory ran out |
| PageCode.Memory.Setupkvm | vm.c:118-136 | a fresh directory with the kernel mappings if and only if there are pages for it and its page tables, or else 0 with every page given back |
| PageCode.Memory.GrowPage | vm.c:234-246 | one page allocated, filled and mapped; which of the ways to fail is taken is decided by the free pages and the mapping |
| PageCode.Memory.Allocuvm | vm.c:221-249 | if no page of the range is mapped: up to the new size fresh pages, each mapped writable for the user and with every byte 0, if and only if the free pages suffice for them and their page tables, or else 0 with the user mapping as it was; if one is: the panic if the free pages last that far, or else 0 with every page of the range freed |
| PageCode.Memory.UnmapPage | vm.c:269-276 | one mapped page is freed and its entry cleared; the panic is unreachable |
| PageCode.Memory.Deallocuvm | vm.c:255-279 | every page between the sizes is unmapped and freed, page by page, and nothing else changes |
| PageCode.Memory.Freevm | vm.c:283-298 | the directory and every page it owns are freed, each once |
| PageCode.Memory.CopyPage | vm.c:325-339 | one page copied to a fresh page, or the child as it was; the panics are exactly that the parent's page is absent |
| PageCode.Memory.Copyuvm | vm.c:315-345 | a child whose every page has the flags and bytes of the parent's, on a fresh page, or 0 with every page given back; which of the two, and when it panics over an absent page, is decided by the exact number of pages needed |
| PageCounts.DirsNext | vm.c:45-52 | using a directory entry takes a page exactly when it has no page table yet |
| PageCounts.SpentTables | vm.c:241-246 | running out of memory for a page table means that there were fewer pages than needed |
| PageCounts.RowsTooMany | vm.c:129-134 | the same for a kernel row |
| PageCounts.ChildNeedsIs | vm.c:323-345 | the pages a child needs are a directory, the kernel's page tables, its pages and their page tables |
| FreeList.UnitsConserved | umalloc.c:24-90 | free and live units together are the units obtained from sbrk |
| FreeList.MergeKeeps | umalloc.c:33-42 | merging two blocks that touch keeps blocks disjoint and covering the heap |
| FreeList.SplitKeeps | umalloc.c:78-82 | cutting the end off a block keeps the same |
| FreeSteps.StopIff | umalloc.c:30-32 | the search of free stops exactly at the block below the freed one |
| FreeSteps.MergeAbove | umalloc.c:33-35 | merging with the block above keeps the list ordered and coalesced |
| FreeSteps.MergeBelow | umalloc.c:38-40 | merging with the block below does |
| FreeSteps.NotBelow | umalloc.c:41-42 | linking the block in does |
| FreeSteps.RoundTrip | umalloc.c:74-86 | back at its start, the search of malloc has seen every free block |
| FreeSteps.NotIfGrown | umalloc.c:86-88 | after a call of sbrk the search finds a block, so it is called at most once |
| Malloc.EnoughIff | umalloc.c:69 | the units asked for hold the bytes, and no unit more, if and only if the 32-bit sum does not wrap; if it wraps, one unit is asked for |
| Malloc.NoneFitsIff | umalloc.c:74-75 | what it means that no free block fits: each has fewer units than asked for |
| Malloc.AskedIs | umalloc.c:52-53 | sbrk is asked for what is needed, and for 4096 units if that is less |
| Malloc.Allocator.constructor | umalloc.c:21-22 | nothing allocated |
| Malloc.Allocator.Free | umalloc.c:24-44 | the block is live no more, every other block is, and the list is circular, ordered, disjoint and coalesced |
| Malloc.Allocator.JoinAbove | umalloc.c:33-37 | the first half of free |
| Malloc.Allocator.JoinBelow | umalloc.c:38-43 | the second half of free |
| Malloc.Allocator.Morecore | umalloc.c:46-61 | the heap grows by the region from sbrk, all of it free |
| Malloc.Allocator.Carve | umalloc.c:75-84 | a block of exactly the units asked for becomes live |
| Malloc.Allocator.MallocBytes | umalloc.c:63-90 | a new live block, disjoint from all others; null if and only if no free block fits and sbrk fails; sbrk is used only if none fits; the search terminates |
| Pipe.SlotOf | pipe.c:93 | a counter that has wrapped still finds the right slot, since PIPESIZE divides 2^32 |
| Pipe.FullIff | pipe.c:85-106 | the tests on wrapped counters mean full and empty |
| Pipe.PipeBuf.constructor | pipe.c:33-36 | an empty pipe with both ends open |
| Pipe.PipeBuf.Close | pipe.c:59-75 | one end is closed and the other side woken; the page is to be freed exactly when both are closed, and then nobody sleeps on it |
| Pipe.PipeBuf.Write | pipe.c:78-98 | bytes are stored in order, as many as fit; who is woken and who sleeps; a wakeup is lost exactly when a reader sleeps, the writer is killed or the read end closed, and there are more bytes than the pipe holds |
| Pipe.PipeBuf.Read | pipe.c:100-121 | the bytes read are the next ones stored; who is woken and who sleeps; no wakeup is lost |
| Pipe.PipeBuf.WakeKilled | proc.c:800-803 | a killed sleeper is runnable |
| Pipe.LostWakeup | pipe.c:86-88 | a run in which a reader sleeps on a full pipe |
| ProcTable.ExitKeeps | proc.c:546-570 | exit loses no sleeper in wait, and none in join whose thread it cloned itself |
| ProcTable.JoinerSleepsIff | proc.c:546-564 | exactly when exit of a thread leaves the process that joins it asleep |
| ProcTable.WaitSleeps | proc.c:616-623 | going to sleep in wait with no zombie child keeps the invariant |
| ProcTable.JoinSleeps | proc.c:459-464 | going to sleep in join keeps it |
| ProcTable.ReapKeeps | proc.c:599-612 | reaping keeps it, and the pid had not been returned before |
| ProcTable.Table.constructor | proc.c:123-130 | the first process, alone |
| ProcTable.Table.Wakeup1 | proc.c:770-778 | exactly the sleepers on the channel become runnable |
| ProcTable.Table.Wakeup | proc.c:781-787 | the same as a critical section |
| ProcTable.Table.Exit | proc.c:546-570 | who is woken, who is handed to init, and that no sleeping parent misses it; the panic is that init exits |
| ProcTable.Table.Wait | proc.c:574-625 | a zombie child that is no thread is reaped whenever there is one, the first in the table; its slot is unused, not killed and has no pid or parent; its pid was never returned before; otherwise -1 without a child, or sleep |
| ProcTable.Table.Join | proc.c:416-467 | the thread is reaped whenever it is a zombie of this process and group, and its slot is unused, not killed and has no pid or parent; otherwise -1 if there is no such thread or the caller is killed, or sleep |
| ProcTable.Table.Allocproc | proc.c:80-95 | the first unused slot with a new pid, or null exactly when there is none |
| ProcTable.Table.Unalloc | proc.c:207-212 | the slot is unused again |
| ProcTable.Table.Store | proc.c:214-217 | one unlocked store into a new process, with a parent that may be out of date, keeps the invariant |
| ProcTable.Table.Start | proc.c:406-410 | the new process can run |
| ProcTable.Table.Fork | proc.c:214-236 | the child is this process's, no thread, and runnable |
| ProcTable.Table.ReadParent | proc.c:343-355 | the parent as the flag says, for a process and for a thread; the fault is exactly that a null parent is followed |
| ProcTable.Table.Clone | proc.c:341-410 | the thread's parent, group and cloner as the flags say |
| ProcTable.Table.SleepOn | proc.c:730-765 | sleeping on anything but a process keeps the invariant |
| ProcTable.Table.Dispatch | proc.c:698-705 | running and yielding keep it |
| ProcTable.Table.Kill | proc.c:792-810 | the first process with the pid, or with `threads` (threadkill) the first thread with it, is marked killed and is runnable if it slept, and nothing else changes; -1 exactly when there is none |
| ProcTable.LostJoin | proc.c:550-554 | a run in which a process sleeps in join although its thread has exited |
| Descriptors.CloneTable.Propagate | sysfile.c:23-71 | it terminates on any graph of links, changes only entries of processes reachable from the caller, each to the new value, every process that changed has passed it on to its first link that is neither empty nor itself, and that of the caller holds it |
| Descriptors.CloneTable.Fdalloc | sysfile.c:92-106 | the lowest free descriptor, passed on; -1 exactly when none is free |
| Descriptors.CloneTable.Close | sysfile.c:146-158 | the descriptor is closed and that passed on; -1 exactly when it was not open |
| Descriptors.CloneTable.Chdir | sysfile.c:446-449 | the directory is passed on if it changes |
| Descriptors.PairStaysEqual | sysfile.c:24-54 | a process and its one thread with shared files keep equal tables over open, dup and close, and nobody else sees a difference |
| ShellGrammar.GetToken | sh.c:265-308 | a token lies within the input, is empty only at its end, and a word is a longest stretch of word characters |
| ShellGrammar.ParseRedirs | sh.c:374-397 | redirections are taken until none follows, within the input |
| ShellGrammar.ParsedIsSound | sh.c:327-446 | every argument and file name of an accepted command is a word of the line, and no command has more arguments than argv holds |
| ShellLines.SpellingReads | sh.c:262-308 | tokens written with any whitespace between them, and some where two would run together, are read back |
| ShellLines.IsSpelled | sh.c:262-308 | and every input is its tokens written in such a way |
| ShellLines.PeekIs | sh.c:310-320 | peek tells which symbol is the next token |
| ShellLines.WrapReads | sh.c:374-397 | redirections put around a command are one node each, the first innermost, with its file and direction |
| ShellLines.RedirsRun | sh.c:374-397 | parseredirs takes every redirection that follows, in order |
| ShellLines.ArgsRun | sh.c:429-445 | the loop of parseexec takes all arguments and all redirections between them, in order; too many arguments are the only error |
| ShellLines.BlockRun | sh.c:399-413 | a block is what its line means with its redirections around it |
| ShellLines.CommandRun | sh.c:415-446 | parseexec on any command: arguments and redirections in any order, or a block with any number of redirections |
| ShellLines.PipelineRun | sh.c:361-372 | parsepipe on any pipeline, grouped to the right |
| ShellLines.LineRun | sh.c:344-359 | parseline on any line: each `&` applies to the pipeline before it, `;` groups to the right |
| ShellLines.OneNodeEach | sh.c:374-397 | in what a line means, the i-th redirection is its own node around those before it |
| ShellLines.ParsesLine | sh.c:327-446 | on every line of the language the parser gives the command it means, or refuses a command with more than nine arguments |
| ShellLines.Accepts | sh.c:327-446 | the parser accepts an input if and only if it is a line of the language whose commands fit |
| ShellLines.LineIsSpelled | sh.c:262-308 | an input is a given line if and only if it is the tokens of the line with whitespace between them |
| ShellLines.Unambiguous | sh.c:327-446 | lines with the same tokens mean the same |
| ShellLines.RoundTrip | sh.c:328-446 | the printing of a command tree is parsed to the same tree, if and only if no command has more than nine arguments |
| ShellLines.AppendIsWrite | sh.c:388-393 | `>>` is parsed to the node that `>` is |
| ShellCode.Parser.constructor | sh.c:327-334 | the cursor at the start of the line |
| ShellCode.Parser.SkipSpace | sh.c:272-273 | the loop over whitespace |
| ShellCode.Parser.NextToken | sh.c:265-308 | the cursor moves past the token the grammar gives |
| ShellCode.Parser.PeekFor | sh.c:310-320 | the cursor moves to the next character that is not whitespace, and the answer is whether it is one of those given |
| ShellCode.Parser.Redirections | sh.c:374-397 | the loop computes the grammar's redirections |
| ShellCode.Parser.Arguments | sh.c:429-445 | the loop computes the grammar's arguments and redirections, which ArgsRun pins, and never writes past argv |
| ShellCode.Parser.ExecCommand | sh.c:415-446 | the code computes the grammar's command, which CommandRun pins, or its error |
| ShellCode.Parser.Block | sh.c:399-413 | the same for a block, pinned by BlockRun |
| ShellCode.Parser.Pipeline | sh.c:361-372 | the same for a pipeline, pinned by PipelineRun |
| ShellCode.Parser.Line | sh.c:344-359 | the same for a line, pinned by LineRun; all terminate by the input that remains |
| ShellCode.NulTerminate | sh.c:449-493 | a NUL is put at the end of every word and nowhere else |
| ShellCode.EndsOutside | sh.c:465-472 | no such position is inside a word |
| ShellCode.WordReadsBack | sh.c:449-493 | after nulterminate the pointer to each word reads exactly that word |
| ShellCode.StringsAre | sh.c:449-493 | so the tree read through its pointers is the tree with the words of the line |
| ShellCode.ParseCommand | sh.c:327-342 | a line is accepted if and only if it is of the command language and no command of it has more than nine arguments; the tree, read through its pointers into the buffer as C strings, is what the line means; on an error the line is untouched |
| Grep.HereMeans | grep.c:85-106 | matching item by item is the same as splitting the text into pieces that the items stand for |
| Grep.SpellsItems | grep.c:85-96 | every expression is its items written one after the other |
| Grep.ItemsSpelled | grep.c:85-96 | items that can be told apart when written are the items of the expression |
| Grep.MatchHere | grep.c:85-96 | true if and only if the expression matches at the beginning |
| Grep.MatchStar | grep.c:99-106 | true if and only if some number of fitting characters is followed by a match |
| Grep.Match | grep.c:72-82 | true if and only if the expression matches somewhere, or at the beginning after `^` |

## Left out

- Boot, assembly, interrupt controllers, consoles and the IDE port protocol: hardware that the source does not define.
- Atomic instructions, interrupt masking and the inside of spinlocks: critical sections are taken as atomic.
- Directories, path names, the inode cache and its reference counts: `balloc` to `writei` are modelled for inodes that are locked.
- Device inodes in `readi` and `writei`, and pipes in `filewrite`: they go to other code.
- Address spaces shared by CLONE_VM and the sizes `growproc` keeps: the source does not keep page ownership there.
- File reference counts across `fork`, `clone` and `exit`: they depend on flags that the source does not reset.
- Reaching every process of a group by descriptor propagation: the loops return early; only reachability, the first peer and pairs are claimed.
- `exec`, `copyout`, `loaduvm`, the scheduler's choice, `printf` and the other user programs: they would only add easy members.
- Disk full and cache full: each is reported as the panic it is, with its exact condition.
- FsCode.FileSystem.Filewrite: takes the chunks of one call without another operation between them, although the source gives up the inode lock and the transaction there.
- FsCrash.CrashLeavesFiles: is for file-system operations one at a time; that concurrent ones are kept apart by inode locks is not modelled.
- FsCode.FileSystem.Itrunc: bounds the blocks it logs only by the free map and the inode block, because the source sets no budget for it.
- LogCode.Log.TryBeginOp: is one pass of the loop of `begin_op`; a process that was woken calls it again.
- LogCode.Log.WriteLog: is for a list that fits the log area, as are InstallTrans and Commit; the runs of LogRun have the case that it does not.
- Malloc.Allocator.Morecore: asks `sbrk` for less than 2^31 bytes.
- Malloc.Allocator.MallocBytes: takes a region from `sbrk` to be fresh, above the static base, and asked for with a size below 2^31 bytes.
- PageCode.Memory.Kfree: takes a page number, so the panic for an address within a page cannot arise; a page that is free already is not detected, as in the source.
- PageCode.Memory.Mappages: is for kernel rows; user pages are mapped one at a time by MapPage, as every caller in vm.c does.
- PageCode.Memory.Deallocuvm: is for sizes up to KERNBASE, which is what its callers pass.
- ProcTable.Table.Clone: does not model the stack, the trap frame or the clone arrays; descriptors are a model of their own.
- ShellCode.Parser.NextToken: the line is a string without NUL, as `strlen` makes it.
