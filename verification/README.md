# xv6 with clone and join: verified models

A Dafny model of the core of an xv6 kernel that has clone/join threads, of its image builder, and of two user
programs and their allocator, with proofs of the properties that the system is built to have. `dafny verify dfyconfig.toml`
checks everything.

## What is modelled

| source | files |
|---|---|
| log.c | `LogCrash` (a commit and a recovery as sequences of block writes, and crashes between them), `GroupCommit` (the protocol over all interleavings, with crashes), `LogSleep` (who sleeps in begin_op), `LogOverrun` (which panics a run can reach), `Histories` (exactly which interleaved histories the log can have), `Operations` (whole operations, and what they need of the log), `Log` (the code over the buffer cache, each of its steps one of the protocol) |
| bio.c, memide.c | `CacheModel`, `CacheView` (the cache as values, and what it looks like from outside), `Bio` (the linked list in place, among other readers) |
| ide.c | `IdeQueue` (the interleavings), `IdeDriver` (the linked queue in place) |
| fs.c, fs.h | `FsModel` (files, slots and the bitmap), `FsImage` (their bytes on disk), `FsSteps` (the steps of a write between two calls of log_write), `FileSystem` (the code), `FsCrash` (its operations over the log, with crashes), `FsGroup` (writes of several processes at once over the log), `PathModel`, `Paths` (path names and reference counts) |
| mkfs.c | `Mkfs`, `FsHole` (what fs.c does with the root directory that mkfs leaves) |
| umalloc.c | `FreeList` (the list as values), `Umalloc` (the headers in memory) |
| kalloc.c, vm.c | `PageTables`, `Frames`, `Teardown`, `CopySpace` (memory as frames of words), `FrameNeeds` (how many frames a call takes), `Vm` (the code) |
| proc.c | `ProcTable`, `ProcShare`, `ProcOrphans` (the state machine), `Processes` (the scans in place) |
| pipe.c | `PipeModel` (the state machine), `Pipes` (the ring in place) |
| sh.c | `ShellGrammar`, `ShellRoundTrip`, `Shell` (the cursor and the buffer in place) |
| grep.c | `Grep` |
| shared by these | `Basics`, `Blocks` (C strings, bytes, words and blocks) |

Code that changes things in place is a class whose methods are proved to take a step of, or to compute a function
of, a model on values; the properties are proved of the values. Locked sections are atomic steps. A panic is a
violated precondition, an outcome of its own, or, where that is the claim, a state proved out of reach.

## What the proofs found

- No size of the log keeps operations within their budget from panicking: `NoSizeIsSafe`. log_write checks the list
  length without the lock, and mkfs.c:25 makes the log exactly LOGSIZE blocks: with so many or fewer, a run can reach
  the panic at log.c:215-216, and two interleaved calls can overrun the log area (`PanicFreeExactly`,
  `NoOverrunExactly`). With more, three operations can pin as many blocks as there are buffers, since NBUF is LOGSIZE,
  and the first bread of write_log panics at bio.c:95 (`BuffersRunOut`). A commit goes on exactly while the blocks
  still pinned and those that readers hold leave a buffer (`CommitterGoesOn`). The crash results hold for
  a log of more than LOGSIZE blocks, and on any log for runs in which no check is out of date when it is acted on.
  Within budget the list never outgrows its array, and has no duplicates, on a log of any size (`GroupCommitSafety`).
- The reservation of begin_op is for MAXOPBLOCKS blocks, and a full chunk of filewrite (file.c:132) lists 13 to 17
  (`ChunkLists`, `WriteOperation`). Alone it gets through with room for the different blocks that it lists and a spare
  buffer (`CompletesExactly`, `CommitsExactly`). But begin_op admits three operations at once, and when those admitted
  together list more than LOGSIZE blocks they can run into the panic of log.c:215 whatever the size of the log
  (`TogetherPanic`): three full chunks for different files do (`ChunksPanic`). itrunc makes more calls than MAXOPBLOCKS, for few blocks:
  the bitmap and one more (`TruncateLists`).
- mkfs.c:158-163 leaves the root directory with an unmapped last block exactly when its size is a block multiple, as it
  is for thirty input files (`RootHole`, `HoleExample`).
- A write into such a hole, which does not make the file longer, leaves the new address in memory only: the disk then
  has a marked block that no file names (`WriteOperation`, `WriteInHole`).
- A read of an unmapped block allocates it and calls log_write (`Readi`, `ReadInHole`). fileread (file.c:106) reads
  outside any transaction, where log_write panics (log.c:217).
- malloc serves requests of up to 2^31 - 16 bytes (`UsableExactly`). Beyond, sbrk takes its argument as negative and
  gives no memory (`SbrkExactly`), and from 2^32 - 7 on the rounding wraps around to a block that is too small.
- setupkvm, short of frames, gives none back; copyuvm and allocuvm lose a frame exactly when it is the last free one
  and its page lacks a page table, and allocuvm may then return success with its last page unmapped (`SetupShort`,
  `CopyShort`, `AllocShort`).
- deallocuvm misses pages exactly as `MissedExactly` says; never when started on a directory boundary or on
  contiguous pages.
- wait frees the directory of a clone child while its parent uses it (`WaitFreesInUse`); and if a process exits and
  leaves a clone child, its parent's wait frees the directory under the child, and a second wait frees it again
  (`ExitFreesInUse`).
- A writer killed after filling a pipe leaves readers asleep: `KillLosesWakeup`.

## Model

| member | source | states |
|---|---|---|
| LogCrash.HeadRoundTrip | log.c:84-112 | what write_head stores in the header block, read_head reads back |
| LogCrash.RecoveryRestarts | log.c:114-121 | a recovery cut off after any number of block writes and started again gives the uninterrupted result on all non-log blocks |
| LogCrash.CrashesDoNotMatter | log.c:114-121 | any series of interrupted recoveries leaves what the last one restores unchanged |
| LogCrash.RedoRestores | log.c:68-81 | a header that lists h, with the log blocks holding the new contents, recovers to exactly those contents |
| LogCrash.CommitCompletes | log.c:189-199 | a commit that completes leaves the transaction installed and the log empty |
| LogCrash.CrashAtomicity | log.c:189-199 | a crash before any block write of commit, followed by any number of crashes during recovery, ends in the whole old disk or the whole new one on all non-log blocks; the new one exactly from the first header write on |
| GroupCommit.InvStep | log.c:124-230 | every locked section of every process, every block write of a commit, every read and a crash keep the protocol invariant, however many log_writes an operation makes, as long as the check of log_write still holds when its update runs |
| GroupCommit.Reservation | log.c:124-140 | the space begin_op reserves covers every log_write within the budget, so that with more than LOGSIZE log blocks no check of log_write is out of date when it is acted on |
| GroupCommit.RunKeepsInv | log.c:124-230 | the invariant holds after every interleaving of operations of any length, commits, reads and crashes in which no check is out of date when it is acted on |
| GroupCommit.BudgetSuffices | log.c:124-230 | over every run whose operations make at most MAXOPBLOCKS calls, on a log of any size and with checks of log_write out of date or not, the reservation holds; with more than LOGSIZE log blocks no check is out of date |
| GroupCommit.RunKeepsOrder | log.c:124-230 | counters, phases, history and the absence of duplicates are kept by every run, with no condition on the size of the log or on checks |
| GroupCommit.CrashConsistency | log.c:124-230 | after any such run and any crashes the recovered home blocks are the replay of a prefix of all log_writes that splits no operation, and of all of them once the log is idle |
| GroupCommit.GroupCommitSafety | log.c:124-230 | over every run, whatever the size of the log and the length of the operations, and with checks out of date or not: committing means no outstanding operation, the list has no duplicates, an idle log is empty and admits begin_op, and the panic of end_op is out of reach; within budget, list plus unused budgets fit LOGSIZE, so that the array of the list is never written past its end, and with more than LOGSIZE log blocks the panic of log_write is out of reach too |
| GroupCommit.CommitterGoesOn | log.c:173-199 | where no check is out of date the list fits the log area, and a committer goes on exactly while the blocks still pinned and those held by readers leave a buffer |
| GroupCommit.CommitRun | log.c:189-199 | a commit among readers, who each time leave it a buffer besides the pinned blocks, goes on, and its block writes are those that crash atomicity speaks of |
| LogSleep.SleepStep | log.c:124-171 | no step of the protocol leaves a process asleep in begin_op that would be admitted |
| LogSleep.NoLostWakeup | log.c:124-171 | in every state of every run, with a log of any size and operations of any length, whoever sleeps in begin_op would still be refused |
| LogOverrun.OverrunReachable | log.c:210-218 | with 2 to LOGSIZE log blocks there is a run in which two interleaved log_writes overrun the log area |
| LogOverrun.PanicReachable | log.c:215-216 | with at most LOGSIZE log blocks there is a run of operations within budget that reaches the panic |
| LogOverrun.PanicFreeExactly | log.c:215-216 | no run within budget reaches the panic of log_write exactly when nlog > LOGSIZE (mkfs.c:25 sets nlog = LOGSIZE) |
| LogOverrun.NoOverrunExactly | log.c:210-218 | the log area holds the list in every run within budget exactly when nlog > LOGSIZE |
| LogOverrun.BuffersRunOut | bio.c:80-95 | with nlog > LOGSIZE there is a run of operations within budget, and of nothing else, to a commit of NBUF blocks, where the first bread of write_log (log.c:180) finds no buffer |
| LogOverrun.NoSizeIsSafe | log.c:173-218 | whatever nlog is, operations within budget, undisturbed by readers, can reach the panic of log_write or that of bget |
| Histories.HistoryRuns | log.c:124-230 | a history whose events the guards of begin_op and log_write allow, and whose commits find their buffers, has a run, whichever processes are to have passed their next check |
| Histories.RunShown | log.c:124-230 | every run, with crashes or not, shows such a history, and its list is the one that the history says |
| Histories.ReachesExactly | log.c:124-230 | exactly which interleaved histories of begin_op, log_write and end_op of any number of processes the log can have |
| Histories.SettlesExactly | log.c:124-230 | and exactly which of them it can have with everything committed at the end |
| Operations.WholeOperations | log.c:124-171 | a prefix of a history of operations that splits none of them consists of whole operations |
| Operations.ListedBound | log.c:221-227 | repeated log_writes of a block take one place in the list, so that it is no longer than the number of different blocks |
| Operations.CrowdPanics | log.c:124-140 | operations that begin_op has admitted together, their calls in any order: if the list is too long for one of the calls, there is a run in which that call panics |
| Operations.TogetherPanic | log.c:210-218 | operations admitted together that list more than LOGSIZE blocks between them have a run into the panic of log.c:215, whatever nlog is |
| Operations.CompletesExactly | log.c:210-230 | an operation of any length that runs alone has a run to its end exactly if none of its calls finds the list at the guard of log.c:215 |
| Operations.CommitsExactly | log.c:189-230 | and a run that commits it exactly if, besides, the blocks that it lists are fewer than the buffers |
| CacheModel.InvStep | bio.c:60-142 | each step keeps: at most one buffer for each block, the list a permutation of the buffers, dirty buffers not recycled, clean unheld buffers equal to the disk |
| CacheModel.LogicalStep | bio.c:60-142 | only a holder's change alters the contents that readers of a block see, and only of that block |
| CacheModel.RunKeepsLatest | bio.c:60-142 | over any run the logical contents of a block are those last given to it |
| CacheModel.ReadersSeeLatest | bio.c:98-142 | over every run of clients that log or write each change before brelse, a holder sees the latest contents |
| CacheModel.ListIsByRecency | bio.c:121-142 | the list is always ordered by time of last release |
| CacheView.CacheRefinesView | bio.c:60-142 | the cache refines a view of contents, pinned blocks and held blocks, step by step |
| CacheView.CleanReadsDisk | bio.c:98-109 | a block neither held nor pinned reads the same from the cache and from the disk |
| CacheView.RoomExactly | bio.c:80-95 | there is a buffer to recycle exactly while fewer than NBUF blocks are held or pinned |
| CacheView.StarvedExactly | bio.c:60-96 | bget finds neither the block nor a buffer for it exactly if NBUF blocks are held or pinned and it is not among them |
| CacheView.SpareWhileHeld | bio.c:60-96 | while a process holds a block that is not pinned, the pinned blocks and those that others hold leave a buffer |
| CacheView.UnheldReadsDisk | bio.c:98-109 | while others hold only unchanged buffers, a block that is not pinned reads as on disk, held or not |
| Bio.RelinkFront | bio.c:130-136 | brelse's pointer updates turn the ring for an order into the ring for that order with the buffer moved to the front |
| Bio.BufferCache.constructor | bio.c:39-57 | binit builds one circular list of all buffers, all empty |
| Bio.BufferCache.Bget | bio.c:60-96 | one pass over the linked list: sleeps exactly if somebody holds the block, panics exactly if NBUF other blocks are held or pinned, and otherwise takes the model's Get step |
| Bio.BufferCache.Iderw | memide.c:37-59 | takes the model's Sync step, and records every disk state it produces and which blocks others held then |
| Bio.BufferCache.Brelse | bio.c:121-142 | takes the model's Release step on the linked list, for any holder; the cache still agrees with the disk exactly if the buffer was logged, written or left unchanged |
| Bio.BufferCache.Interfere | bio.c:60-142 | whatever other readers fetch, fill and release in between, contents and pinned blocks and this process's buffers stay as they are |
| Bio.BufferCache.Bread | bio.c:60-109 | with other readers stepping in between and the rescan after every sleep: a held buffer with the logical contents of the block; no buffer only if NBUF other blocks are held or pinned; if the others stand still, each outcome has its exact condition |
| Bio.BufferCache.Bwrite | bio.c:111-119 | the disk block becomes the buffer's data, in one disk write |
| Log.Log.constructor | log.c:52-65 | initlog leaves the recovered disk and an empty list |
| Log.Log.BeginOp | log.c:124-140 | admits exactly when the protocol's begin_op step is enabled, and takes that step |
| Log.Log.EndOp | log.c:143-171 | its panic is out of reach; takes the protocol's end_op step and hands over to commit exactly when that step does |
| Log.Log.CheckLogWrite | log.c:215-218 | the unlocked checks pass exactly when the protocol's check is enabled, and take that step |
| Log.Log.LogUpdate | log.c:220-230 | whatever has happened since the check, and whatever buffers other operations hold and have changed, as long as the array has a place or the block is listed: takes the protocol's update, pinning the block; keeps the protocol's invariant if the log area has room too |
| Log.Log.CommitLog | log.c:189-199 | among readers: each disk write of commit is the protocol's next CommitBlock step, after a step in which readers come to hold what they held at that write; the whole of it ends in the protocol's state after the commit |
| Log.Log.FinishCommit | log.c:161-170 | takes the protocol's last step of a commit |
| Log.Log.WriteHead | log.c:97-112 | one disk write, of the header block holding the list, or none if bread of the header finds no buffer |
| Log.Log.WriteLog | log.c:173-187 | the disk writes are exactly the log copies of the listed blocks, in order, up to the first bread that finds no buffer; undisturbed, it gets through exactly if every round finds its two buffers |
| Log.Log.InstallTrans | log.c:67-81 | the disk writes are exactly the home copies of the logged blocks, in order, up to the first bread that finds no buffer |
| Log.Log.ReadHead | log.c:83-95 | the in-memory list becomes the one on disk |
| Log.Log.Recover | log.c:114-121 | issues exactly the writes of a recovery and ends in the recovered disk with an empty list |
| Log.Log.Commit | log.c:189-199 | with readers holding buffers at any time: issues a prefix of the writes that crash atomicity speaks of, all of them exactly if it returns; undisturbed, it returns exactly if the list is empty or there is a spare buffer and nobody holds a block of the log or of the list |
| FsModel.NewAddr | fs.c:356-384 | a free block, marked, zeroed and put into an empty slot, keeps bitmap and ownership in step and changes no file's bytes |
| FsModel.NewEntry | fs.c:356-384 | the same for an entry of the indirect block |
| FsModel.PutBlockChanges | fs.c:462-492 | overwriting a block of one file changes those bytes of that file and no other file |
| FsModel.OverlayContents | fs.c:462-492 | an overlay, seen through the sizes, patches the written file and leaves every other file as it was |
| FsModel.ReadBack | fs.c:434-492 | a read of the range just written returns the data written |
| FsModel.FreeDirect | fs.c:391-401 | the block of a direct slot has its bit set, and freeing it and emptying the slot keeps bitmap and ownership in step |
| FsModel.FreeEntry | fs.c:403-409 | the same for a block named by the indirect block |
| FsModel.FreeIndirect | fs.c:403-414 | the same for the indirect block itself, once its entries are freed |
| FsImage.BitOfSetBit | fs.c:62-66 | setting or clearing one bit of a bitmap byte leaves the others |
| FsImage.InodeRoundTrip | fs.c:199-215 | an inode stored as an on-disk inode reads back unchanged |
| FsImage.PutBitAbs | fs.c:53-93 | writing a bitmap block changes one bit of the file system the disk holds, and nothing else |
| FsImage.PutInodeAbs | fs.c:199-215 | writing an inode block changes one inode, and nothing else |
| FsImage.PutBlockAbs | fs.c:462-492 | writing a data block changes that block, and nothing else |
| FileSystem.Volume.Balloc | fs.c:53-75 | returns the first free block, marked and zeroed through log_write, or none when every bit is set |
| FileSystem.Volume.Bfree | fs.c:78-93 | clears that bit only; its panic is a violated precondition |
| FileSystem.Volume.Iupdate | fs.c:199-215 | the inode in memory becomes the one on disk |
| FileSystem.Volume.Bmap | fs.c:356-384 | returns the block of the slot, unchanged if present, allocated without changing any file's bytes if not; panics exactly if the free blocks are fewer than those missing (one, and the indirect block); keeps ownership |
| FileSystem.Volume.Writei | fs.c:462-492 | overlays and extends exactly those bytes, leaves every other file, keeps ownership; fails exactly on the source's conditions, hands over exactly the devices that have a function, and panics for want of blocks exactly if fewer are free than the range lacks; memory and disk inode, if they agreed, agree afterwards exactly if the file grew or the inode had an address for every block written; logs all blocks of the range, and besides only bitmap blocks, the indirect block and the inode's; and does it by the steps of FsSteps |
| FileSystem.Volume.Readi | fs.c:434-459 | returns exactly contents[off..min(off+n,size)]; calls no log_write exactly if every block read is mapped; panics in balloc exactly if fewer blocks are free than the range lacks, and otherwise in bmap exactly if the range reaches beyond MAXFILE blocks |
| FileSystem.Volume.Itrunc | fs.c:391-419 | frees the file's blocks and no others without reaching the freeing panic; ownership is kept; logs bitmap blocks and then the inode's only |
| FsModel.MissingNext | fs.c:356-384 | mapping the first block of a range takes exactly its price, one or two blocks, off what the range lacks |
| FsCrash.AbsHome | mkfs.c:94-103 | the inodes, the bitmap and the data lie behind the log, so the file system that a disk holds does not depend on the log area |
| FsCrash.CrashBetweenOperations | log.c:124-230 | wherever a run of operations of any length is cut off, and however often recovery is, the file system recovered is the one that some number of whole operations left; all of them once the log is idle |
| FsCrash.OperationLasts | log.c:189-230 | an operation whose list fits the log and leaves a buffer has a run after which every recovery finds what it left |
| FsCrash.WriteLists | fs.c:462-492 | the blocks that writei lists are at most those that hold the bytes, the indirect block, the bitmap blocks and the inode's |
| FsCrash.WriteListsAll | fs.c:462-492 | and at least those that hold the bytes, which are different blocks |
| FsCrash.ChunkLists | file.c:132 | for a chunk of filewrite, with one bitmap block, that is at most 17 blocks; for a full one it is 13 or more, which is beyond MAXOPBLOCKS |
| FsCrash.ChunksPanic | file.c:132-141 | three full chunks of filewrite for different files, which begin_op admits together, have a run into the panic of log.c:215, whatever nlog is |
| FsCrash.TruncateLists | fs.c:391-419 | itrunc lists at most the bitmap blocks and one more, however many blocks it frees |
| FsCrash.Orphaned | fs.c:370-378 | an address that an inode has in memory only leaves on disk a marked block that no file names |
| FsCrash.WriteOperation | fs.c:462-492 | writei as one operation of any length: a crash at any point leaves, after recovery, the old file system or the new one; it lists between the blocks that hold the bytes and the bound of WriteLists, and with room in the log for that bound it has a run that commits it; the new one is good exactly if the file grew or the inode had an address for every block written, and its files are then exactly the patched ones |
| FsCrash.TruncateOperation | fs.c:391-419 | itrunc as one operation, for a file of any size: a crash at any point leaves, after recovery, the old files or these with the truncated one empty, and a good file system; with room in the log for the bitmap and one inode block it has a run that commits it |
| FsGroup.SoundStep | fs.c:356-492 | processes, each making one write after the other, write different files at once, cut at every log_write: each step keeps every block owned by one file or taken by one write, every other file's bytes, and each file being written the old one overlaid by what is written so far |
| FsGroup.WriteAlone | fs.c:462-492 | the code of writei, by itself between begin_op and end_op, is a run of these steps with the same calls of log_write, the same disk and the same inodes |
| FsGroup.SettledGoodExactly | fs.c:462-492 | when no write is under way the file system on disk is good exactly if each write that is over made its file longer or found an address for every block |
| FsGroup.SettledFiles | fs.c:462-492 | and each file is then wholly old or, if its write is over, wholly new |
| FsGroup.CrashOfGroup | log.c:124-230 | wherever such a run is cut off, and however often recovery is, the file system recovered is that of a point where no write was under way: good exactly as above, each file wholly old or wholly new; the last point once the log is idle |
| FsGroup.GroupLastsExactly | log.c:124-230 | a group of writes none of which is left half done has a run of the log that ends idle exactly if begin_op, log_write and commit let each of its events pass; and after every such run each recovery finds the file system as the writes left it |
| Mkfs.ImageIsGood | mkfs.c:237-251 | a bitmap that marks the blocks below freeblock completes an image with exact ownership |
| Mkfs.RoundedSizeMapped | mkfs.c:158-163 | rounding the root directory's size leaves every block below size mapped exactly if the size was not a block multiple |
| Mkfs.AppendedContents | mkfs.c:255-297 | an append adds its bytes to one file and changes no other |
| Mkfs.AppendedTwice | mkfs.c:255-297 | appending a and then b is appending a + b |
| Mkfs.MapCostIs | mkfs.c:267-284 | the blocks taken to map one more piece of a file are the difference of the blocks that its size takes before and after, indirect block included |
| Mkfs.NeededNext | mkfs.c:138-156 | one more input file needs the blocks of its size and what its entry adds to the root directory |
| Mkfs.Image.MapBlock | mkfs.c:267-284 | the block for an offset, taken from freeblock if absent; takes exactly the blocks that were missing; ownership is kept |
| Mkfs.Image.Iappend | mkfs.c:255-297 | appends exactly the given bytes to one file and takes exactly the blocks that the growth in size needs |
| Mkfs.Image.Ialloc | mkfs.c:223-235 | the next inode, empty, with its type and one link |
| Mkfs.Image.WriteBitmap | mkfs.c:237-251 | establishes that a bit is set exactly for metadata and owned blocks, whatever the size of the image |
| Mkfs.Image.CopyIn | mkfs.c:150-151 | the file gets exactly the input's bytes, in pieces of at most a block, and exactly the blocks of its size |
| Mkfs.Image.Build | mkfs.c:108-168 | for every set of inputs whose blocks fit, counted exactly, and that the one bitmap block which mkfs writes can mark: the finished image has exact ownership, every input file's bytes, type and link count, the root directory's entries padded with zeroes and mapped exactly as far as the entries go, and the bitmap marks exactly the metadata and the blocks needed |
| FsHole.RootHole | mkfs.c:158-163 | when the entries fill their blocks, the root directory ends in a block that has no address |
| FsHole.WriteInHole | fs.c:462-492 | a write there succeeds, and leaves on disk a marked block that no file names |
| FsHole.ReadInHole | fs.c:434-459 | a read there returns zeroes and calls log_write, which outside a transaction panics (log.c:217, file.c:106) |
| FsHole.HoleExample | mkfs.c:158-163 | mkfs with thirty input files: 16 bytes written at 512 of the root directory leave a file system that is not good; reading them calls log_write |
| FreeList.PlaceExists | umalloc.c:29-32 | there is exactly one place in the list for a block that overlaps no free block |
| FreeList.InsertOrdered | umalloc.c:33-42 | inserting with coalescing on both sides keeps the list address-ordered, disjoint and without adjacent blocks |
| FreeList.InsertUnits | umalloc.c:33-42 | inserting adds exactly the block's units |
| FreeList.InsertCovers | umalloc.c:33-42 | inserting adds exactly the block's addresses |
| FreeList.TakeOrdered | umalloc.c:75-83 | taking a whole block or the tail of one keeps the list ordered |
| FreeList.TakeUnits | umalloc.c:75-83 | taking removes exactly the units handed out |
| FreeList.TakeCovers | umalloc.c:75-83 | the addresses handed out and those that stay free split the old free addresses |
| Umalloc.FreePartition | umalloc.c:24-44 | free moves one block from live to free: live blocks and the free list stay disjoint and their units add up to those from sbrk |
| Umalloc.TakePartition | umalloc.c:63-90 | the same for malloc |
| Umalloc.GrowPartition | umalloc.c:46-61 | the same for morecore |
| Umalloc.RoomForRequest | umalloc.c:69 | the block of the size computed has room for the request exactly if the rounding does not wrap around |
| Umalloc.SbrkExactly | proc.c:108-123 | asked for less than 2^31 bytes, sbrk gives them if they end below KERNBASE and there are frames, and else refuses; asked for more, which it takes as a negative number, it never grows the process: it leaves the size alone if the sum stays below 2^32, and beyond shrinks it to the rest, refusing only if that is 0 |
| Umalloc.SbrkExample | proc.c:108-123 | malloc(2^31) makes sbrk shrink by 2147483640 bytes, which deallocuvm ignores, and the process keeps its size |
| Umalloc.UsableExactly | umalloc.c:69 | a request gets a block that is large enough and has memory behind it exactly up to 2^31 - 16 bytes |
| Umalloc.ExitAtPlace | umalloc.c:30-32 | the search loop of free stops at the right element and at no other |
| Umalloc.OthersKept | umalloc.c:33-42 | free changes no header of another live block |
| Umalloc.Allocator.Free | umalloc.c:24-44 | the free list becomes the ordered insertion of the block, on the circular list in memory; the heap invariant is kept |
| Umalloc.Allocator.Morecore | umalloc.c:46-61 | a region of at least 4096 units is added, or nothing changes; refuses exactly if sbrk does, and the region otherwise has no memory behind it exactly from 2^31 bytes on |
| Umalloc.Allocator.Malloc | umalloc.c:63-90 | terminates after at most one successful morecore with a new live block of the right size disjoint from all others, or fails when no free block is large enough and sbrk refuses; a block without memory comes back exactly when 2^31 bytes or more are asked of sbrk and it does not refuse |
| PageTables.AddTableKeeps | vm.c:55-63 | a zeroed page entered in the directory changes no mapping and adds exactly that frame to those held |
| PageTables.MapUser | vm.c:79-83 | entering a frame at an unmapped user page keeps every frame held once and adds exactly that frame |
| PageTables.UnmapUser | vm.c:263-270 | clearing a user entry gives up exactly its frame |
| PageTables.FrameElsewhere | vm.c:45-65 | writing a frame an address space does not hold changes none of its entries |
| Frames.EvolvesSetPte | vm.c:79-83 | writing an entry changes that page's mapping alone, and the frames free or held are conserved |
| Vm.Machine.Kalloc | kalloc.c:79-95 | the head of the free list, or 0 exactly if it is empty |
| Vm.Machine.Kfree | kalloc.c:59-77 | the frame goes to the head of the list threaded through the free pages |
| Vm.Machine.Freerange | kalloc.c:45-52 | exactly the frames of the range are added |
| Vm.Machine.Walkpgdir | vm.c:45-65 | finds or allocates the page table, exactly if it is there or a frame is free; no mapping changes, and frames free or held are conserved |
| Vm.Machine.Mappages | vm.c:70-90 | succeeds exactly if the free frames cover the page tables that the range lacks; then exactly the pages of the range map consecutive frames with the permissions; frames are conserved |
| Vm.Machine.Setupkvm | vm.c:113-144 | succeeds exactly if there are frames for the directory and the kernel's page tables; then a new address space with exactly the kernel mappings, made of those frames; otherwise the free list is left empty |
| CopySpace.KmapIsGood | vm.c:115-125 | the rows of kmap lie in the kernel half and do not overlap |
| Teardown.MissedExactly | vm.c:259-271 | a mapped page in range is missed by deallocuvm exactly if it lies, below the start's offset, in the first table after a missing one |
| Teardown.AlignedMissesNothing | vm.c:259-271 | nothing is missed from a start on a directory boundary |
| Teardown.ContiguousMissesNothing | vm.c:259-271 | nothing is missed when the user pages are contiguous from 0 |
| Teardown.MissedExample | vm.c:261-262 | page 1025 mapped alone is missed from page 2 on |
| Teardown.FreeUser | vm.c:263-270 | freeing one user page conserves frames, and no other page or frame changes |
| Vm.Machine.Deallocuvm | vm.c:249-273 | clears exactly the mapped pages its loop visits and frees their frames; everything else is unchanged |
| Vm.Machine.Freevm | vm.c:277-292 | the free list gains every user frame, page table and the directory, each once, and no other frame changes |
| CopySpace.OtherSpaceKept | vm.c:309-337 | an address space whose frames were not free keeps every mapping and every byte |
| CopySpace.ChildMore | vm.c:319-331 | a page copied to a frame from the free list and mapped makes one more page of the child equal to the parent's |
| Vm.Machine.Copyuvm | vm.c:309-337 | succeeds exactly if the frames for the kernel half, the pages and their tables are free: every page below sz has the parent's bytes and flags, the rest is the kernel half, the child's frames are not the parent's; the parent is unchanged; on failure one frame is lost exactly if it is the last free one and its page lacks a table, or the free list is empty |
| Vm.Machine.Allocuvm | vm.c:220-243 | maps every page exactly if the free frames cover pages and missing tables; returns success with the last page unmapped exactly if they are one short and that page lacks a table; otherwise undoes what it did; a frame is lost exactly if the last free one goes to a page that lacks a table |
| FrameNeeds.NeedNext | vm.c:232-240 | one more page takes one frame, or two if it lacks a table |
| FrameNeeds.Stranded | vm.c:233-240 | where the last free frame goes to a page that lacks a table, frames were short, and by one exactly if that page is the last |
| FrameNeeds.RanOut | vm.c:233-237 | where no frame is left for a page, none is lost |
| FrameNeeds.KernelTakes | vm.c:115-144 | the kernel half of this machine takes a directory and 64 page tables |
| FrameNeeds.SetupExample | vm.c:115-144 | 64 frames are fewer than the kernel half takes |
| FrameNeeds.AllocExample | vm.c:233-240 | where page 0 lacks a table it takes two frames, and a single free one is stranded |
| FrameNeeds.CopyExample | vm.c:326-330 | 66 frames cover the kernel half and leave one, which the first page strands |
| Vm.Machine.SetupShort | vm.c:134-142 | with 64 free frames setupkvm fails and the free list is left empty |
| Vm.Machine.AllocShort | vm.c:233-242 | with one free frame and no table for page 0, allocuvm of one page returns success, the page is not mapped and the frame is lost |
| Vm.Machine.CopyShort | vm.c:326-336 | with 66 free frames a copy of any process fails and gives back all frames but one |
| ProcTable.InvStep | proc.c:34-539 | every action of every process keeps the invariant of the process table |
| ProcTable.ExitWakes | proc.c:194-210 | after exit, a sleeping parent has no zombie child that it did not have before |
| ProcTable.RunKeepsInv | proc.c:34-539 | the invariant holds in every state of every run |
| ProcTable.NoLostWakeup | proc.c:172-255 | in every run: who sleeps in wait has no zombie child, who sleeps in join no zombie child with its directory, every built process but init has a live parent, init is alive |
| ProcTable.PidsDistinct | proc.c:47-50 | pids in use are equal exactly if their allocations are a multiple of 2^32 apart, so never within the first 2^32 |
| ProcShare.Alone | proc.c:230-236 | a zombie that was not cloned is the only process pointing at its directory |
| ProcShare.SharesStep | proc.c:128-539 | every disciplined action keeps: clone children share the parent's directory, fork children do not, one owner for each directory, and a directory is allocated exactly if somebody points at it |
| ProcShare.SharedSpaces | proc.c:216-255 | over disciplined runs wait and exec free only allocated directories that nobody points at afterwards, join reaps clone children only, and no directory is lost |
| ProcShare.WaitFreesInUseExactly | proc.c:230-236 | the directory freed by wait is still in use exactly if the child reaped shares the waiter's directory |
| ProcShare.WaitFreesInUse | proc.c:235 | a run in which init clones, the thread exits, and init's wait frees init's own directory |
| ProcOrphans.Tied | proc.c:503-539 | whoever shares a process's directory is tied to it by a chain of clones that begins with its parent or a child |
| ProcOrphans.FreesInUseExactly | proc.c:194-255 | after a disciplined run and any exits, the directory that wait frees with a child is in use afterwards exactly if the child shared it with its parent or with a child of its own |
| ProcOrphans.FreedTwiceExactly | proc.c:194-255 | the directory that a later wait frees with another child has been freed already exactly if the two shared it |
| ProcOrphans.ExitFreesInUse | proc.c:194-255 | a run in which a child of init clones a thread and exits: init's wait frees the directory of the RUNNABLE thread, and init's wait for the thread frees it again |
| Processes.Ptable.Allocproc | proc.c:34-50 | takes the allocation step: the first UNUSED slot, or no change |
| Processes.Ptable.Wakeup1 | proc.c:389-397 | exactly the sleepers on the channel become RUNNABLE |
| Processes.Ptable.Kill | proc.c:446-464 | takes the kill step on the first slot with the pid, found exactly if there is one |
| Processes.Ptable.Exit | proc.c:194-210 | takes the exit step: parent woken, children passed to init, init woken if one is a zombie |
| Processes.Ptable.WaitScan | proc.c:222-254 | one scan takes the wait step and returns the pid of the child reaped, which exists if there is a zombie child |
| Processes.Ptable.JoinScan | proc.c:408-441 | one scan takes the join step and returns the pid of the thread reaped |
| PipeModel.Counters | pipe.c:84-115 | the 32-bit tests for full and empty and the index modulo 512 are right however often the counters wrapped |
| PipeModel.PutAllOk | pipe.c:83-93 | writing keeps the ring and appends exactly the bytes |
| PipeModel.TakeAllOk | pipe.c:112-116 | reading keeps the ring and takes the next bytes in order |
| PipeModel.WriteExactly | pipe.c:78-97 | a write keeps "a sleeping reader means empty" exactly unless a killed writer leaves a pipe it filled with readers asleep |
| PipeModel.ReadKeeps | pipe.c:100-120 | a read keeps the invariant and returns min(n, available) bytes |
| PipeModel.Fifo | pipe.c:58-120 | in every run the bytes read are a prefix of those written and nwrite-nread is within 0..512 modulo 2^32 |
| PipeModel.NoLostWakeup | pipe.c:58-120 | in every run without such an exit a sleeping reader means empty and writable, a sleeping writer full and readable |
| PipeModel.KillLosesWakeup | pipe.c:85-88 | a run in which a killed writer leaves a reader asleep on a full pipe |
| Pipes.Pipe.WriteSome | pipe.c:83-93 | copies min(remaining, room) bytes into the ring |
| Pipes.Pipe.ReadSome | pipe.c:112-116 | returns the next min(n, available) bytes written |
| IdeQueue.InvStep | ide.c:98-163 | every interleaving of iderw and ideintr keeps the queue a duplicate-free list of busy unsynced buffers whose head is the active request |
| IdeQueue.Fifo | ide.c:98-163 | over every run: the requests queued at the start followed by those made are those finished followed by those still queued, in order |
| IdeQueue.Refines | ide.c:98-163 | every step is a step of the synchronous disk (the completion of a request is memide's iderw) or changes nothing |
| IdeQueue.RunRefines | ide.c:98-163 | every run over the queued disk is a run over the synchronous one between the same states |
| IdeQueue.QueuedReadersSeeLatest | ide.c:98-163 | the buffer cache over the queued disk shows every holder the latest contents |
| IdeQueue.ReturnEffect | ide.c:134-163 | every iderw that returns had memide's effect on buffer, flags and disk at one moment between its start and its return |
| IdeQueue.NoLostWakeup | ide.c:157-160 | nobody sleeps in iderw for a request that has been carried out |
| IdeDriver.Driver.Iderw | ide.c:134-160 | appends to the linked queue and starts the device if it was idle |
| IdeDriver.Driver.Ideintr | ide.c:99-127 | takes the head of the queue, finishes it, wakes its process and starts the next |
| PathModel.ElementsAreComponents | fs.c:576-599 | repeated skipelem yields exactly the non-empty slash-separated components, cut to 14 bytes |
| PathModel.WalkLast | fs.c:605-638 | a walk is the walk to the last directory and one lookup |
| PathModel.NameiIsParentThenLookup | fs.c:640-651 | namei is nameiparent followed by a lookup of the last element |
| Paths.Skipelem | fs.c:576-599 | consumes one element and leaves it, NUL-terminated if short, in the name buffer |
| Paths.Namecmp | fs.c:497-501 | equal exactly if the names in the two buffers are |
| Paths.Icache.Iget | fs.c:220-251 | one more reference on that inode and no other change in references; one slot for each inode; fails exactly if all slots are in use and none holds the inode |
| Paths.Icache.Dirlookup | fs.c:505-529 | the first matching entry in use, with one reference on its inode |
| Paths.Icache.Namex | fs.c:605-638 | resolves the path by its components; on return one reference on the inode returned and none on any other, on every exit |
| ShellGrammar.TokenAt | sh.c:266-309 | a word token is a maximal run of word characters; every token but the end advances the cursor |
| ShellGrammar.Parse | sh.c:328-343 | the grammar; a command that is parsed has at most nine words to an exec, all of them words of the text, and the whole text is consumed |
| ShellRoundTrip.ParsePrinted | sh.c:345-447 | a printed command is read back, wherever it stands before a ) or the end |
| ShellRoundTrip.RoundTrip | sh.c:328-447 | parsing the printed form of any legal command gives that command and consumes all input |
| ShellRoundTrip.ParsedIsNormal | sh.c:328-447 | whatever the input, a parsed command is legal, and printing and parsing it again gives it back |
| Shell.WordsAreStrings | sh.c:449-494 | with NULs at the ends of all words, the C string at each word is exactly that word |
| Shell.Parser.Gettoken | sh.c:266-309 | moves the cursor as the token function says |
| Shell.Parser.Parseredirs | sh.c:375-398 | reads the redirections that the grammar gives, or fails |
| Shell.Parser.Parseexec | sh.c:416-447 | returns what the grammar gives for an exec command or a block |
| Shell.Parser.Parsepipe | sh.c:362-373 | returns what the grammar gives for a pipe |
| Shell.Parser.Parseline | sh.c:345-360 | returns what the grammar gives for a line |
| Shell.Parser.Nulterminate | sh.c:449-494 | a NUL is written at the end of every word, and nothing else changes |
| Shell.Parser.Parsecmd | sh.c:328-343 | returns what the grammar gives; afterwards every argument and file name is a C string equal to its token |
| Grep.HereFirst | grep.c:84-106 | a pattern matches at the start of the text exactly if its first item fits some piece and the rest matches what follows |
| Grep.Matchhere | grep.c:84-96 | true exactly if a decomposition of a prefix of the text exists |
| Grep.Matchstar | grep.c:98-106 | true exactly if some run of the character is followed by a match |
| Grep.Match | grep.c:72-82 | true exactly if the pattern matches somewhere, or at the start with ^ |

## Left out

- Bio.BufferCache.Bread: the others are readers, which fetch, fill and release buffers without changing them, as during a commit; their steps are a parameter.
- Log.Log.ReadHead: a header on disk with a list length out of range counts as an empty list; recovery is claimed for disks whose header is in range.
- Log.Log.LogUpdate: a list that fills its array of LOGSIZE blocks, past whose end the source would write, is a violated precondition; GroupCommit.GroupCommitSafety says that operations within budget never get there.
- FileSystem.Volume.Writei: log_write updates the logical disk at once and is recorded, and the log and the cache below it are modelled on their own; what a device's function does is left out.
- FsGroup.CrashOfGroup: each file is written once, and truncation at the same time is left out.
- Mkfs.Image.Build: inputs that do not fit, where mkfs fails an assertion or writes past the image, are excluded.
- Umalloc.Allocator.Malloc: what sbrk answers is a parameter, at or above all memory obtained before and below KERNBASE.
- Vm.Machine.Mappages: for one user page or a range in the kernel half, which is how vm.c:140, 190, 240 and 329 call it; a remap is a violated precondition.
- Vm.Machine.Copyuvm: a missing parent page is a violated precondition; sz is at most KERNBASE.
- Vm.Machine.Kfree: freeing a free frame or one outside the managed range is a violated precondition.
- Vm.Machine.Deallocuvm: for sizes up to KERNBASE, below which every process lies; above it are the kernel's own mappings.
- Processes.Ptable.WaitScan: one scan; the retry after sleeping is the next step of the process.
- ProcTable.InvStep: the two unlocked writes of pgdir and parent to a slot being made are one step; nobody else reads that slot then.
- ProcOrphans.FreesInUseExactly: there is no fork, clone or exec between the last state in which directories are shared as clone and join expect and the wait.
- ProcOrphans.FreedTwiceExactly: there is no fork, clone or exec between the two waits.
- ProcShare.SharedSpaces: growproc, which changes a shared directory's pages but not who points at it, is not an action.
- IdeQueue.ReturnEffect: no device errors, one interrupt for each request started.
- PipeModel.NoLostWakeup: a process inside holds its end open, so that an end closes only when nobody is inside at it; reuse of the page after both ends are closed is not modelled.
- Paths.Icache.Namex: one process at a time, without inode locks, and without the freeing of an unlinked inode in iput.
- Shell.Parser.Parseexec: the source fills the argument array of a command that redirections may already wrap; the model collects words and redirections and wraps at the end.
- runcmd and the rest of sh.c, and grep's reading of lines: execution and input, not parsing and matching.
- sysfile.c: link counts of directories need conditions on open unlinked directories.
- file.c, exec.c, trap.c, syscall.c, sysproc.c, spinlock.c, string.c: plumbing around the modelled operations.
- dirlink, ialloc, iget's loading of inodes by ilock: easy members next to the ones modelled.
- Boot code, device registers and assembly.
- The stack layout that clone and join write into user memory.
