# Verified model of the xv6 kernel and boot game

This project models the hard parts of the xv6 kernel and userland in `Application/XV6/data`, and the
boot-entry logic of the 2D boot manager, in Dafny, and proves what they promise. `dafny verify
dfyconfig.toml` checks everything.

| module | models |
|---|---|
| `Common` | optional values and machine constants that several modules use |
| `Disk`, `Crash` | a device of blocks, and the write sequences of commit and recovery cut at any point |
| `BufferCache`, `Log` | `bio.c` over `memide.c`, and `log.c` over the cache, as classes updated in place |
| `GroupCommit` | `begin_op`, `log_write`, `end_op` and commit as steps of any number of processes |
| `DiskQueue` | the request queue of `ide.c` against the synchronous disk of `memide.c` |
| `Inode`, `FileSystem`, `TightWrite` | `fs.c`'s bitmap, block maps, `readi`, `writei`, `itrunc`, and `filewrite` |
| `DirFile` | directories as bytes: `dirlookup`, `dirlink`, `create`, `sys_link`, `sys_unlink` on the volume |
| `Recovery` | what the blocks of a device mean, and the volume that recovery leaves |
| `Mkfs` | `mkfs.c`: building the initial image |
| `Directory`, `DirNames`, `Path` | directories, link counts, what names mean, `create`, `sys_link`, `sys_unlink`, and path lookup |
| `Scheduler`, `SleepLock` | `proc.c`, `spinlock.c` and `sleeplock.c` as steps of any number of CPUs and processes |
| `Sleepers`, `Kills` | who sleeps, who is woken and who is killed, over every run of `proc.c` |
| `Interrupts` | `pushcli`, `popcli` and the interrupt flag across context switches |
| `Heap` | `umalloc.c` over `sbrk` |
| `PageTable`, `AddressSpace` | `kalloc.c` and `vm.c` over words of physical memory |
| `Shell`, `ShellGrammar` | the parser of `sh.c` with its in-place NUL termination, and the grammar it parses |
| `Grep` | the matcher of `grep.c` |
| `Pipe`, `PipeRun` | `pipe.c`: its ring buffer, and the sleeps and wakeups of any number of readers and writers |
| `BootMap` | `PlaceBootEntries` and the key loop of the 2D boot manager |

A panic does not return: the model shows it as a failure result, and contracts say when it happens.
Code that changes state step by step is a class or an array method proved against a function of the
old state; interleavings are step machines whose invariants are proved for every step and lifted to
every run.

What turned out not to hold as the code stands, each with its exact condition and an input or run that
shows it:

- The log of an image made by `mkfs` has one slot fewer than `begin_op` reserves. The panic in
  `log_write` is then reachable (`GroupCommit.PanicReachableIff`), and because the size test is made
  outside the lock two processes can log one block more than the area holds
  (`GroupCommit.SizeTestRaceIff`). With 29 slots that log pins all 30 buffers, so that the commit panics
  before it writes anything and crash safety holds on every run; with fewer slots a block after the log
  can be lost. `GroupCommit.CrashSafeIff` is the exact condition, `GroupCommit.BlockLost` the run.
- A commit of as many blocks as there are buffers cannot complete (`Log.Log.Commit`), and the image made
  by `mkfs` has a run that gets there (`GroupCommit.FullLogReached`).
- `mkfs` leaves a hole at the end of a root directory whose size was a block multiple, and only then
  (`Mkfs.RootRoundingIff`, with a run in `Mkfs.RootOnBoundary`).
- `create` and `sys_link` do not test that the parent directory is still linked. Counts stay exact and
  linked directories name allocated inodes if and only if it is (`Directory.CreateExactIff`,
  `Directory.LinkExactIff`). A removed current directory gets there: mostly a count is then wrong
  (`Directory.RemovedDirectoryReached`), but a `mkdir` can also leave all counts exact and a `..` that names a
  freed inode (`Directory.FreedParentReached`).
- A writer of a pipe that was killed returns without waking the readers, although it may just have filled the
  pipe: `PipeRun.SleepStepIff` is the exact condition, `PipeRun.LostWakeupReached` the run.
- `iput` logs one bitmap block for each one its file has blocks under, so that on a volume with ten of them it
  can log more than `begin_op` reserves (`FileSystem.FileSys.Ifree` has the exact set,
  `TightWrite.ElevenBlocks` the volume); with at most seven, `unlink` never does (`DirFile.UnlinkIn`). The image
  made by `mkfs` has one.
- A directory entry holds 16 bits of an inode number (`DirFile.EntRoundTrip`).
- `kill` does not look at the state of the slot it finds, and `allocproc` does not clear the flag. `kill(0)` finds
  the first free slot that was never used or was reaped, and the next process forked into it is born killed, although
  nobody has named its pid
  (`Kills.BornKilledReached`); so does a `kill` of a child whose `fork` failed. `Kills.CleanStepIff` is the exact
  condition, and on runs that meet it a process is killed exactly when `kill` named it (`Kills.KilledForCause`).
- `malloc` serves requests of up to 0x7FFFFFF0 bytes and no others (`Heap.RequestIff`,
  `Heap.SbrkGrantsIff`): above, `sbrk` is asked for a negative number of bytes (`Heap.TooLargeRequest`) or
  the rounding wraps (`Heap.WrappedRequest`).
- Boot entries are all placed for every random sequence only if the map has as many escape cells as
  the constant says (`BootMap.PlacementIff`).

## Model

| member | source | states |
|---|---|---|
| `Crash.CommitPrefix` | Application/XV6/data/log.c:177-202 | the device after the first k block writes of a commit, for every k: old home blocks and a growing log before the header write, then a pending transaction being installed, then everything installed and the header empty |
| `Crash.HeadBytes` | Application/XV6/data/log.c:101-113 | the header block byte by byte: the count, then the block numbers, four bytes each with the low one first; the bytes behind them are kept |
| `Crash.RecoverPrefixPending` | Application/XV6/data/log.c:69-122 | the device after the first j writes of a recovery that finds an announced transaction: still pending (so recovery can start over) until the last write, then installed |
| `Crash.RecoverThroughPending` | Application/XV6/data/log.c:115-122 | any number of crashes inside recovery, then one recovery that completes, installs a pending transaction |
| `Crash.CrashAtomicity` | Application/XV6/data/log.c:69-122 | stop a commit after any number of its block writes and crash any number of times inside recovery: the recovery that completes leaves every block outside the log as before the transaction when the header write had not reached the device, and as after it when it had |
| `BufferCache.UnlinkKeepsLinked` | Application/XV6/data/bio.c:132-133 | unlinking a buffer leaves prev and next inverse to each other along the list without it |
| `BufferCache.PushKeepsLinked` | Application/XV6/data/bio.c:48-54 | inserting a buffer behind the head leaves prev and next inverse along the list with it in front |
| `BufferCache.Bcache.constructor` | Application/XV6/data/bio.c:38-56 | the list is a permutation of all buffers, nothing is cached under a key other than (0,0), every read sees the device |
| `BufferCache.Bcache.FindCached` | Application/XV6/data/bio.c:68-76 | the scan finds a block exactly when some buffer caches it, and then that one |
| `BufferCache.Bcache.FindIdle` | Application/XV6/data/bio.c:78-83 | the scan finds the least recently used buffer that is neither referenced nor dirty; it fails exactly when there is none |
| `BufferCache.Bcache.Lookup` | Application/XV6/data/bio.c:61-93 | keeps one buffer per block, exact reference counts and coherence; fails exactly when the block is not cached and no buffer can be recycled; no block reads differently, no pinned block is evicted |
| `BufferCache.Bcache.Bread` | Application/XV6/data/bio.c:95-106 | returns the locked buffer holding what a flat disk would return; has to wait exactly when another process holds the block, keeping a reference so that the buffer goes on caching it; panics exactly on a block number past the device or when no buffer can be had |
| `BufferCache.Bcache.BreadWoken` | Application/XV6/data/bio.c:61-106 | a caller that waited gets the buffer once the lock is free, with what a flat disk would return |
| `BufferCache.Bcache.Iderw` | Application/XV6/data/memide.c:38-60 | a dirty buffer goes to the device and becomes clean, an invalid one is read in; succeeds exactly when the caller holds the buffer, there is work to do and the block exists; no block reads differently |
| `BufferCache.Bcache.Bwrite` | Application/XV6/data/bio.c:108-116 | exactly one block write reaches the device, with the contents a read of that block sees; the block is no longer pinned |
| `BufferCache.Bcache.Brelse` | Application/XV6/data/bio.c:118-141 | gives up the lock and the reference; at count zero the buffer becomes most recently used and the others keep their order; nothing reads differently; the cache stays coherent if and only if the holder has not left a change that it neither logged nor wrote |
| `BufferCache.Bcache.AtRest` | Application/XV6/data/bio.c:38-141 | the cache refines a flat disk: a block that is neither pinned nor held reads as it is on the device |
| `BufferCache.Bcache.SomeClean` | Application/XV6/data/bio.c:76-92 | with fewer pinned blocks than buffers some buffer can be recycled, with two fewer two can |
| `BufferCache.Bcache.AllDirty` | Application/XV6/data/bio.c:76-92 | with as many pinned blocks as buffers none can, and nothing else is cached |
| `BufferCache.Bcache.NothingToRecycle` | Application/XV6/data/bio.c:76-92 | once the log pins every buffer, a block outside it is not cached and no buffer can be recycled for it |
| `Log.Log.WriteLog` | Application/XV6/data/log.c:177-190 | while other processes may hold other blocks, the log slots receive the last contents logged for each block, in order; on an idle cache it completes if there are fewer logged blocks than buffers, and never if there are as many |
| `Log.Log.WriteHead` | Application/XV6/data/log.c:101-113 | one block write: the old header block with the count and the block numbers replaced |
| `Log.Log.FillHead` | Application/XV6/data/log.c:106-110 | the header words are the count followed by the logged block numbers |
| `Log.Log.InstallTrans` | Application/XV6/data/log.c:69-82 | every home block receives its log slot, in order, and is unpinned; nothing else changes |
| `Log.Log.LogWrite` | Application/XV6/data/log.c:213-233 | panics exactly when lh.n has reached the log area or no operation is open; otherwise the block is logged once (absorption) and pinned, and exactly the logged blocks are pinned |
| `Log.Log.ReadHead` | Application/XV6/data/log.c:84-96 | the in-memory header becomes what the header block announces |
| `Log.Log.Commit` | Application/XV6/data/log.c:192-202 | while other processes may hold other blocks: whatever happens, the device has received a prefix of the commit's writes and nothing else; on completion all of them, nothing is pinned, no block outside the log reads differently and no holder is disturbed; on an idle cache it completes if and only if fewer blocks are logged than there are buffers |
| `Log.Log.Recover` | Application/XV6/data/log.c:115-122 | whatever happens, the device has received a prefix of the recovery's writes; at boot it completes, with an empty log |
| `GroupCommit.CountedStep` | Application/XV6/data/log.c:125-174 | every step of every process keeps: outstanding counts the open operations, committing implies none is open, and lh.n plus unspent reservations stay within 10 + 2 x the per-operation bound |
| `GroupCommit.OpenMeansNotCommitting` | Application/XV6/data/log.c:146-154 | while an operation is open nobody is committing, so the panic in end_op is unreachable |
| `GroupCommit.InvStep` | Application/XV6/data/log.c:125-233 | every step that leaves the log inside its area keeps: the cache shows the replayed history, every difference from the durable state is logged, and the device is the durable state part-way through at most one commit; that the history is what processes asked for is HistoryAsAsked |
| `GroupCommit.SoundStep` | Application/XV6/data/log.c:125-233 | with NBUF - 1 slots, which mkfs makes, every step of every process keeps that invariant, or leaves a log that pins every buffer, of which nothing can be written |
| `GroupCommit.RoomyContains` | Application/XV6/data/log.c:125-141 | if the log area has 10 + 2 x the per-operation bound slots, no run ever logs more than it holds |
| `GroupCommit.HistoryAsAsked` | Application/XV6/data/log.c:125-233 | on every run the history is what the processes called for, in the order of the steps: each operation begun and ended, and each log_write with the block and the data it was called with, also for a block that is logged already |
| `GroupCommit.ReadsLastWritten` | Application/XV6/data/log.c:177-233 | on every run each block reads through the cache as its last log_write was called with, or as on the image if it has none; and so it does on the device whenever no operation is open and no commit under way |
| `GroupCommit.OnlyWholeOperationsSurvive` | Application/XV6/data/log.c:125-233 | for every log area of NBUF - 1 slots or more (as mkfs makes it), or as large as the reservations admit: after any interleaving of any number of processes, and any crashes in the recoveries that follow, the recovered device is the replay of a prefix of the history in which no operation is cut in half; and the history is what the processes called for, data included |
| `GroupCommit.LogSpaceBound` | Application/XV6/data/log.c:125-141 | on every run lh.n plus unspent reservations is at most LOGSIZE and every store into lh.block is in bounds, although the size test is made outside the lock |
| `GroupCommit.PanicReachableIff` | Application/XV6/data/log.c:218-219 | with two or more processes the panic in log_write is reachable if and only if the log area has at most 10 + 2 x the per-operation bound slots (mkfs makes 29 for operations of 10 blocks) |
| `GroupCommit.SizeTestRaceIff` | Application/XV6/data/log.c:218-230 | two processes can log more blocks than the area holds if and only if it has fewer than 10 + 2 x the per-operation bound slots and at least one |
| `GroupCommit.BlockLost` | Application/XV6/data/log.c:177-190 | a run with a smaller area in which write_log overwrites the block after the log before anything is committed: no part of the history leaves that block as recovery does |
| `GroupCommit.CrashSafeIff` | Application/XV6/data/log.c:125-233 | every run is crash safe if and only if the area has NBUF - 1 slots, or 10 + 2 x the per-operation bound, or none |
| `GroupCommit.FullLogReached` | Application/XV6/data/log.c:183-184 | a run of the image mkfs makes that logs as many blocks as there are buffers, so that the commit at its end panics before its first write, for the reason BufferCache.Bcache.NothingToRecycle gives |
| `DiskQueue.InvStep` | Application/XV6/data/ide.c:103-168 | every step keeps the queue and disk invariant: a call of iderw, an interrupt, a return, and a holder changing its buffer between calls |
| `DiskQueue.MemIderw` | Application/XV6/data/memide.c:38-60 | iderw of memide.c, as the buffer cache calls it, does to the disk and to the buffer what the synchronous disk of this module does |
| `DiskQueue.QueueRefinesSynchronousDisk` | Application/XV6/data/ide.c:73-168 | in every interleaving of any number of callers, which may use a buffer again and again, and of interrupts: requests are served in the order of submission, only the head is at the controller, the disk is what memide.c would have made of the requests served, and each call returns once, after it was served, with the contents memide.c would have left |
| `DiskQueue.DiskHoldsLastWrite` | Application/XV6/data/ide.c:73-168 | on every run each block of the disk is the data of the last served request that wrote it, or of the image; a write returns with its own data, a read with that of the last write to its block submitted before it |
| `DiskQueue.SubmittedAsHeld` | Application/XV6/data/ide.c:137-157 | a call asks for the block, direction and data its buffer holds, at the end of the queue, and leaves the disk |
| `DiskQueue.Ide.Enqueue` | Application/XV6/data/ide.c:137-157 | the append loop and idestart do the submission step |
| `DiskQueue.Ide.Ideintr` | Application/XV6/data/ide.c:103-131 | the handler does the interrupt step, which is always possible |
| `DiskQueue.Ide.Finished` | Application/XV6/data/ide.c:159-168 | iderw returns exactly when its request has been served, with what the synchronous disk of memide.c would have given it |
| `Inode.LinkKeepsOwned` | Application/XV6/data/fs.c:372-400 | giving a fresh block to one inode keeps: a bit is set exactly for owned blocks, every owner refers to its block, every address is owned |
| `Inode.GrowDirect` | Application/XV6/data/fs.c:378-382 | allocating a direct block at the end of the mapped part extends it by one block and changes no byte of any file |
| `Inode.GrowIndirect` | Application/XV6/data/fs.c:385-388 | allocating the indirect block maps nothing and changes no byte of any file |
| `Inode.GrowEntry` | Application/XV6/data/fs.c:389-397 | entering a block in the indirect block extends the mapped part by one block and changes no byte of any file |
| `Inode.SplicedStep` | Application/XV6/data/fs.c:498-504 | one turn of the write loop puts the next piece in place and leaves every other byte of the file |
| `FileSystem.FileSys.FindFree` | Application/XV6/data/fs.c:60-76 | the lowest clear bit, or none exactly when all are set, for any number of bitmap blocks |
| `FileSystem.FileSys.Balloc` | Application/XV6/data/fs.c:56-78 | hands out the lowest free block, zeroed and marked; panics exactly when every bit is set |
| `FileSystem.FileSys.Bfree` | Application/XV6/data/fs.c:81-95 | clears the bit; panics exactly when it is clear already |
| `FileSystem.FileSys.Bmap` | Application/XV6/data/fs.c:372-400 | the address of a mapped block, changing nothing; or a new block at the end of the mapped part, with every byte kept and the blocks logged named; panics only when no block is free |
| `FileSystem.FileSys.Writei` | Application/XV6/data/fs.c:481-511 | fails exactly past the end of the file, on 32-bit overflow or past the largest file, changing nothing; otherwise the file's bytes become the spliced string and no other file changes; every block it changes is logged; it logs no more than the data blocks, and if the file grows the indirect block, one bitmap block per allocation and the inode's block; panics only if it grows the file and fewer blocks were free than it needs |
| `FileSystem.FileSys.Readi` | Application/XV6/data/fs.c:452-476 | fails exactly past the end or on 32-bit overflow; otherwise returns exactly the slice clipped at size; allocates and logs nothing |
| `FileSystem.FileSys.Itrunc` | Application/XV6/data/fs.c:407-435 | frees exactly the file's data and indirect blocks, the panic in bfree is unreachable, the file becomes empty, no other file changes, and the blocks logged are exactly the inode's and the bitmap blocks of what it frees |
| `FileSystem.FileSys.Ialloc` | Application/XV6/data/fs.c:194-214 | the lowest free inode gets a type, no blocks and no links, and no file changes; panics exactly when none is free |
| `FileSystem.FileSys.Ifree` | Application/XV6/data/fs.c:336-347 | the freeing half of iput: the inode and its blocks are free, no other file changes, and the blocks logged are exactly the inode's and the bitmap blocks of the file's blocks |
| `FileSystem.FileSys.FileWrite` | Application/XV6/data/file.c:115-156 | writes chunk by chunk: the first newoff - off bytes of the source are in place; every operation logs at most 6 + min(4, bitmap blocks) blocks; -1 only when a chunk does not fit |
| `FileSystem.SpliceTwice` | Application/XV6/data/file.c:130-149 | consecutive writes are one write of the concatenation |
| `FileSystem.CountLogged` | Application/XV6/data/fs.c:481-511 | the blocks a write logs are no more than its cost: data blocks, indirect block, and the smaller of allocations and bitmap blocks |
| `FileSystem.ChunkCost` | Application/XV6/data/file.c:117-155 | a chunk of filewrite costs at most four data blocks, an indirect block and four bitmap blocks, besides the inode block: at most 10, for any offset, any alignment and any number of bitmap blocks |
| `TightWrite.TenBlocks` | Application/XV6/data/file.c:117-155 | the bound is reached: on a volume with four bitmap blocks and one free block under each, an unaligned write of 1536 bytes across the direct and indirect blocks logs exactly 10 blocks |
| `TightWrite.ElevenBlocks` | Application/XV6/data/fs.c:336-347 | a file with blocks under ten bitmap blocks whose iput logs eleven blocks, one more than begin_op reserves |
| `FileSystem.OwnershipExact` | Application/XV6/data/fs.c:56-95 | a bit is set exactly for metadata blocks and blocks some inode refers to, no block is referred to twice, and block 0 and metadata are never referred to |
| `Mkfs.Maker.constructor` | Application/XV6/data/mkfs.c:94-113 | an image of zeros with only metadata used |
| `Mkfs.Maker.Ialloc` | Application/XV6/data/mkfs.c:223-234 | the next inode, empty, disturbing nobody; fails exactly when it would lie past the last inode block |
| `Mkfs.Maker.Iappend` | Application/XV6/data/mkfs.c:255-295 | for any sequence of appends to any inodes: the file reads what it read followed by the new bytes, no other file changes, blocks are handed out in order and no more than the bytes need, every used block has one owner and no file has a hole; fails only past the largest file or with fewer blocks left than the bytes need |
| `Mkfs.RootRoundingIff` | Application/XV6/data/mkfs.c:158-163 | after mkfs rounds the root directory's size up, it has no hole and is not too large if and only if the size was not a multiple of the block size |
| `Mkfs.RootOnBoundary` | Application/XV6/data/mkfs.c:115-163 | a run in which 32 entries fill one block of the root, and rounding leaves it with a hole |
| `Mkfs.Maker.Finish` | Application/XV6/data/mkfs.c:158-168 | the finished image has one owner per used block, and satisfies the no-hole invariant if and only if the root directory did not end on a block boundary |
| `Directory.CreateKeeps` | Application/XV6/data/sysfile.c:241-283 | create in a linked directory keeps link counts exact, names distinct and every named inode allocated |
| `Directory.LinkBeginKeeps` | Application/XV6/data/sysfile.c:132-141 | raising nlink before the entry exists keeps the invariant, counting the link under way |
| `Directory.LinkEndKeeps` | Application/XV6/data/sysfile.c:143-151 | writing the entry turns the link under way into a counted one |
| `Directory.LinkAbortKeeps` | Application/XV6/data/sysfile.c:157-164 | the error path lowers nlink again, and frees the inode when its last entry went meanwhile |
| `Directory.UnlinkKeeps` | Application/XV6/data/sysfile.c:184-239 | unlink in a linked directory keeps the invariant, and the panic "nlink < 1" is unreachable |
| `Directory.ReapKeeps` | Application/XV6/data/fs.c:331-352 | iput frees an inode only when no entry of a linked directory names it |
| `Directory.EmptyDirHasOneLink` | Application/XV6/data/sysfile.c:167-181 | an empty directory other than the root has exactly one link |
| `Directory.LinkCountsExact` | Application/XV6/data/sysfile.c:118-283 | over every run of create, link, unlink, open and close with linked parents: nlink is the number of entries other than "." naming the inode in linked directories plus links under way, used names are distinct up to DIRSIZ, entries of linked directories name allocated inodes, and an inode neither named nor referenced has been freed |
| `Directory.CreateExactIff` | Application/XV6/data/sysfile.c:241-283 | create leaves every count exact and every name in a linked directory on an allocated inode, if and only if the parent directory is linked, which it does not test |
| `Directory.LinkExactIff` | Application/XV6/data/sysfile.c:143-151 | the same for the second step of sys_link |
| `Directory.RemovedDirectoryReached` | Application/XV6/data/sysfile.c:118-283 | a run to a directory that was removed while a process is in it, where creating a file, creating a directory and linking still succeed and each leaves a count that is not exact |
| `Directory.FreedParentReached` | Application/XV6/data/sysfile.c:118-283 | a run after which mkdir leaves every count exact, but makes a removed directory count again whose ".." names a freed inode |
| `DirNames.NamesLastGiven` | Application/XV6/data/sysfile.c:118-283 | over every run of create, link, unlink, open and close with linked parents: a name in an allocated directory names exactly the inode the last create or link of that name there gave it, nothing after an unlink, and in a new directory only "." itself and ".." its parent |
| `DirNames.StepMeans` | Application/XV6/data/sysfile.c:118-283 | one operation changes what its own name in its own directory means, and no other name in any directory |
| `Directory.FileTree.DirLookup` | Application/XV6/data/fs.c:524-548 | finds the first used entry whose name agrees up to DIRSIZ |
| `Directory.FileTree.DirLink` | Application/XV6/data/fs.c:550-578 | fails exactly when the name is present; otherwise puts the entry in the first free slot or at the end |
| `Directory.FileTree.IsDirEmpty` | Application/XV6/data/sysfile.c:168-181 | true exactly when every entry from the third on is free |
| `Directory.FileTree.FreeInum` | Application/XV6/data/fs.c:194-214 | the lowest free inode number; panics exactly when there is none |
| `Directory.FileTree.CreateAt` | Application/XV6/data/sysfile.c:241-283 | creates exactly when the name is new and an inode is free, returns an existing file exactly when both are files, refuses otherwise; the invariant is kept exactly unless it creates in a removed directory; ilock can panic only on ".." of a removed directory |
| `Directory.FileTree.LinkFirst` | Application/XV6/data/sysfile.c:118-141 | refuses exactly directories; otherwise raises nlink |
| `Directory.FileTree.LinkSecond` | Application/XV6/data/sysfile.c:143-164 | adds the entry exactly when the name is new, and otherwise undoes the first step; the invariant is kept exactly unless it adds to a removed directory |
| `Directory.FileTree.UnlinkAt` | Application/XV6/data/sysfile.c:184-239 | succeeds exactly when the name is present, is not "." or ".." and is not a non-empty directory, which is never so in a removed directory; then removes the entry, lowers the counts and frees the inode if that was the last link |
| `Directory.FileTree.Iput` | Application/XV6/data/fs.c:331-352 | drops a reference and frees the inode exactly when it was the last one to an unlinked inode |
| `DirFile.EntRoundTrip` | Application/XV6/data/fs.c:572-573 | an entry written with strncpy and read back is the name clipped to DIRSIZ and the low 16 bits of the inode number, for every name and every inode number; the bytes are EncodedAt's and DecodedAt's |
| `DirFile.EncodedAt` | Application/XV6/data/fs.h:53-56 | an entry written at place k: byte 16k is inum % 256, byte 16k + 1 is inum / 256 % 256, and the 14 bytes behind are the name, cut or padded with NULs |
| `DirFile.DecodedAt` | Application/XV6/data/fs.c:517-542 | the entry read at place k has inode number byte 16k plus 256 times byte 16k + 1, and a given name exactly if strncmp finds no difference in the bytes behind |
| `DirFile.FoundInBytes` | Application/XV6/data/fs.c:534-545 | the tree's search for a name finds the first place whose bytes hold a used entry of that name |
| `DirFile.AddsEntry` | Application/XV6/data/fs.c:563-575 | the tree's new entry is the first place whose number bytes are zero, or the end; its bytes are those of the entry and no other byte changes |
| `DirFile.DecodeSplice` | Application/XV6/data/fs.c:572-575 | writing one entry over the bytes of a directory changes that entry and no other |
| `DirFile.Dirlookup` | Application/XV6/data/fs.c:524-548 | through readi on the bytes: the first place k whose bytes hold a used entry of that name, with the inode number byte 16k plus 256 times byte 16k + 1; panics exactly on a file that is no directory, or of a size that is no multiple of 16 when the name is not found before |
| `DirFile.Dirlink` | Application/XV6/data/fs.c:550-578 | through readi and writei: fails exactly when the name is present; otherwise the first free place, or one more, gets inum % 256, inum / 256 % 256 and the name padded with NULs, every other byte is kept, and what is logged and allocated is bounded; panics only for a broken size, a full directory, or fewer than two free blocks |
| `DirFile.Isdirempty` | Application/XV6/data/sysfile.c:167-181 | through readi: true exactly when every entry from the third on is free; panics exactly at a short last entry behind those |
| `DirFile.CreateIn` | Application/XV6/data/sysfile.c:241-283 | on inodes, bitmap and bytes create does to the tree what Directory.Create does, logs every block it changes, and at most nine of them; it panics only for want of an inode, of three blocks or of room in the parent, or for a broken size |
| `DirFile.LinkIn` | Application/XV6/data/sysfile.c:118-164 | sys_link on bytes does what the two steps of Directory do; it fails exactly for a directory or a present name, leaving the tree as it was; at most six blocks are logged |
| `DirFile.UnlinkIn` | Application/XV6/data/sysfile.c:184-239 | sys_unlink on bytes does what Directory.Cut does, and frees the inode exactly on its last link and reference; it succeeds exactly when the name can be removed; at most three blocks are logged, and the bitmap blocks if it frees the inode |
| `DirFile.CreateOnVolume` | Application/XV6/data/sysfile.c:241-283 | create on bytes in a linked directory keeps the link-count invariant of the tree read off the volume |
| `DirFile.UnlinkOnVolume` | Application/XV6/data/sysfile.c:184-239 | so does unlink on bytes |
| `Recovery.EncodesOnce` | Application/XV6/data/fs.h:28-48 | bitmap, inode and data blocks determine the volume: a device encodes at most one |
| `Recovery.DinodeBytes` | Application/XV6/data/fs.h:28-36 | struct dinode byte by byte: type at 0, the signed nlink at 6, size at 8, addresses from 12 on, low bytes first; type 0 is a free inode |
| `Recovery.BitBytes` | Application/XV6/data/fs.c:63-68 | the bitmap byte by byte: block b has bit b % 8 of byte b / 8, bit 0 the lowest |
| `Recovery.PerformsEncodes` | Application/XV6/data/fs.c:219-241 | an operation that changes no block it has not logged takes a device that encodes its first volume to one that encodes its last |
| `Recovery.CutBetween` | Application/XV6/data/log.c:125-174 | a part of a serial history in which no operation is open consists of whole operations |
| `Recovery.RecoveredVolume` | Application/XV6/data/log.c:115-233 | take any run of group commit in which file-system operations follow each other, the last one perhaps unfinished, crash it anywhere and crash the recoveries: the recovered device encodes the volume after the first k operations, where every block has one owner and no file a hole |
| `Path.SplitPrinted` | Application/XV6/data/fs.c:582-595 | splitting a printed list of elements gives the elements back |
| `Path.SplitAtSlash` | Application/XV6/data/fs.c:582-595 | a slash splits a path into the elements before it and those after it |
| `Path.Skipelem` | Application/XV6/data/fs.c:595-618 | the first element, clipped to DIRSIZ, and a rest with exactly the remaining elements, empty exactly after the last one; fails exactly when there is no element |
| `Path.Namex` | Application/XV6/data/fs.c:624-657 | the inode reached by following all elements, or for nameiparent all but the last, from the root or the current directory; fails exactly when a lookup fails, and panics exactly when ilock meets a freed inode |
| `Path.ResolveAppend` | Application/XV6/data/fs.c:624-657 | looking up a path is looking up its first part and then the rest from there |
| `DirNames.ResolveIff` | Application/XV6/data/fs.c:624-657 | the walk ends at an inode if and only if there are inodes on the way, each listed under the next name in the directory before it |
| `Path.WalkStaysAllocated` | Application/XV6/data/fs.c:624-657 | on every reachable tree a lookup from a linked directory never meets a freed inode, so the panic of ilock is unreachable there |
| `Scheduler.InvStep` | Application/XV6/data/proc.c:180-392 | every step of every CPU (fork and its failures, exit, wait, sleep, wakeup, kill, yield, the scheduler loop) keeps the process table's invariant |
| `Scheduler.RunningOnOneCpu` | Application/XV6/data/proc.c:322-356 | in every interleaving each process is RUNNING on at most one CPU |
| `Scheduler.LockHandOff` | Application/XV6/data/proc.c:365-382 | ptable.lock crosses every swtch: whoever calls sched holds it with ncli == 1 and is not RUNNING, and the scheduler goes on holding it; the test of the interrupt flag is Interrupts.FlagRestored |
| `Interrupts.InvStep` | Application/XV6/data/spinlock.c:104-125 | every step of any number of CPUs and threads (pushcli, popcli, a flag change, a switch out and in) keeps: ncli > 0 means interrupts are off and intena tells how the thread found them; no panic of popcli or sched happens |
| `Interrupts.FlagRestored` | Application/XV6/data/proc.c:365-382 | in every interleaving sched never finds interrupts on, and a process that undoes its outermost pushcli has the flag it found, also after being switched to another CPU |
| `Interrupts.CpuState.Pushcli` | Application/XV6/data/spinlock.c:104-114 | interrupts go off, and the first of nested calls remembers the flag |
| `Interrupts.CpuState.Popcli` | Application/XV6/data/spinlock.c:116-125 | panics exactly with interrupts on or without a matching pushcli; the last of nested calls restores the flag |
| `Scheduler.TableLockExcludes` | Application/XV6/data/spinlock.c:24-68 | two threads are never inside critical sections of ptable.lock together, and none is while a scheduler scans the table |
| `Scheduler.PidsDistinct` | Application/XV6/data/proc.c:73-116 | pids of used slots are positive, below nextpid and distinct |
| `Scheduler.NoZombieSleptThrough` | Application/XV6/data/proc.c:227-312 | whenever there is a zombie, its parent exists, is alive and is not asleep in wait |
| `Scheduler.ReapedOnce` | Application/XV6/data/proc.c:227-312 | each exited process is reaped at most once, by the process that forked it or by init, and until then is a zombie; nobody else is ever reaped |
| `Scheduler.WaitGivesUpRightly` | Application/XV6/data/proc.c:302-307 | wait returns -1 if and only if the caller has no children or was killed |
| `Scheduler.Table.Wakeup1` | Application/XV6/data/proc.c:457-465 | exactly the processes sleeping on the channel become RUNNABLE; no other field of any slot changes |
| `Scheduler.Table.KillPid` | Application/XV6/data/proc.c:479-497 | the first slot with that pid is marked killed and, if it was SLEEPING, becomes RUNNABLE; every other field and slot keeps its value; succeeds exactly when some slot has the pid |
| `Sleepers.SleepCall` | Application/XV6/data/proc.c:417-455 | in the machine, sleep gives up the caller's lock and leaves the caller SLEEPING on the channel it was given; no other process changes |
| `Sleepers.WakeupCall` | Application/XV6/data/proc.c:457-475 | in the machine, wakeup makes exactly the processes asleep on its channel RUNNABLE |
| `Sleepers.KillCall` | Application/XV6/data/proc.c:479-500 | in the machine, kill marks the first slot with the pid and makes it RUNNABLE if it was SLEEPING |
| `Sleepers.SleeperStep` | Application/XV6/data/proc.c:227-500 | a process asleep becomes RUNNABLE by exactly the steps that signal its channel or kill it, and keeps its channel; it is marked killed exactly by kill |
| `Sleepers.FallsAsleepIff` | Application/XV6/data/proc.c:302-455 | a process falls asleep on a channel by exactly the steps of sleep on that channel, or of wait on itself with children, none of them a zombie, and not killed |
| `Sleepers.NoWakeupSleptThrough` | Application/XV6/data/proc.c:227-500 | in every interleaving, whoever is asleep went to sleep, on the channel it is on, after the last wakeup of that channel and after it was last killed |
| `Sleepers.KilledNeverWaits` | Application/XV6/data/proc.c:302-312 | in every interleaving no killed process is asleep in wait |
| `Kills.SlotStep` | Application/XV6/data/proc.c:73-312 | every step: a slot is taken exactly by allocproc, with the next pid, and freed exactly by wait or a failing fork; its killed flag is set exactly by a kill of its pid, in use or not, and cleared exactly by wait |
| `Kills.KilledIff` | Application/XV6/data/proc.c:479-497 | on every run a slot carries the killed flag if and only if kill has found its pid there and wait has not reaped it since |
| `Kills.CleanStepIff` | Application/XV6/data/proc.c:479-497 | a step leaves no flag on free slots if and only if it is neither a kill that finds its pid in a free slot nor a fork that fails after its child was killed |
| `Kills.KilledForCause` | Application/XV6/data/proc.c:479-497 | on every run of such steps a process is killed if and only if kill was called with its pid while it had it |
| `Kills.BornKilledReached` | Application/XV6/data/proc.c:73-95 | a run that leaves them: the first process calls kill(0), then fork, and the child is killed before it has run although nobody called kill with its pid |
| `SleepLock.InvStep` | Application/XV6/data/sleeplock.c:22-42 | every step of acquiresleep, releasesleep, sleep and wakeup, and every spurious wakeup, keeps the invariant |
| `SleepLock.MutualExclusionAndNoLostWakeup` | Application/XV6/data/sleeplock.c:22-42 | in every interleaving at most one process is between acquiresleep and releasesleep, and while a process sleeps on the lock, the lock is held or a releaser still owes its wakeup |
| `Heap.UnitsHold` | Application/XV6/data/umalloc.c:69 | the rounded request holds nbytes if and only if the 32-bit rounding does not wrap (or nbytes is 0) |
| `Heap.SbrkGrantsIff` | Application/XV6/data/sysproc.c:45-57 | for every process size, sbrk gives morecore all the bytes it wants or refuses, if and only if they are fewer than 2^31; otherwise it answers without giving memory, or takes memory away |
| `Heap.RequestIff` | Application/XV6/data/umalloc.c:46-69 | the block holds the request and sbrk can be asked for it if and only if nbytes <= 0x7FFFFFF0 |
| `Heap.TooLargeRequest` | Application/XV6/data/umalloc.c:46-61 | malloc(0x80000000): the rounding does not wrap, but sbrk answers the old break and gives nothing |
| `Heap.MergeNextKeeps` | Application/XV6/data/umalloc.c:33-37 | coalescing with the next block leaves an address-ordered, fully coalesced cycle covering the same units |
| `Heap.MergePrevKeeps` | Application/XV6/data/umalloc.c:38-42 | coalescing with the previous block completes the list, which covers exactly the freed units more |
| `Heap.FreeSound` | Application/XV6/data/umalloc.c:24-44 | free, from the place found to the final list, keeps the heap invariant |
| `Heap.TakeWhole` | Application/XV6/data/umalloc.c:75-77 | taking a block that fits exactly keeps the invariant |
| `Heap.TakeTail` | Application/XV6/data/umalloc.c:78-84 | taking the tail of a larger block keeps the invariant |
| `Heap.AddArena` | Application/XV6/data/umalloc.c:46-61 | units from sbrk enter as one live block, which morecore then frees |
| `Heap.Conserved` | Application/XV6/data/umalloc.c:24-90 | free plus live units equal all units obtained from sbrk |
| `Heap.Allocator.FindPlace` | Application/XV6/data/umalloc.c:30-32 | the search ends from any starting point, at the free block after which the freed block belongs |
| `Heap.Allocator.Free` | Application/XV6/data/umalloc.c:24-44 | the block is live no more, everything else stays live, one free block contains its units, and the cycle is address-ordered, disjoint and coalesced |
| `Heap.Allocator.Morecore` | Application/XV6/data/umalloc.c:46-61 | the new units are free, some free block is large enough, and nothing changes when sbrk refuses; the header goes astray exactly when sbrk answers a request of 2^31 bytes or more |
| `Heap.Allocator.Search` | Application/XV6/data/umalloc.c:74-89 | the search terminates, also after morecore has merged into freep, and asks sbrk at most once |
| `Heap.Allocator.Malloc` | Application/XV6/data/umalloc.c:63-90 | for every request: up to 0x7FFFFFF0 bytes, a new live block, disjoint from all others and from the free list, that holds the request, or 0 with nothing changed and only when sbrk refuses; above, never a block that holds it |
| `PageTable.OnePlaceOnly` | Application/XV6/data/vm.c:35-80 | a page mapped for the user is not free, not a directory, not a table, and mapped at no other place |
| `PageTable.PutPteExact` | Application/XV6/data/vm.c:60-80 | a store through walkpgdir's pointer changes one entry of one address space |
| `PageTable.KeepsOtherSpaces` | Application/XV6/data/vm.c:221-298 | growing, shrinking or mapping in one address space leaves the mappings and page contents of every other one |
| `PageTable.BuiltThenDismantled` | Application/XV6/data/vm.c:282-298 | building an address space and dismantling it again loses no page |
| `PageTable.GrownUndone` | Application/XV6/data/vm.c:234-239 | the first failure path of allocuvm restores the map |
| `PageTable.GrownUndone2` | Application/XV6/data/vm.c:240-246 | the second failure path restores it too, and frees the page in hand |
| `PageTable.RowsMakeKernelHalf` | Application/XV6/data/vm.c:103-115 | what the rows of kmap map, page by page: physical memory from KERNBASE on and the devices at their own addresses, nothing else, never for the user, and writable except between EXTMEM and data |
| `PageTable.KernelHalfKept` | Application/XV6/data/vm.c:219-279 | growing or shrinking an address space, failed or not, keeps its kernel half |
| `PageTable.KernelHalfOfOthers` | Application/XV6/data/vm.c:219-345 | and that of every other address space |
| `AddressSpace.Vm.Kalloc` | Application/XV6/data/kalloc.c:82-95 | the head of the free list becomes the kernel's; fails exactly on an empty list |
| `AddressSpace.Vm.Kfree` | Application/XV6/data/kalloc.c:59-77 | the page is filled, linked and free; panics exactly on a misaligned or foreign address |
| `AddressSpace.Vm.FreeRange` | Application/XV6/data/kalloc.c:46-53 | exactly the whole pages between two addresses become free |
| `AddressSpace.Vm.Walk` | Application/XV6/data/vm.c:35-55 | the table holding the entry, allocated zeroed if asked; no mapping of any address space changes; fails exactly when there is no table and none is wanted or no page is free |
| `AddressSpace.Vm.MapPages` | Application/XV6/data/vm.c:57-80 | the pages of a byte range, aligned or not, map the frames with the given permissions and nothing else changes; panics only on a page mapped already; runs out of memory only if fewer pages were free than tables were needed |
| `AddressSpace.Vm.UserStore` | Application/XV6/data/vm.c:60-80 | a process stores a word into its memory exactly where its page is mapped user-writable; one word of one page changes and no mapping does |
| `AddressSpace.Vm.MissingTable` | Application/XV6/data/vm.c:266-269 | the directory skip of deallocuvm misses no mapped page |
| `AddressSpace.Vm.DeallocUvm` | Application/XV6/data/vm.c:251-279 | exactly the pages in the range are unmapped and freed |
| `AddressSpace.Vm.AllocUvm` | Application/XV6/data/vm.c:219-249 | the new pages are zeroed, on frames that were free, user-writable; if none of them was mapped, failure leaves the map as before and loses no page, and there is no panic; fails only if fewer pages were free than two per new page |
| `AddressSpace.Vm.FreeVm` | Application/XV6/data/vm.c:281-298 | every user page, table and the directory are free again, and nothing else changes |
| `AddressSpace.Vm.SetupKvm` | Application/XV6/data/vm.c:102-136 | a directory with no user page, in whose upper half exactly physical memory from KERNBASE on and the devices are mapped, none of it for the user and all of it writable except between EXTMEM and data; on failure every page is back, and fewer than 67 pages were free |
| `AddressSpace.Vm.CopyUvm` | Application/XV6/data/vm.c:313-345 | equal contents and flags on fresh frames, with the kernel half SetupKvm makes, the source untouched; panics only on an unmapped source page; on failure every page is back, and fewer than 67 + two per page were free |
| `Shell.GetTokenImpl` | Application/XV6/data/sh.c:272-315 | the loops of gettoken compute the token function |
| `Shell.RedirsImpl` | Application/XV6/data/sh.c:381-404 | the loop of parseredirs computes the redirections at a position, or the error for a missing file |
| `Shell.ArgsImpl` | Application/XV6/data/sh.c:436-450 | the loop of parseexec computes the argument list and redirections, or the syntax or length error; what these are for a line as typed is ShellGrammar.ParsesIffTyped |
| `Shell.ParsePipeImpl` | Application/XV6/data/sh.c:368-379 | parsepipe terminates and computes the pipe function of the grammar |
| `Shell.ParseLineImpl` | Application/XV6/data/sh.c:351-366 | parseline terminates on every input, by remaining text and grammar level, and computes the line function of the grammar |
| `Shell.PrintParses` | Application/XV6/data/sh.c:351-453 | wherever a canonical print of a tree stands in a line, followed by something that ends a command, parsing it gives the tree |
| `Shell.RoundTrip` | Application/XV6/data/sh.c:334-453 | for every command tree with well-formed words and at most MAXARGS-1 arguments, parsing its canonical parenthesised print gives the same tree |
| `ShellGrammar.TypedParses` | Application/XV6/data/sh.c:272-453 | every line typed by the grammar parses to the tree it means: words with redirections (<, >, >>) before, between and behind them give exactly these words with exactly these redirections around them, the last outermost; a | b | c and a ; b ; c nest to the right, & wraps its pipeline, and parentheses group; any white space |
| `ShellGrammar.ParsedIsTyped` | Application/XV6/data/sh.c:334-453 | every line the parser accepts is typed by the grammar, with at most MAXARGS - 1 words a command |
| `ShellGrammar.ParsesIffTyped` | Application/XV6/data/sh.c:334-453 | the parser accepts a line if and only if the grammar has it, and builds the tree the grammar gives it |
| `Shell.NulTerminate` | Application/XV6/data/sh.c:455-500 | writes NUL exactly at the ends of the command's tokens |
| `Shell.TokensReadBack` | Application/XV6/data/sh.c:455-500 | after nulterminate every argument and file name, read as a C string, is its token |
| `Shell.ParseCmdImpl` | Application/XV6/data/sh.c:334-349 | parses, rejects leftovers, and leaves a buffer in which every token of the tree reads back |
| `Grep.HereIsPrefix` | Application/XV6/data/grep.c:84-96 | matchhere holds if and only if a prefix of the text is in the declarative language of the pattern |
| `Grep.StarIsPrefix` | Application/XV6/data/grep.c:98-106 | matchstar holds if and only if some number of fitting characters can be skipped so that the rest matches |
| `Grep.MatchStarImpl` | Application/XV6/data/grep.c:98-106 | the loop of matchstar computes the recursive definition |
| `Grep.Match` | Application/XV6/data/grep.c:72-82 | returns true if and only if some substring, anchored as ^ and a final $ require, is in the language of the pattern |
| `Pipe.WrappedCompare` | Application/XV6/data/pipe.c:79-112 | counters at most PIPESIZE apart compare correctly after wrapping modulo 2^32 |
| `Pipe.Pipe.WriteFrom` | Application/XV6/data/pipe.c:78-98 | accepts bytes in order until done or full; sleeps or fails only when PIPESIZE bytes are in flight |
| `Pipe.Pipe.Read` | Application/XV6/data/pipe.c:100-121 | delivered bytes stay a prefix of accepted ones; returns n bytes or all there are; returns nothing for n > 0 only when the pipe is drained and the write end closed |
| `Pipe.Pipe.Close` | Application/XV6/data/pipe.c:59-75 | the pipe is freed exactly when both ends are closed |
| `PipeRun.DeliveredInOrder` | Application/XV6/data/pipe.c:59-121 | in every interleaving of any number of readers and writers, kills and closes included, what was delivered is a prefix of what was accepted, with at most PIPESIZE bytes in flight |
| `PipeRun.WriteInOrder` | Application/XV6/data/pipe.c:78-98 | whatever the others do meanwhile and however often it sleeps, what a call of pipewrite has stored is a prefix of its bytes, in order, as far as it has come; all of them once it has returned, unless the reader is gone or the writer killed |
| `PipeRun.OnlyWritersAdd` | Application/XV6/data/pipe.c:59-121 | nothing else is accepted, and nothing accepted is taken back |
| `PipeRun.RunWriteOn` | Application/XV6/data/pipe.c:78-98 | Pipe.WriteFrom does the writer's step of the machine and sleeps exactly if the step does |
| `PipeRun.RunReadOn` | Application/XV6/data/pipe.c:100-121 | Pipe.Read does the reader's step and returns what the step delivers |
| `PipeRun.CloseOn` | Application/XV6/data/pipe.c:59-75 | Pipe.Close does the closing step |
| `PipeRun.SleepStepIff` | Application/XV6/data/pipe.c:83-95 | a step keeps "readers sleep only on an empty open pipe, writers only on a full one with a reader" if and only if it is not a writer that gives up, with more than PIPESIZE bytes left and readers asleep |
| `PipeRun.NoLostWakeup` | Application/XV6/data/pipe.c:78-121 | on every run without such a return no wakeup is lost, and readers and writers never sleep together |
| `PipeRun.LostWakeupReached` | Application/XV6/data/pipe.c:83-89 | a run in which a killed writer fills the pipe and returns without the wakeup: a reader sleeps on beside a full pipe |
| `BootMap.PlaceInMap` | Application/BootManager2D/src/DemoGame.c:42-54 | the two inner loops overwrite exactly the chosen escape cell |
| `BootMap.PlaceBootEntries` | Application/BootManager2D/src/DemoGame.c:35-57 | the loops compute the placement function of the map and the random numbers; they divide by zero exactly with more than 12 entries, after placing 12 |
| `BootMap.AllPlaced` | Application/BootManager2D/src/DemoGame.c:35-57 | with at least as many escape cells as the constant, every entry ends in exactly one former escape cell as its own value and every other cell is unchanged, whatever rand returns |
| `BootMap.PlacementIff` | Application/BootManager2D/src/DemoGame.c:40-54 | all entries are placed for every random sequence if and only if the map has at least that many escape cells |
| `BootMap.KeyLoop` | Application/BootManager2D/src/DemoGame.c:100-171 | the key loop computes the walk function of the keys, reading signed cells as unsigned |
| `BootMap.KeyMoves` | Application/BootManager2D/src/DemoGame.c:109-170 | up, down, left and right move by one row or column in that direction if the cell there is passable, nothing else moves the player, and exactly escape gives up |
| `BootMap.FollowRoute` | Application/BootManager2D/src/DemoGame.c:100-171 | every route over passable neighbours has keys that walk it |
| `BootMap.WalkIsRoute` | Application/BootManager2D/src/DemoGame.c:100-171 | every walk is a route over passable neighbours |
| `BootMap.CanBootIff` | Application/BootManager2D/src/DemoGame.c:100-171 | an entry can be booted from a cell if and only if a route over passable cells leads to a cell of that entry |
| `BootMap.WalkSafe` | Application/BootManager2D/src/DemoGame.c:109-170 | for every key sequence the player stays in bounds on passable cells, and what is booted is what the cell says |
| `BootMap.BootsWhatWasPlaced` | Application/BootManager2D/src/DemoGame.c:35-171 | placement and walk together: a booted entry is one of the boot entries, and the player stands on the former escape cell where it was put |

## Left out

- Single-block device writes are atomic, and blocks that operations log lie outside the log area: both are assumptions of the crash results.
- BufferCache.Bcache.constructor: all buffers start as (device 0, block 0), so one buffer per block is stated for every other pair.
- Log.Log.Commit: the blocks of the log and the logged blocks are not held by others when it reads them, so that it does not wait; completion is stated for a cache no other process is using.
- GroupCommit.PanicReachableIff: stated for two or more processes and a device with enough blocks outside the log to log them.
- DiskQueue.Ide.Ideintr: one interrupt per started request and no device errors; controller registers, the two-disk test and idewait are not modelled.
- FileSystem.FileSys.Bmap: a block beyond the end of the mapped part is not described; readi and writei never ask for one.
- Log.Log.WriteLog: as for Commit, the blocks it reads are not held by others.
- FileSystem.FileSys.Writei: device files, and the state after a panic for want of blocks, are not described.
- Mkfs.Maker.Iappend: the contents of the super block, inode blocks and directory entries as bytes are not modelled.
- AddressSpace.Vm.MapPages: physical addresses are page-aligned, as every caller passes them.
- Directory.LinkCountsExact: system calls are atomic except that a link is two steps; directories do not run out of space (DirFile says when they do).
- DirFile.CreateIn: the call of one process, past the path lookup; major and minor numbers are not part of an inode; the tree is stated for inode numbers below 2^16.
- DirFile.LinkIn: as CreateIn, and the inode is not freed on the error path, where its links are what they were before.
- DirFile.UnlinkIn: as CreateIn; whether the caller holds the last reference is a parameter.
- Recovery.RecoveredVolume: operations follow each other, though several may share a commit; that operations of different processes, interleaved under inode locks, act like one after the other is not shown.
- GroupCommit.InvStep: steps that log more blocks than the area holds are SoundStep's and CrashSafeIff's.
- Log.Log.WriteHead: the header block is not held by others, so that it does not wait.
- Log.Log.InstallTrans: the log and home blocks are not held by others, so that it does not wait.
- The inode cache's slots (iget, ilock, idup) and the open-file table's reference counts: references are a multiset in Directory.
- Path.Namex: one lookup against a tree that does not change meanwhile.
- Scheduler.PidsDistinct: pids are unbounded; nextpid wraps after 2^31 forks in the source.
- Scheduler.InvStep: sleep is called with one other spin lock held; init does not exit; swtch is a step that changes the running thread, and running out of memory in fork is a step that may happen; kernel stacks, trap frames and open files are not part of it.
- Sleepers.NoWakeupSleptThrough: safety only: that a RUNNABLE process runs in the end is not stated.
- SleepLock.MutualExclusionAndNoLostWakeup: one lock, and safety only: that a waiting process gets the lock in the end is not stated.
- Heap.Allocator.Malloc: the size of the process is a multiple of 8, so that headers are aligned; what happens after a header went astray is not described.
- AddressSpace.Vm.DeallocUvm: the old size is at most KERNBASE, as process sizes are; the entry is cleared before its page is freed; the source does it in the reverse order with nothing in between.
- AddressSpace.Vm.CopyUvm: the state after its panics is not described; the TLB and control registers are not modelled.
- Shell.RoundTrip: the canonical print has parentheses around every operand and redirections outside them; lines as typed are ShellGrammar's.
- Pipe.Pipe.WriteFrom: each method is one critical section of the pipe's lock; wakeups are PipeRun's.
- PipeRun.NoLostWakeup: safety only; an end may be closed at any time, more freely than the open-file table allows.
- Interrupts.InvStep: an interrupt appears only as a change of the flag.
- BootMap.PlaceBootEntries: each entry's texture is made successfully.
- BootMap.KeyLoop: MapValue counts as reset each turn; the source leaves it uninitialised on keys that read no cell.
- Memory ordering: sequential consistency with an atomic exchange.
- UEFI services, graphics, the 3D boot manager, Wordle, the maze and image parsing, `xv6.c`'s loader: foreign calls, floating point or single loops with easy claims.
- `grep()`'s buffered reading, device drivers, traps, assembly, user utilities, `exec`, console and printing.
