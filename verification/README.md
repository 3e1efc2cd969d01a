# Proofs about the xv6 kernel, its file system and its user programs

This project models the parts of the `domaci1` kernel and user programs that carry
the hard arguments, and proves what they promise for every input, every interleaving
and every run. Code that changes things in place is a class or a method with the
source's loops, tied by its postcondition to a function or a relation on values; the
theorems are about those. Protocols between processes are machines whose steps are the
spin-lock critical sections, or finer where the protocol itself is about locks, and the
theorems hold in every state that any sequence of steps can reach. Nothing bounds the
number of processes, CPUs, operations or steps.

| file | models |
|---|---|
| `Machine.dfy` | widths, limits and the memory layout shared by the rest |
| `Blocks.dfy` | 512-byte blocks as bytes, 32-bit words and bits |
| `CrashLog.dfy` | the write-ahead log as block writes, with crashes in between |
| `CrashFiles.dfy` | files across crashes: the file system's transactions through the log |
| `LogAdmission.dfy` | `begin_op`, `log_write` and `end_op` by concurrent operations |
| `FileLayout.dfy`, `FileSystem.dfy` | bitmap, inodes, block map, file contents, chunked writes |
| `MakeFs.dfy` | the images `mkfs` makes |
| `BufferCache.dfy` | the LRU list and the cache against a plain block map |
| `ProcTable.dfy` | `fork`, `exit`, `wait`, `kill`, scheduling on one process table |
| `SleepLock.dfy` | sleep locks over `sleep` and `wakeup`, lock by lock |
| `Pipe.dfy` | the pipe's ring, readers and writers |
| `PageTables.dfy`, `Vm.dfy` | the page allocator and address spaces, page by page |
| `ExecStack.dfy` | the argument stack of a new program |
| `Umalloc.dfy` | the user-level allocator |
| `Shell.dfy`, `ShellGrammar.dfy` | the shell's parser, and the grammar it implements |
| `Grep.dfy` | the regular-expression matcher |
| `Console.dfy` | the colour menu |

## What the proofs found

- The log area that `mkfs` lays out has 30 blocks with its header, and `log_write`
  tests its limits before it takes the lock. With operations of at most *b* distinct
  blocks, up to 10 + 2*b* blocks can be logged at once. No run panics if and only if
  that is below both limits of the guard; no commit overruns the area if and only if
  that is below its size. So operations of nine blocks are safe on the shipped image
  and operations of `MAXOPBLOCKS` = 10 blocks are not. One chunk of `filewrite` logs at
  most 6 blocks and the bitmap blocks, 7 on the shipped image.
- A writer that has been killed and fills an empty pipe leaves without waking the
  readers, so a reader can sleep next to 512 bytes of data. That is the only way: a
  step leaves a reader asleep next to data exactly when it is such a write.
- Closing the colour menu brings back every character. A cell under the menu gets the
  current colour exactly if its character is a 7-bit one or the colour is 0xff: the
  backup is an array of `char`, and the sign extends into the attribute byte.
- `exec` builds its stack exactly when there are at most 32 arguments and everything
  fits one page; the guard page stops anything longer, with one exception. `uva2ka` does
  not ask whether `walkpgdir` found a page table, and a push that wraps around 32 bits
  can land where the kernel half has none. It follows a null entry if and only if some
  push that is reached wraps to an address from P2V(PHYSTOP) to DEVSPACE. A 40 MB
  argument below a stack that ends at 0x5000 does; no argument under 32 MB does.
- The buffer cache has a buffer for every request if and only if pinned and held
  buffers together are fewer than all. With operations of *b* blocks other holders may
  have at most 19 - 2*b*; at `MAXOPBLOCKS` = 10 the log alone can pin all 30.
- The shell parses `>>` to the same redirection as `>`, so that it does not append.
- `malloc` computes its size in 32 bits. The block holds the bytes asked for if and only
  if they are at most 0xFFFFFFF8; above that the sum wraps and the block is a header with
  nothing behind it. When no free block is large enough, requests above 0x7FFFFFF0 ask
  `sbrk` for a negative or wrapped amount.

## Reading the code as the model does

- The disk is a sequence of blocks, written one block at a time (`memide.c`). A crash
  keeps the disk and loses everything else.
- A buffer, an in-memory inode and a page are values in sequences that the methods
  reassign. Ghost state says who owns each block, page or unit; each has one owner, so
  that nothing is reachable twice is part of the invariant.
- A panic is an answer (`ok` is false, `Panic`, `Missing`, `Remap`) wherever it can
  happen, and is proved not to happen where the source relies on that.  So are a null
  entry that is followed and a loop that leaves its array: the model stops there.
- `sbrk`'s outcome, whether the console's input buffer is full or its line blank, the
  value of `log.outstanding` in `log_write`, and the text of the menu are parameters.
- In `deallocuvm` the model clears the entry before it frees the page; the source does
  it in the other order, and the two writes are to different pages.
- Where `parseexec` fills `argv` behind a command that redirections already wrap, the
  model collects words and redirections and builds the tree at the end.

## Model

| member | source | states |
|---|---|---|
| `CrashLog.Log.LogWrite` | domaci1/kernel/log.c:213-233 | refused exactly at the header's or the area's limit or with no operation outstanding; a block already listed is absorbed, another appended; the disk is not touched and the new data is what a read returns |
| `CrashLog.Log.WriteLog` | domaci1/kernel/log.c:177-190 | does exactly the log-copy writes, in order, and leaves the cached home blocks alone |
| `CrashLog.Log.WriteHead` | domaci1/kernel/log.c:101-113 | one block write, of the header that HeaderCommits shows to record the transaction |
| `CrashLog.Log.InstallTrans` | domaci1/kernel/log.c:69-82 | a panic exactly if a listed block or its log block is not on the disk; with a published transaction exactly its home writes, cache and disk then equal; at boot, whatever the header lists, the copies in turn |
| `CrashLog.Log.ReadHead` | domaci1/kernel/log.c:85-96 | the in-memory list is the one on disk, empty if the signed count is negative; the loop stays in the array exactly if the count is at most LOGSIZE |
| `CrashLog.Log.RecoverFromLog` | domaci1/kernel/log.c:115-122 | from any header: succeeds exactly if the count fits and all blocks are on the disk, and then ends with an empty log and the listed copies done in turn; on a disk that a commit left, exactly the recovery writes the crash theorems are about |
| `CrashLog.CopiedIsInstalled` | domaci1/kernel/log.c:69-82 | copying in turn is the home writes of the recorded transaction, when none of them is in the log itself |
| `CrashLog.Log.Commit` | domaci1/kernel/log.c:192-202 | does exactly the commit writes the crash theorems are about, empties the transaction, and keeps what a read returns for every home block |
| `CrashLog.BeforeCommitPoint` | domaci1/kernel/log.c:177-190 | any prefix of the log copies leaves the home blocks and the empty header as they were |
| `CrashLog.HeaderCommits` | domaci1/kernel/log.c:98-113 | writing the header over complete log copies makes the transaction the recorded one |
| `CrashLog.InstallPrefix` | domaci1/kernel/log.c:69-82 | any prefix of the installation keeps the recorded transaction recoverable |
| `CrashLog.RecoverCommitted` | domaci1/kernel/log.c:115-122 | recovery of a committed disk, stopped anywhere, is still committed, and completed has the transaction in place and an empty header |
| `CrashLog.RecoverSettled` | domaci1/kernel/log.c:115-122 | recovery of a disk without a transaction, stopped anywhere, changes no home block |
| `CrashLog.CrashesKeepCommitted` | domaci1/kernel/log.c:115-122 | the same through any number of recoveries that crash |
| `CrashLog.CrashesKeepSettled` | domaci1/kernel/log.c:115-122 | likewise when there is nothing to install |
| `CrashLog.CommitKeepsHome` | domaci1/kernel/log.c:192-202 | a commit that is not interrupted leaves the home blocks as the transaction says |
| `CrashLog.CrashAtomicity` | domaci1/kernel/log.c:69-202 | a crash after any prefix of the commit, any number of crashed recoveries, then one that completes: the home blocks are wholly old or wholly new, old exactly before the header write, and the header is empty |
| `CrashLog.RunIsAtomic` | domaci1/kernel/log.c:69-202 | over any run of commits and crashes the home blocks are those of the commits that reached their header write, applied whole and in order |
| `CrashFiles.FilesBeyondLog` | domaci1/tools/mkfs.c:20-21 | what lies before the inodes says nothing about any file |
| `CrashFiles.FoundOnDisk` | domaci1/kernel/fs.c:297-306 | the inodes read from a disk with nothing to install make a valid file system with the same files |
| `CrashFiles.FilesSurvive` | domaci1/kernel/log.c:69-202 | a commit cut short after any number of writes, any crashed recoveries and one that completes: the disk holds the file system before the operation or the one after it, whole, decided by the header write |
| `CrashFiles.FilesSurviveRuns` | domaci1/kernel/log.c:69-202 | over any run of operations with crashes anywhere: the disk is a valid file system with the files of the last operation whose header was written |
| `CrashFiles.WriteAtomically` | domaci1/kernel/fs.c:477-507 | writei as one transaction: the file spliced, and after every crash all files as before it or all as after it |
| `CrashFiles.TruncateAtomically` | domaci1/kernel/fs.c:405-433 | the same for itrunc |
| `CrashFiles.ImageOnDisk` | domaci1/tools/mkfs.c:187-192 | the image mkfs makes is a state such runs start from |
| `LogAdmission.NextInv` | domaci1/kernel/log.c:125-174 | every step of every interleaving keeps reservations, counts and the list in step |
| `LogAdmission.Reservation` | domaci1/kernel/log.c:125-141 | in every state of every run: committing implies none outstanding, listed blocks are distinct, and listed blocks plus what running operations may still log stay within LOGSIZE |
| `LogAdmission.CommitIsWhole` | domaci1/kernel/log.c:145-174 | a commit happens with no operation running and writes exactly the blocks logged by ended operations |
| `LogAdmission.NobodyLost` | domaci1/kernel/log.c:125-174 | in every run, whatever commits in between, each operation that arrived waits or has begun, and each that has begun runs or has ended |
| `LogAdmission.NobodyStuck` | domaci1/kernel/log.c:125-174 | with no operation running, whoever waits can begin, at once or after the commit under way |
| `LogAdmission.NoPanic` | domaci1/kernel/log.c:213-222 | below both limits of the guard no run panics |
| `LogAdmission.PanicReachable` | domaci1/kernel/log.c:213-222 | at or above a limit some run panics |
| `LogAdmission.PanicFreeIff` | domaci1/kernel/log.c:213-222 | no run panics if and only if 10 + 2 * budget is below LOGSIZE and below size - 1 |
| `LogAdmission.OverflowReachable` | domaci1/kernel/log.c:218-230 | two operations past the guard can fill the area beyond its last block |
| `LogAdmission.FitsIff` | domaci1/kernel/log.c:218-230 | every list fits the log area if and only if the area cannot hold a block or 10 + 2 * budget is below its size |
| `LogAdmission.ShippedImage` | domaci1/tools/mkfs.c:23-25 | with the 30 blocks mkfs sets aside, budgets up to nine neither panic nor overrun and a budget of ten does |
| `Blocks.SetWord` | domaci1/kernel/fs.c:389-391 | the stored word reads back and no other word of the block changes |
| `Blocks.PutBit` | domaci1/kernel/fs.c:66-68 | setting or clearing a bit of the map changes that bit only |
| `FileLayout.PutInode` | domaci1/kernel/fs.c:219-236 | an inode stored in its slot reads back, and the other inodes of the block are untouched |
| `FileLayout.BitFlips` | domaci1/kernel/fs.c:56-95 | flipping the bit of one block changes the ownership of that block only |
| `FileLayout.StoreKeepsPtrs` | domaci1/kernel/fs.c:370-398 | putting a free block in an empty slot keeps every block reachable through exactly one slot |
| `FileLayout.DropInode` | domaci1/kernel/fs.c:405-433 | clearing an inode whose blocks are released keeps all other pointers matched |
| `FileLayout.OthersUnchanged` | domaci1/kernel/fs.c:449-507 | a change to what one inode owns keeps the contents of every other file |
| `FileSystem.Fs.Balloc` | domaci1/kernel/fs.c:56-78 | the lowest free block, marked and zeroed, and never a metadata block; fails only when no block is free |
| `FileSystem.Fs.Bfree` | domaci1/kernel/fs.c:81-95 | clears one bit; a panic exactly if it was clear |
| `FileSystem.Fs.BmapDirect` | domaci1/kernel/fs.c:376-380 | the direct case: the block behind the address, taken if it is zero |
| `FileSystem.Fs.BmapIndirect` | domaci1/kernel/fs.c:381-396 | the indirect case: the indirect block and the entry, each taken only if it is zero |
| `FileSystem.Fs.Bmap` | domaci1/kernel/fs.c:370-398 | for any block number and any file, holes included: the block behind it, new and zeroed if there was none, no other slot changed but the indirect block's, all other files kept; nothing changes if it exists; a panic past the largest file, and else only with no block left |
| `FileSystem.ReachedMapped` | domaci1/kernel/fs.c:370-398 | in a file without holes, asked for at most the block after its end, it leaves a file without holes |
| `FileSystem.Fs.BmapNext` | domaci1/kernel/fs.c:467-495 | so readi and writei get the block of their offset, with nothing allocated inside the file, and what is logged is bounded |
| `FileSystem.Fs.Iupdate` | domaci1/kernel/fs.c:219-236 | the disk inode becomes the in-memory one, the rest of the disk stays |
| `FileSystem.UpdateSyncs` | domaci1/kernel/fs.c:219-236 | that sync moves no pointer and unsyncs no other inode |
| `FileSystem.Fs.Readi` | domaci1/kernel/fs.c:449-473 | refused exactly past the end or on overflow; otherwise the slice of the file's bytes, cut at its end, with nothing allocated or changed |
| `FileSystem.Fs.Writei` | domaci1/kernel/fs.c:477-507 | refused exactly past the end or beyond the largest file; otherwise the file is the splice, every other file and inode is untouched, memory and disk agree, only logged blocks changed, and a chunk logs at most 10 blocks, or 6 and the bitmap |
| `FileSystem.WriteGrown` | domaci1/kernel/fs.c:502-505 | if the size grew, storing it and the inode restores the invariant with the file spliced |
| `FileSystem.WriteInside` | domaci1/kernel/fs.c:502-506 | if it did not, the disk inode is still right without iupdate |
| `FileSystem.CountLogged` | domaci1/kernel/file.c:126-132 | data, bitmap, indirect and inode blocks of one chunk come to at most 10, and to at most 6 and the bitmap blocks |
| `FileSystem.ChunksFitLog` | domaci1/kernel/file.c:126-144 | in every run in which each operation logs within the blocks of one such chunk, on a bitmap of up to three blocks: log_write never panics and the shipped log is never overrun |
| `FileSystem.ReleaseStep` | domaci1/kernel/fs.c:412-429 | the next block itrunc frees is still in use, so "freeing free block" cannot happen |
| `FileSystem.TruncateDone` | domaci1/kernel/fs.c:405-433 | freeing every slot and clearing the inode empties the file and keeps every other file |
| `FileSystem.Fs.Itrunc` | domaci1/kernel/fs.c:405-433 | exactly the blocks of the file become free, the file is empty in memory and on disk, all other files are as they were, and only bitmap blocks and the inode's block are logged |
| `FileSystem.BlockOwnership` | domaci1/kernel/fs.c:370-433 | set bits are exactly the metadata and the blocks some inode reaches, each reached through one slot of one inode, all in the data area |
| `FileSystem.SpliceTwice` | domaci1/kernel/file.c:133-152 | writing two pieces one after the other is writing them together |
| `FileSystem.WrittenStops` | domaci1/kernel/file.c:133-152 | a chunk refused after whole chunks leaves exactly the bytes that fit below the largest file size |
| `FileSystem.Fs.Filewrite` | domaci1/kernel/file.c:116-155 | the file is the splice of all bytes, or of as many whole chunks as fit, the offset moves with it, -1 exactly if some are missing, other files untouched, and the blocks of every transaction within the bound that ChunksFitLog needs |
| `FileSystem.Fs.Mount` | domaci1/kernel/fs.c:297-306 | a disk that holds a valid file system, with the inodes read from it, is a state the operations start from |
| `MakeFs.MarkNext` | domaci1/tools/mkfs.c:343-353 | taking the next block in order is what the kernel's balloc would do to the free map written at the end |
| `MakeFs.MarkedUsed` | domaci1/tools/mkfs.c:308-322 | with the first n blocks marked, a block's bit is set exactly if it is below n |
| `MakeFs.BlankValid` | domaci1/tools/mkfs.c:187-192 | the zeroed disk with the metadata marked is a valid file system of empty files |
| `MakeFs.Image.constructor` | domaci1/tools/mkfs.c:170-192 | the image main starts from |
| `MakeFs.Image.Ialloc` | domaci1/tools/mkfs.c:294-306 | the next inode number, its inode on disk with the type given, an empty file, all others untouched; mkfs stops only at the end of the disk |
| `MakeFs.Image.MapDirect` | domaci1/tools/mkfs.c:342-346 | the block at the end of a file, direct case, taken exactly if the file ends on a block boundary |
| `MakeFs.Image.MapIndirect` | domaci1/tools/mkfs.c:347-357 | the same behind the indirect block |
| `MakeFs.Image.Iappend` | domaci1/tools/mkfs.c:326-368 | exactly the bytes given at the end of the file, every other file untouched, in exactly the blocks that takes; fails exactly if the file gets too large or the disk has no block left |
| `MakeFs.Image.Run` | domaci1/tools/mkfs.c:71-234 | any calls of ialloc and iappend: each file is the concatenation of what was appended to it and each inode has its type; they stop exactly if a file gets too large or the blocks run out |
| `MakeFs.Image.FirstBits` | domaci1/tools/mkfs.c:308-319 | the loop computes the bitmap block for so many blocks |
| `MakeFs.BitsSet` | domaci1/tools/mkfs.c:308-319 | which has exactly its first bits set |
| `MakeFs.Image.Balloc` | domaci1/tools/mkfs.c:308-322 | insists that one bitmap block covers the blocks taken, and then the disk is the file system that was built, inodes on disk included |
| `MakeFs.MakeImage` | domaci1/tools/mkfs.c:145-239 | an image exactly if every file fits, the disk has the blocks and one bitmap block covers them, and then a valid file system with each file the concatenation of its appends, and an empty log |
| `MakeFs.MakedirsImage` | domaci1/tools/mkfs.c:71-143 | the four directories makedirs always makes: their entries, their types, one block each, on every disk with room for them |
| `MakeFs.DirentReads` | domaci1/tools/mkfs.c:225-228 | an entry reads back as its number and its name, cut at DIRSIZ |
| `MakeFs.DirectoriesMade` | domaci1/tools/mkfs.c:71-234 | for any files given: the root and /dev as makedirs left them, /bin and /home with an entry for every file that goes there, in order |
| `MakeFs.FilesMade` | domaci1/tools/mkfs.c:223-231 | every file given is there whole under its inode number, though appended a block at a time |
| `MakeFs.Regions` | domaci1/tools/mkfs.c:20-27 | log, inodes, bitmap and data follow one another without overlap for every size, and every inode and bit lies in its region, with at most a block to spare |
| `MakeFs.ShippedNumbers` | domaci1/tools/mkfs.c:169-181 | 1000 blocks with data from block 59, 200 inodes from block 32, the bitmap in block 58 |
| `MakeFs.MainImage` | domaci1/tools/mkfs.c:145-239 | together, for the disk that mkfs is built for: a valid file system with those directories and files |
| `BufferCache.Push` | domaci1/kernel/bio.c:48-54 | the four assignments of binit put a buffer in front of the circle |
| `BufferCache.ToFront` | domaci1/kernel/bio.c:131-136 | the six assignments of brelse move a buffer to the front and keep one circle, forwards and backwards, through all buffers |
| `BufferCache.Bcache.Binit` | domaci1/kernel/bio.c:38-55 | the list is a circle through all buffers, all labelled (0, 0) |
| `BufferCache.Bcache.Bget` | domaci1/kernel/bio.c:60-92 | the block's buffer if there is one; else the least recently used buffer that is neither referenced nor dirty, relabelled; a panic exactly if there is none |
| `BufferCache.Bcache.Drop` | domaci1/kernel/bio.c:127-140 | one reference fewer, and the list reordered exactly when it was the last |
| `BufferCache.StepInv` | domaci1/kernel/bio.c:60-140 | every step by any process keeps labels unique, counts right, one holder per buffer, and contents current |
| `BufferCache.BreadIsLatest` | domaci1/kernel/bio.c:94-105 | in every run, who holds a filled buffer holds the only buffer of the block it asked for, alone, with the block's latest contents |
| `BufferCache.OnlyIdleRecycled` | domaci1/kernel/bio.c:77-90 | in every run a buffer changes its block only when unreferenced and clean, and the disk has the latest contents of the block it gives up |
| `BufferCache.PinnedSince` | domaci1/kernel/bio.c:107-115 | in every run a block is pinned exactly from a log_write of it to the next bwrite of it, and while neither pinned nor being changed it is on the disk as last changed |
| `BufferCache.BreadFills` | domaci1/kernel/bio.c:77-105 | bread of a block that is not cached, uninterrupted: an unused buffer gets its label and the disk's contents and the caller holds it alone |
| `BufferCache.BreadFinds` | domaci1/kernel/bio.c:66-75 | bread of a cached block that nobody holds: one more reference and the lock, nothing else |
| `BufferCache.BrelseDrops` | domaci1/kernel/bio.c:119-141 | brelse gives back the lock and the reference, nothing else |
| `BufferCache.UpdateLogged` | domaci1/kernel/log.c:204-233 | modify, log_write, brelse: pinned, the new contents the latest, the disk as it was |
| `BufferCache.UpdateWritten` | domaci1/kernel/bio.c:107-141 | modify, bwrite, brelse: the new contents on the disk, not pinned |
| `BufferCache.NoBuffersIff` | domaci1/kernel/bio.c:77-91 | in all runs with at most so many pinned and so many held buffers the panic cannot happen if and only if these are together fewer than all |
| `BufferCache.BuffersForBudget` | domaci1/kernel/bio.c:77-91 | with NBUF buffers and the most a log of operations of that budget can pin: if and only if 2 * budget + held is below 20 |
| `ProcTable.Ptable.Wakeup1` | domaci1/kernel/proc.c:455-463 | exactly the processes sleeping on the channel become RUNNABLE |
| `ProcTable.Ptable.Allocproc` | domaci1/kernel/proc.c:74-93 | the first UNUSED slot becomes EMBRYO with a new pid; none exactly if there is none |
| `ProcTable.Ptable.Reparent` | domaci1/kernel/proc.c:255-262 | all children go to init, which is woken if one of them is a zombie |
| `ProcTable.Ptable.ExitProcess` | domaci1/kernel/proc.c:227-268 | does exactly the exit step; a panic exactly for init |
| `ProcTable.Ptable.Wait` | domaci1/kernel/proc.c:279-311 | the first zombie child reaped and its pid returned, or -1 exactly without children or when killed, or asleep |
| `ProcTable.Ptable.KillPid` | domaci1/kernel/proc.c:477-495 | the first slot with the pid is killed, and woken if asleep; refused exactly if there is none |
| `ProcTable.Ptable.Schedule` | domaci1/kernel/proc.c:333-352 | switches to the next RUNNABLE slot, or leaves the loop with none left |
| `ProcTable.ForkKeeps` | domaci1/kernel/proc.c:180-222 | each part of fork, locked or not, keeps the invariant |
| `ProcTable.ExitWaits` | domaci1/kernel/proc.c:250-265 | exit and its reparenting keep it that nobody sleeps in wait with a zombie child |
| `ProcTable.StepInv` | domaci1/kernel/proc.c:70-495 | every step of every process and scheduler keeps the invariant |
| `ProcTable.Lifecycle` | domaci1/kernel/proc.c:180-355 | in every reachable state a forked process has a live parent, nobody sleeps in wait with a zombie child, and a process is RUNNING exactly if one CPU holds it, and no other |
| `ProcTable.ReapedOnce` | domaci1/kernel/proc.c:227-312 | in every reachable state no pid is reaped twice or before it exited, and one exited and not reaped is a zombie whose parent is alive and not asleep in wait |
| `ProcTable.LifeStep` | domaci1/kernel/proc.c:70-495 | the only changes of state there are, each exactly when: slot taken, fork done or failed, dispatched, yielded, put to sleep, woken by its channel, kill or exit, exited, reaped; a sleeper keeps the channel it went to sleep on |
| `ProcTable.FamilyStep` | domaci1/kernel/proc.c:180-312 | a pid is new when the slot is taken and stays until it is reaped; the parent is who forked it, and init once that has exited |
| `ProcTable.KillTakesHold` | domaci1/kernel/proc.c:477-495 | in every run a slot is marked killed exactly if kill found it and wait has not emptied it since, and nobody so marked is asleep in wait |
| `ProcTable.ChannelsClear` | domaci1/kernel/proc.c:416-452 | in every run a sleeper has a channel, and nobody else has but a process woken inside sleep that has not gone on yet |
| `ProcTable.YieldReturns` | domaci1/kernel/proc.c:383-390 | a process that yields and is picked again finds the table as it was |
| `ProcTable.SleepAndWake` | domaci1/kernel/proc.c:416-472 | one that sleeps, is woken by its channel and picked again goes on where it was, the other sleepers on the channel runnable and nothing else changed |
| `ProcTable.InitRuns` | domaci1/kernel/proc.c:333-370 | a scheduler finds the first process and it runs, with the lock free |
| `ProcTable.ForkMakesChild` | domaci1/kernel/proc.c:180-222 | fork, uninterrupted: the first UNUSED slot is ready to run with a new pid and the caller as parent, nothing else changed |
| `ProcTable.ExitIsReaped` | domaci1/kernel/proc.c:227-312 | exit by a child whose parent sleeps in wait: the parent, run next, gets its pid and the slot is free |
| `SleepLock.StillRemembered` | domaci1/kernel/proc.c:416-472 | every step of sleep, wakeup and the lock keeps each sleeper on a held lock or about to be woken |
| `SleepLock.AdvanceInv` | domaci1/kernel/sleeplock.c:22-53 | every step keeps both spin locks, the owner and the sleepers consistent |
| `SleepLock.MutualExclusion` | domaci1/kernel/sleeplock.c:22-42 | in every run at most one process is between taking and giving up the lock |
| `SleepLock.NoLostWakeup` | domaci1/kernel/sleeplock.c:22-42 | in every run, with the inner lock free and the lock not taken, nobody is asleep on it or past the point of no return |
| `SleepLock.HoldingSleep` | domaci1/kernel/sleeplock.c:44-53 | the answer is whether the caller holds the lock |
| `SleepLock.AcquireReturns` | domaci1/kernel/sleeplock.c:22-32 | in every run a process outside any call, whose last call of the two was acquiresleep, holds the lock under its own pid |
| `SleepLock.ReleaseReturns` | domaci1/kernel/sleeplock.c:34-42 | one whose last call was releasesleep does not |
| `SleepLock.AcquireTakes` | domaci1/kernel/sleeplock.c:22-32 | from any state with the lock and the inner lock free, acquiresleep runs through and takes it, and changes nothing else |
| `SleepLock.AcquireSleeps` | domaci1/kernel/proc.c:416-452 | with the lock taken it ends asleep, both spin locks left to others |
| `SleepLock.SleeperRetries` | domaci1/kernel/sleeplock.c:25-28 | once awake and dispatched it goes back for the inner lock, to test again |
| `SleepLock.KilledRetries` | domaci1/kernel/proc.c:477-495 | so does one that kill woke |
| `SleepLock.SchedulerPasses` | domaci1/kernel/proc.c:333-354 | a scheduler with nobody to run leaves everything as it was |
| `SleepLock.ReleaseWakes` | domaci1/kernel/sleeplock.c:34-42 | releasesleep runs through, frees the lock, makes every process asleep on it runnable and moves nobody else |
| `SleepLock.AskAnswers` | domaci1/kernel/sleeplock.c:44-53 | holdingsleep answers with the inner lock held and leaves everything as it was |
| `Pipe.Wrapping` | domaci1/kernel/pipe.c:83-91 | the tests for full and empty and the slot numbers are right however often the counters have wrapped |
| `Pipe.FilledHolds` | domaci1/kernel/pipe.c:82-92 | a turn of pipewrite stores exactly the next bytes of its buffer |
| `Pipe.DrainedHolds` | domaci1/kernel/pipe.c:111-115 | a turn of piperead takes exactly the oldest bytes, as many as asked or there are |
| `Pipe.PipeBuffer.Write` | domaci1/kernel/pipe.c:82-92 | the loop, up to where it must sleep, computes that turn |
| `Pipe.PipeBuffer.Read` | domaci1/kernel/pipe.c:111-115 | the copy loop computes that turn |
| `Pipe.Fifo` | domaci1/kernel/pipe.c:76-119 | in every run the bytes delivered are a prefix of those accepted, the ring holds the rest, and the counters differ by that much modulo 2^32, at most 512 |
| `Pipe.WriteTurnDoes` | domaci1/kernel/pipe.c:76-98 | a turn of pipewrite stores what there is room for; returns the length exactly when all is stored, else -1 exactly when nobody reads or it was killed, else sleeps where it stopped; wakes the readers unless it gave up |
| `Pipe.ReadTurnDoes` | domaci1/kernel/pipe.c:100-119 | a turn of piperead that finds data or no writer takes the oldest bytes, as many as asked or there are, returns how many and wakes the writers; else it sleeps, or returns -1 when killed |
| `Pipe.CallsDeliver` | domaci1/kernel/pipe.c:76-119 | in every run what a write under way has had accepted since its call is the first i bytes of its buffer, in order and once, and all of them when it returns its length; a read returns how many it took |
| `Pipe.KillWakes` | domaci1/kernel/pipe.c:58-119 | in every run nobody who has been killed is asleep, and the ends closed are those closed |
| `Pipe.Carries` | domaci1/kernel/pipe.c:76-119 | from any state with an empty ring, a write of at most 512 bytes and a read run through, and the reader gets the first bytes of the buffer |
| `Pipe.EndOfFile` | domaci1/kernel/pipe.c:58-119 | with everything read and the write end closed a read returns 0 |
| `Pipe.NeverBothAsleep` | domaci1/kernel/pipe.c:58-119 | in every run no reader sleeps while a writer does; a sleeping writer faces a full ring and an open read end, a sleeping reader an open write end |
| `Pipe.QuietIff` | domaci1/kernel/pipe.c:83-90 | a step keeps readers from sleeping next to data if and only if it is not a killed writer with more than 512 bytes to go, while a reader sleeps |
| `Pipe.QuietWithoutKill` | domaci1/kernel/pipe.c:76-119 | in a run without kills a sleeping reader always faces an empty ring |
| `Pipe.StalledReader` | domaci1/kernel/pipe.c:84-87 | a run that ends with a reader asleep next to a full ring |
| `PageTables.StorePte` | domaci1/kernel/vm.c:69-73 | storing an entry changes that entry of that address space only |
| `PageTables.NewTable` | domaci1/kernel/vm.c:44-53 | a new table changes no entry of any address space |
| `Vm.Memory.constructor` | domaci1/kernel/kalloc.c:31-44 | memory at boot satisfies the invariant, with nothing free |
| `Vm.Memory.Freerange` | domaci1/kernel/kalloc.c:46-53 | exactly the whole pages of the range go on the free list |
| `Vm.Memory.Kfree` | domaci1/kernel/kalloc.c:59-77 | a panic exactly for an address that is no page of allocatable memory; otherwise the page is filled and linked in front whatever it was, and if it was in use, and in no address space, the list stays a list |
| `Vm.JunkBytes` | domaci1/kernel/kalloc.c:66-67 | a freed page is bytes of 1 past its link |
| `Vm.DoubleFree` | domaci1/kernel/kalloc.c:59-77 | freeing a page that is on the list bends the list into a circle |
| `Vm.Memory.Kalloc` | domaci1/kernel/kalloc.c:82-95 | the page freed last, or none exactly if the list is empty |
| `Vm.Memory.Walkpgdir` | domaci1/kernel/vm.c:35-55 | the table of the address; if made, it is the only new thing and leaves it to the page's entry who may write; absent only if not to be made or out of memory |
| `Vm.Memory.MapPage` | domaci1/kernel/vm.c:68-78 | one page mapped as asked and no other entry changed; a panic only on a present entry; no memory exactly if kalloc found none |
| `Vm.Memory.MapKernelPages` | domaci1/kernel/vm.c:60-80 | consecutive frames mapped over the range, up to the first page already mapped or where kalloc finds no memory |
| `Vm.KernelMapGood` | domaci1/kernel/vm.c:105-115 | no page is in two rows of the kernel's table, so setupkvm never remaps |
| `Vm.KernelMapMaps` | domaci1/kernel/vm.c:105-115 | the four rows together give every page what the kernel expects: frame f at page KERNBASE + f for all memory below PHYSTOP, writable exactly outside the kernel's text, devices at their own addresses, nothing for users and nothing else present |
| `Vm.Memory.Setupkvm` | domaci1/kernel/vm.c:118-136 | an address space with every frame below PHYSTOP at its page from KERNBASE up, writable exactly outside the kernel's text, the devices at their own addresses, nothing for users and nothing else, and tables for exactly these; or, exactly if kalloc found no memory, every frame back |
| `Vm.Memory.Deallocuvm` | domaci1/kernel/vm.c:255-279 | exactly the user pages of the range go to the free list, although absent tables are stepped over |
| `Vm.AllocedBack` | domaci1/kernel/vm.c:235-246 | deallocuvm takes back all that a failed allocuvm had mapped |
| `Vm.Memory.Allocuvm` | domaci1/kernel/vm.c:221-249 | if no page of the range is mapped: zeroed pages that the process may read and write up to the new size and nothing else changed, or, exactly if kalloc found no memory, 0, with every page as it was and every frame back but for page tables; if one is mapped: a panic, or out of memory before it is reached |
| `Vm.Memory.Freevm` | domaci1/kernel/vm.c:283-298 | directory, tables and user pages all go to the free list, and nothing else changes hands |
| `Vm.Memory.Copyuvm` | domaci1/kernel/vm.c:315-345 | a new address space with the same bytes and flags page by page and the kernel's pages as setupkvm makes them, the old one untouched; or, exactly if kalloc found no memory, every frame back; a panic only if a page is missing |
| `Vm.SpaceKept` | domaci1/kernel/vm.c:315-345 | what is done to one address space leaves every other with its entries and pages |
| `Vm.SpacesDisjoint` | domaci1/kernel/vm.c:315-345 | no frame is a user page of two address spaces |
| `Vm.Partition` | domaci1/kernel/vm.c:35-345 | in every valid state each frame that is ours to give is in exactly one place: on the free list, a directory, the table behind an entry, a user page of an address space, or in other use; a reserved frame is in none |
| `Vm.PlacedOnce` | domaci1/kernel/vm.c:35-345 | and there once: at one position of the list, behind one entry of one directory, as one page of one space |
| `ExecStack.Space.Copyout` | domaci1/kernel/vm.c:348-385 | all bytes in place exactly if every page they touch is the user's; a null entry followed exactly if the first page that is not has no page table; an empty copy changes nothing |
| `ExecStack.PushAllowed` | domaci1/kernel/exec.c:71-79 | a push that ends in the stack page is allowed exactly if it starts there too, the guard page stopping the rest |
| `ExecStack.Space.PushString` | domaci1/kernel/exec.c:72-79 | the string below the others exactly if it fits; a null entry exactly if sp wraps to where there are no page tables; else refused |
| `ExecStack.Space.BuildStack` | domaci1/kernel/exec.c:63-88 | succeeds exactly with at most MAXARG arguments that fit the page, and then the frame is complete, its parts disjoint and all in the stack page; follows a null entry exactly if a push that is reached wraps to where there are no page tables |
| `ExecStack.HighPush` | domaci1/kernel/vm.c:348-359 | an address in the kernel half is never the user's, and has no page table exactly from P2V(PHYSTOP) to DEVSPACE |
| `ExecStack.UserTables` | domaci1/kernel/vm.c:35-55 | in user memory a page has a table exactly if it shares one with a mapped page |
| `ExecStack.LongArgument` | domaci1/kernel/exec.c:75-76 | an argument with which a null entry is followed |
| `ExecStack.ShortArguments` | domaci1/kernel/exec.c:72-79 | with every argument under 32 MB none is |
| `Machine.KernelTableAt` | domaci1/kernel/vm.c:105-115 | which addresses of the kernel half have a page table |
| `ExecStack.ArgumentsRoundTrip` | domaci1/kernel/exec.c:71-88 | reading argc, argv and the strings back gives exactly the arguments |
| `Umalloc.Allocator.constructor` | domaci1/user/umalloc.c:70-73 | base alone is a valid circular list |
| `Umalloc.Allocator.Locate` | domaci1/user/umalloc.c:30-32 | the walk ends at the last free block below the one freed |
| `Umalloc.Insert` | domaci1/user/umalloc.c:36-43 | linking a block in keeps the list circular and in address order |
| `Umalloc.Absorb` | domaci1/user/umalloc.c:33-35 | merging with the block after it does too |
| `Umalloc.Join` | domaci1/user/umalloc.c:38-40 | merging with the block before it leaves no two free blocks touching |
| `Umalloc.Allocator.Free` | domaci1/user/umalloc.c:24-44 | exactly the block's units become free, the list stays circular, ordered and without touching blocks, no allocated memory is written, and freep is the free block before it |
| `Umalloc.Allocator.Morecore` | domaci1/user/umalloc.c:46-61 | at least 4096 new units on the list in a block large enough, or nothing changed when sbrk fails; sbrk is asked for another amount exactly from 2^31 bytes on |
| `Umalloc.Allocator.Scan` | domaci1/user/umalloc.c:74-88 | once around the list from freep: the first block large enough and its predecessor, or none is |
| `Umalloc.TakeWhole` | domaci1/user/umalloc.c:76-77 | unlinking an exact fit keeps the partition and the list |
| `Umalloc.TakeTail` | domaci1/user/umalloc.c:78-82 | cutting off the tail does too |
| `Umalloc.Allocator.Malloc` | domaci1/user/umalloc.c:63-90 | a block with room for the bytes asked for and less than a unit to spare, exactly unless their number wraps, cut from the end of the first free block after freep that is large enough or from new units, nothing else changed; 0 only if no free block has the room and sbrk fails; sbrk misasked exactly above 0x7FFFFFF0 with no such block |
| `Umalloc.UnitsHold` | domaci1/user/umalloc.c:69 | the units hold the bytes with less than a unit to spare if and only if the sum does not wrap around 32 bits |
| `Umalloc.SbrkAsked` | domaci1/user/umalloc.c:52-54 | sbrk is asked for what is wanted if and only if that is less than 2^31 bytes |
| `Umalloc.OwnerWrites` | domaci1/user/umalloc.c:24-90 | whatever is stored in an allocated block past its header, the heap stays valid |
| `Shell.GetTok` | domaci1/user/sh.c:268-311 | computes the next token of the grammar |
| `Shell.Redirections` | domaci1/user/sh.c:377-400 | computes the redirections, or the missing file |
| `Shell.Arguments` | domaci1/user/sh.c:432-448 | computes words and redirections of a command, or the panic |
| `Shell.Command` | domaci1/user/sh.c:418-449 | computes a command or block |
| `Shell.BlockCommand` | domaci1/user/sh.c:402-416 | computes a parenthesised line with its redirections, or the panic |
| `Shell.Pipeline` | domaci1/user/sh.c:364-375 | computes a pipeline |
| `Shell.Line` | domaci1/user/sh.c:347-362 | computes a line; with the six above it ends on every text |
| `Shell.Parse` | domaci1/user/sh.c:330-345 | the command of the whole text with its words cut in the buffer, or a panic that leaves the buffer alone |
| `Shell.Nulterminate` | domaci1/user/sh.c:452-496 | a NUL at the end of every word of the command and nowhere else |
| `Shell.LineRuns` | domaci1/user/sh.c:298-302 | every word of a parsed line is a longest run of word characters |
| `Shell.CutKeepsWords` | domaci1/user/sh.c:452-496 | the end of a word lies outside all words, so cutting at all ends leaves each word what it was |
| `Shell.NulTermination` | domaci1/user/sh.c:330-345 | after a successful parse every argument and file name reads as a C string that is exactly its text |
| `ShellGrammar.TokenAt` | domaci1/user/sh.c:268-311 | gettoken reads one word or mark of any text and the white space after it |
| `ShellGrammar.LineParses` | domaci1/user/sh.c:268-449 | a text that spells a line, with any white space, parses to the tree of the line: words in order, each redirection around what it follows, pipelines nested to the right, every `&` around its pipeline, `;` taking the rest |
| `ShellGrammar.EveryText` | domaci1/user/sh.c:265-311 | every text is words and marks with white space between them |
| `ShellGrammar.AcceptsLines` | domaci1/user/sh.c:268-449 | the parser accepts a text if and only if it spells a line of the grammar |
| `ShellGrammar.RoundTrip` | domaci1/user/sh.c:268-449 | printing any tree of commands, pipes, lists, background jobs and redirections, with its subcommands in parentheses, and parsing the text gives the tree back |
| `ShellGrammar.ParsedPrintable` | domaci1/user/sh.c:330-345 | whatever parses has a tree that can be printed, and printing and parsing it gives the same tree: the round trip covers the parser's whole image |
| `Grep.DoMatchHere` | domaci1/user/grep.c:85-97 | computes the match at the start of the text |
| `Grep.DoMatchStar` | domaci1/user/grep.c:100-108 | computes the match after any number of repetitions |
| `Grep.DoMatch` | domaci1/user/grep.c:72-82 | computes the match anywhere |
| `Grep.HereCorrect` | domaci1/user/grep.c:85-97 | that is yes exactly if a prefix of the text is in the body's language |
| `Grep.StarCorrect` | domaci1/user/grep.c:100-108 | that is yes exactly if some number of repetitions leaves such a rest |
| `Grep.MatchCorrect` | domaci1/user/grep.c:72-108 | a match exactly if the text has a substring in the language of the pattern, at its start or end if anchored there |
| `Console.ChordToggles` | domaci1/kernel/console.c:233-306 | over every stream of keys the menu toggles exactly when the last three codes that count are Alt-c, Alt-o, Alt-l |
| `Console.Screen.SaveBackground` | domaci1/kernel/console.c:433-442 | the characters under the menu, in order |
| `Console.Screen.LoadBackground` | domaci1/kernel/console.c:445-455 | each back in its cell with the current colour, the other cells untouched |
| `Console.Screen.ShowMenu` | domaci1/kernel/console.c:420-430 | the menu's text in its cells and no other cell changed |
| `Console.Screen.Paint` | domaci1/kernel/console.c:482-487 | the colours of a stretch of cells and no character changed |
| `Console.EntryInMenu` | domaci1/kernel/console.c:490-493 | the ten cells of every entry lie inside the menu |
| `Console.EntriesApart` | domaci1/kernel/console.c:490-493 | no cell is in two entries |
| `Console.SelectionIs` | domaci1/kernel/console.c:458-468 | over every sequence of keys the selection is its row plus the presses of s minus those of w, modulo 8, in the column that the presses of a and d leave it |
| `Console.KeysPick` | domaci1/kernel/console.c:469-511 | e and r make the row the foreground or background colour by column, r the bright one, keep the other colour, and give every cell the result |
| `Console.Screen.HandleInput` | domaci1/kernel/console.c:458-511 | the selection moves around the two columns, or the colour is set and the whole screen takes it, characters kept |
| `Console.Screen.KeyPressed` | domaci1/kernel/console.c:245-306 | a key with the menu open does exactly the step the theorems are about |
| `Console.Screen.Open` | domaci1/kernel/console.c:279-285 | the key that completes the chord saves the screen and opens the menu |
| `Console.CharBack` | domaci1/kernel/console.c:451 | a saved character comes back whatever the colour, and in that colour exactly if 7-bit or the colour is 0xff |
| `Console.SessionRestores` | domaci1/kernel/console.c:238-306 | opening, any keys that print nothing, and closing: every character is what it was, and the cells under the menu as above |

## Left out

- Directories, path names, link counts and `ialloc`, `iget`, `ilock`, `iput`: their own invariants would rest on these but are not stated.
- Device files: `readi` and `writei` on `T_DEV` inodes go to the device switch.
- CrashLog.Log.ReadHead: once the loop has left its array nothing more is said.
- MakeFs.Image.Ialloc: what happens on disk past the last inode, which mkfs does not test for, is not described; nor are the names mkfs derives from its arguments.
- FileSystem.Fs.Balloc: that the disk is full ends in a panic in the source; nothing is claimed about the blocks allocated before it in the same write.
- FileSystem.Fs.Filewrite: pipes go to Pipe, and the caller's buffer has the bytes it promises.
- LogAdmission.NextInv: how sleeping operations are woken is not modelled; a waiting operation may begin whenever its test succeeds.
- ProcTable.StepInv: pids are unbounded; the source's `int` wraps. Which RUNNABLE process a scheduler picks is left open in the steps, so that every order is covered.
- ProcTable.ReapedOnce: that a zombie is reaped eventually is not stated, since nothing says that its parent ever waits.
- Pipe.Fifo: lengths are not negative; a negative length copies nothing in the source.
- Pipe.NeverBothAsleep: an end is closed with its last reference, so not during a call on it; the reference counts of file.c are not modelled.
- BufferCache.BuffersForBudget: that dirty buffers are those of logged blocks is a hypothesis here; the two machines are not joined.
- BufferCache.BreadIsLatest: callers ask for blocks of the disk and follow bread, modify, log_write or bwrite, brelse, as the comments of bio.c and log.c demand; a request for another device ends in a panic in the source.
- Vm.Memory.Allocuvm: after a panic, and after running out of memory with a page of the range already mapped, only the invariant is stated; page tables made for a failed call stay with the address space, as in the source.
- Vm.Memory.Kfree: memory reaches as far as the address that is freed.
- Vm.Memory.MapKernelPages: `mappages` is one loop in the source; the model has it for the kernel's ranges, and its single turn for user pages, the only way it is called there.
- Vm.Memory.Copyuvm: when a page is missing the source panics; what has been copied by then is not described.
- ExecStack.Space.Copyout: what is read and written through a null entry, and the bytes copied before a refusal, are not described.
- ExecStack.Space.BuildStack: the stack is built over user memory as bytes with one flag per page; argument strings are shorter than KERNBASE, as they lie in the caller's memory; loading the program is not modelled.
- Umalloc.Allocator.Malloc: once sbrk has been asked for another amount than was wanted nothing more is said; addresses do not overflow 32 bits.
- Shell.Parse: the tree is a value; allocation of its nodes, and running the command, are not modelled.
- Console.SessionRestores: Control-P prints, and so does Control-U on a line that is not blank, so they are not among the keys of a session; the input line buffer, the cursor and scrolling are not modelled.
- Boot, interrupts, devices, system-call arguments, and memory ordering: critical sections are atomic steps.
