# A verified model of the xv6-riscv kernel core and its job-control shell

This Dafny project models the parts of the repository whose correctness is hard to see from any one
function, and proves what they are for. Everything is stated for all inputs, all interleavings or all
runs; the constants are those of the source.

| part | files | main results |
|---|---|---|
| Redo log | LogDisk, LogDevice, GroupCommit, CrashSafety | `SyncSurvivesCrash`, `PromiseKept`, `CrashAtomicity`, `RunRefinesAtomicDisk`, `CommitExcludesOps`, `LogWritePanicsExactlyWhenFull`, `ModestNeverPanics`, `Commit` |
| Buffer cache | BufferCache, LoggedCache | `ReadsLastLogged`, `PinnedNeverRecycled`, `CacheStaysUnique`, `NoBufferIff`, `BufferLeftIff` |
| File system blocks and contents | FsBitmap, FsBlocks, FsContents, FsJournal, FsTruncate, FileSystem, FileCrash | `MarkedExactly`, `Writei`, `Readi`, `Itrunc`, `Filewrite`, `CallSurvivesCrash`, `WriteSurvivesCrash` |
| MLFQ scheduler | Mlfq, MlfqFairness, MlfqCode, MlfqKill | `StepRefinesQueues`, `WaitIsBounded`, `SwitchesBounded`, `BornKilledIff`, `KilledByOwnPid` |
| Sleep and wakeup | SleepLock | `MutualExclusion`, `NoLostWakeup`, `StuckOnlyBehindHolder` |
| Page tables | PageTable, AddressSpaces | `UvmAlloc`, `GrowProc`, `UvmCopy`, `MapPages`, `VmFault`, `FreeProc` |
| User allocator | Umalloc | `Free`, `Malloc`, `UnitsConserved`, `RequestSurvives`, `HugeRequestOverlaps` |
| Reverse line printing | Peek | `ReverseSeekable`, `ReverseBuffered` |
| Pipes | Pipe | `RunFifo`, `Write`, `Read` |
| Job table | JobTable, JobRuns, JobFlags, JobCode | `AnnouncedOnce`, `QuiescentIsComplete`, `NoEventDropped`, `FlagIsLastReport`, `RoomToWatch` |
| Grammar and splitters | Grammar | `AcceptedIffWellFormed`, `RunSequence`, `SegmentsAccepted`, `SameArgvIff` |

How the parts are built:

- Code that changes things step by step is a class with the source's fields, or a method with the
  source's loops. Each method is proved against a function or relation on values (`Commit` issues exactly
  the write sequence that `CrashAtomicity` cuts; `ChildExited` changes the table exactly as `Record`).
- Protocols are state machines over their steps; a theorem about runs quantifies over every sequence of
  enabled steps. The crash model allows a crash between any two block writes; a block write is atomic.
- Ownership is one ghost map per resource: from physical page to its place in the tree, from disk block to
  the place that stores its address, from memory unit to its block. Distinctness, no leak and conservation
  are all readings of that map.
- Pages and disk blocks have one content each, whoever owns them: a page-table page is a page of words that
  kalloc and kfree overwrite with junk, an indirect block is a block of bytes. That a write through one owner
  is not seen through another is proved from ownership.
- A panic of the kernel is an outcome that the contracts speak about: unreachable, or reached exactly under
  a stated condition.

Where the code does not keep what its comments or its shape suggest, the code is modelled as it is, with
the exact condition:

- `log_write` tests for a full log before it looks for absorption, so a repeat write can panic
  (`LogWritePanicsExactlyWhenFull`, `AbsorbedWriteCanPanic`).
- NBUF equals LOGBLOCKS, so a full log leaves `bget` without a buffer and `commit` panics
  (`FullLogLeavesNoBuffer`; `NoBufferIff`, `BufferLeftIff` and `Commit` say exactly when; operations below
  their budgets never get there, `ModestNeverPanics`).
- `writei` releases a block that a failing copy has changed without logging it, so cache and log can differ
  (`UnloggedChangeIsSeen`, `Writei`; `ReadsLastLogged` says exactly when).
- `kkill(0)` marks the first free slot, whose pid is 0, and `allocproc` leaves the mark, so the next process
  is killed at birth (`KillMarks`, `KillZeroReachesNewborn`; `BornKilledIff` and `BornAfterKill` say exactly
  when, `KilledByOwnPid` what holds of all other runs).
- `growproc` with a shrink below zero wraps around and does nothing (`GrowProc`).
- `malloc` passes its byte count to `sbrk` as a signed 32-bit number, so requests beyond 2^31 - 32 bytes get
  less memory than the block claims and the next fresh block overlaps it (`Malloc`, `RequestSurvives`,
  `NextAnswerClear`, `HugeRequestOverlaps`).
- The second sweep of `check_bg_jobs` can overtake the handler's queue, so a job's Stopped flag does not
  always follow the last signal (`FlagIsLastReport`, `SweepOvertakes`).
- `extract_group` and `extract_segment_argv` can disagree on the same accepted command (`SameArgvIff`,
  `ArgvsDiffer`).

Basics holds the constants, `Option` and the few facts on sets and sequences that several parts share.

`dafny verify dfyconfig.toml` checks the whole project.

## Model

| member | source | states |
|---|---|---|
| LogDisk.CrashAtomicity | xv6-riscv/kernel/log.c:67-125 | Cut commit() after any number k of its block writes, then cut recovery any number of times, then let it finish: the home blocks are all old or all new, all new exactly when the first header write (write n + 1 for n logged blocks) reached the disk, and the log is empty. |
| LogDisk.RunRefinesAtomicDisk | xv6-riscv/kernel/log.c:181-206 | Over every run of groups, each with a crash anywhere in its commit and any interrupted recoveries, the home blocks are those of a disk on which each group took effect entirely or not at all. |
| LogDisk.GroupRefines | xv6-riscv/kernel/log.c:196-206 | One group with or without a crash is one atomic step of the abstract disk and leaves it mountable with an empty log. |
| LogDisk.CommitPrefixDurable | xv6-riscv/kernel/log.c:196-206 | What is durable after each prefix of the commit writes: the old contents up to the header write, the new contents from it on. |
| LogDisk.HeadRoundTrip | xv6-riscv/kernel/log.c:88-116 | Reading back a written header gives the same list of block numbers. |
| LogDisk.LogPrefixInvisible | xv6-riscv/kernel/log.c:181-194 | Filling log blocks under an empty header changes nothing durable. |
| LogDisk.HeadWriteCommits | xv6-riscv/kernel/log.c:101-116 | The single header write makes the whole group durable at once. |
| LogDisk.InstallInvisible | xv6-riscv/kernel/log.c:67-85 | Copying log blocks home changes nothing durable, at every prefix of the copying. |
| LogDisk.ClearInvisible | xv6-riscv/kernel/log.c:196-206 | Clearing the header after a complete installation changes nothing durable and leaves home blocks that hold the durable contents. |
| LogDisk.RecoverCutInvisible | xv6-riscv/kernel/log.c:118-125 | No prefix of recovery changes what recovery will produce; a complete one produces exactly that. |
| LogDisk.RecoveredHome | xv6-riscv/kernel/log.c:118-125 | After any number of recoveries cut short and a complete one, the home blocks hold exactly what was durable at the crash, and the log is empty. |
| LogDevice.Device.Bread | xv6-riscv/kernel/bio.c:57-102 | bread through a cache of NBUF buffers gives the current contents of the block; it fails (the "no buffers" panic) exactly when the block is not cached and the pinned and referenced blocks fill all NBUF buffers; a recycled buffer was neither. |
| LogDevice.Device.Bwrite | xv6-riscv/kernel/bio.c:104-111 | One block write, recorded in the trace of disk writes; cache and disk then hold it. |
| LogDevice.Device.Brelse | xv6-riscv/kernel/bio.c:113-135 | Gives back exactly one reference; the block stays cached. |
| LogDevice.Device.CopyOver | xv6-riscv/kernel/log.c:186-192 | The copy, write and two releases in a turn of write_log and install_trans: one disk write, with the contents of the source buffer. |
| LogDevice.Device.WriteLog | xv6-riscv/kernel/log.c:181-194 | The loop issues exactly the log-area writes of the pending blocks, in order, and leaves the header alone; or it panics in its first bread, before any write, exactly when the log is not empty and pinned and referenced blocks fill all buffers. |
| LogDevice.Device.WriteHead | xv6-riscv/kernel/log.c:101-116 | One write of the header block with the list encoded into it; panics exactly when the header is not cached and all buffers are taken. |
| LogDevice.Device.EncodeLoop | xv6-riscv/kernel/log.c:108-113 | The loop that stores n and the entries produces exactly the encoded header and keeps the other words. |
| LogDevice.Device.ReadHead | xv6-riscv/kernel/log.c:87-99 | From a mountable disk the in-memory list becomes the one in the header. |
| LogDevice.Device.InstallBlock | xv6-riscv/kernel/log.c:67-85 | One turn of the loop copies log block tail to its home with one write, and in a commit unpins it; it never lacks a buffer, because at commit the home block is pinned in the cache and recovery runs alone. |
| LogDevice.Device.InstallTrans | xv6-riscv/kernel/log.c:67-85 | The loop issues exactly the installation writes in order; afterwards nothing is pinned. |
| LogDevice.Device.WriteAndInstall | xv6-riscv/kernel/log.c:196-206 | The four phases issue exactly the commit writes; the only bread that can fail is the first one, and then nothing has been written. |
| LogDevice.Device.Commit | xv6-riscv/kernel/log.c:196-206 | commit() panics, with nothing written, exactly when the log is not empty and the pinned and referenced blocks fill all NBUF buffers; with no other reference held that is exactly when the log holds NBUF blocks. Otherwise it issues exactly the write sequence that CrashAtomicity cuts, empties the log, leaves the group's contents in the home blocks, and changes nothing any reader sees. |
| LogDevice.Device.RecoverFromLog | xv6-riscv/kernel/log.c:118-125 | Recovery issues exactly the modelled write sequence and leaves the durable contents in the home blocks with an empty log. |
| GroupCommit.CommitExcludesOps | xv6-riscv/kernel/log.c:148-178 | In every interleaving of begin_op, log_write, end_op and commits: the log never exceeds LOGBLOCKS and has no repeats, committing implies no outstanding operation (so the "log.committing" panic is unreachable), and an idle log is empty. |
| GroupCommit.LogWritePanicsExactlyWhenFull | xv6-riscv/kernel/log.c:217-238 | An operation within MAXOPBLOCKS distinct blocks gets the "too big" panic if and only if the log holds LOGBLOCKS blocks; then the write is a repeat and every running operation has used its whole budget, so an appending log_write never panics. |
| GroupCommit.ModestNeverPanics | xv6-riscv/kernel/log.c:128-238 | In every interleaving of operations that each log fewer than MAXOPBLOCKS distinct blocks, no log_write panics, and the log stays below LOGBLOCKS, which is NBUF. |
| GroupCommit.AbsorbedWriteCanPanic | xv6-riscv/kernel/log.c:222-231 | The exception is reachable: a run within all budgets in which rewriting a block already in the full log panics. |
| GroupCommit.SyncIsDurable | xv6-riscv/kernel/log.c:240-252 | When sys_sync may return, every operation that had passed end_op's decrement before the call is on disk, in every interleaving. |
| GroupCommit.StepKeepsInv | xv6-riscv/kernel/log.c:128-178 | Every step keeps the reservation invariant (log length plus the unused budgets of running operations fit in LOGBLOCKS). |
| GroupCommit.LogState.TryBeginOp | xv6-riscv/kernel/log.c:128-144 | One turn of the wait loop admits an operation exactly when no commit runs and log plus reservations leave room for it. |
| GroupCommit.LogState.Write | xv6-riscv/kernel/log.c:217-238 | Panic, absorption or append of a block number, with the absorption search over the array. |
| GroupCommit.LogState.EndOp | xv6-riscv/kernel/log.c:148-166 | The first section: who becomes the committer, and the panic when a commit is running. |
| GroupCommit.LogState.FinishCommit | xv6-riscv/kernel/log.c:168-178 | The second section ends the commit and counts it. |
| GroupCommit.LogState.SyncTarget | xv6-riscv/kernel/log.c:240-252 | The commit count sys_sync waits for, 0 when nothing is unfinished. |
| CrashSafety.SyncSurvivesCrash | xv6-riscv/kernel/log.c:118-252 | End to end, in every run of operations, block writes of commits, syncs and earlier crashes: crash now, cut any number of recoveries, let one finish. The home blocks hold exactly the writes of a set of whole operations, in order; all of them had ended; and the set has every operation that had ended before a sync that has returned. |
| CrashSafety.PromiseKept | xv6-riscv/kernel/log.c:240-252 | Once a sync returns, each operation that had ended before the call is found by every later recovery, through any number of further crashes, with exactly the writes it made. |
| CrashSafety.DurableStays | xv6-riscv/kernel/log.c:118-125 | An operation found by one recovery is found by all later ones, with none of its writes lost or added. |
| CrashSafety.SeesAllWrites | xv6-riscv/kernel/log.c:217-238 | Between crashes the file system sees the writes of all operations, running ones included. |
| CrashSafety.DurableNow | xv6-riscv/kernel/log.c:196-206 | At every point of a commit, recovery would find the operations of all earlier groups, and those of this group exactly from the first header write on. |
| CrashSafety.CrashKeeps | xv6-riscv/kernel/log.c:118-125 | A crash with recovery leads to a state from which the same holds again. |
| CrashSafety.StepKeeps | xv6-riscv/kernel/log.c:128-252 | Every step keeps the invariant that ties protocol, disk and contents together. |
| CrashSafety.OneOpIsAtomic | xv6-riscv/kernel/log.c:128-206 | An operation that runs alone is atomic: after a crash at any point the home blocks are as before it began, or as it left them, according to whether it is among the operations on disk. |
| BufferCache.Bcache.constructor | xv6-riscv/kernel/bio.c:35-52 | After the loop of binit the list is a ring through all NBUF buffers, none referenced. |
| BufferCache.Bcache.InsertFront | xv6-riscv/kernel/bio.c:45-51 | The four pointer writes put a buffer right behind the head of the doubly linked ring. |
| BufferCache.Bcache.Unlink | xv6-riscv/kernel/bio.c:125-128 | The pointer writes take a buffer out of the ring and keep the order of the others. |
| BufferCache.Bcache.FindCached | xv6-riscv/kernel/bio.c:57-73 | The forward walk finds a buffer that holds the block if there is any. |
| BufferCache.Bcache.FindFree | xv6-riscv/kernel/bio.c:74-88 | The backward walk finds the least recently used unreferenced buffer, and none only if all are referenced. |
| BufferCache.Bcache.Bget | xv6-riscv/kernel/bio.c:57-88 | A cached block gains a reference; otherwise exactly the least recently used free buffer is recycled, invalid; panic exactly when all are referenced. |
| BufferCache.Bcache.Fill | xv6-riscv/kernel/bio.c:90-102 | An invalid buffer is filled from disk, a valid one is left alone. |
| BufferCache.Bcache.Brelse | xv6-riscv/kernel/bio.c:114-136 | The reference count drops and, at zero, the buffer moves to the front of the list. |
| BufferCache.Bcache.Bpin | xv6-riscv/kernel/bio.c:138-144 | One more reference, list order untouched. |
| BufferCache.Bcache.Bunpin | xv6-riscv/kernel/bio.c:146-152 | One reference less, list order untouched. |
| BufferCache.MoveToFrontKeeps | xv6-riscv/kernel/bio.c:114-136 | Moving to the front keeps the list a permutation of all NBUF buffers. |
| LoggedCache.ReadsLastLogged | xv6-riscv/kernel/bio.c:90-102 | In every run of cache and log steps, the lock holder of an unmodified buffer sees the contents last logged for its block, even while the home copy on disk is stale, if and only if the block has no unlogged release behind it, or one whose contents happen to be the same; what it sees otherwise is stated too. |
| LoggedCache.CleanReleasesSpoilNothing | xv6-riscv/kernel/fs.c:540-552 | Runs in which no buffer is released changed and unlogged have no such block, so in them every read is current. |
| LoggedCache.UnloggedChangeIsSeen | xv6-riscv/kernel/fs.c:546-549 | The exception is real: after writei() has given up on a failed copy, the next reader of the block sees contents that nobody logged. |
| LoggedCache.CacheStaysUnique | xv6-riscv/kernel/bio.c:57-88 | In every run no block of the root device is in two buffers, and the list stays a permutation of all buffers. |
| LoggedCache.PinnedNeverRecycled | xv6-riscv/kernel/bio.c:74-88 | Whatever bget is asked for, a logged block not yet installed keeps its buffer, contents and validity. |
| LoggedCache.StaleBlocksAreCached | xv6-riscv/kernel/log.c:217-238 | A block whose home copy differs from its logical contents is pending or was released with an unlogged change; every pending block is cached, valid and referenced, with its logical contents unless being changed or so released. |
| LoggedCache.NoBufferIff | xv6-riscv/kernel/bio.c:57-88 | In every run, bget panics exactly for a block that is not cached while each of the NBUF buffers is referenced by a process or pinned by the log. |
| LoggedCache.BufferLeftIff | xv6-riscv/kernel/log.c:181-194 | While no process holds a buffer, bget finds one for an uncached block if and only if fewer than NBUF blocks are logged and not installed; so a commit gets its buffers exactly below NBUF blocks. |
| LoggedCache.FullLogLeavesNoBuffer | xv6-riscv/kernel/param.h:10-11 | NBUF equals LOGBLOCKS, so the condition fails on a reachable state: a full log, no reference held, and bget panics for every block not in it, the first log block included. |
| LoggedCache.StepKeepsInv | xv6-riscv/kernel/log.c:217-238 | Every step of cache and log keeps the invariant behind these claims. |
| FileSystem.Volume.Balloc | xv6-riscv/kernel/fs.c:67-90 | Returns the least unmarked block, marked and zeroed and not otherwise changing anything, or 0 exactly when every block is marked. |
| FileSystem.Volume.FirstFree | xv6-riscv/kernel/fs.c:74-86 | The nested bitmap scan over bitmap blocks and bits stops at the least clear bit. |
| FileSystem.Volume.Mark | xv6-riscv/kernel/fs.c:76-82 | Byte and mask arithmetic set exactly one bit; the block is zeroed; the bitmap block and the block are logged. |
| FileSystem.Volume.Bfree | xv6-riscv/kernel/fs.c:93-107 | Clears exactly one bit; panics exactly when that bit is clear already. |
| FsBitmap.SetShows | xv6-riscv/kernel/fs.c:76-79 | Or-ing the mask into byte (b % BPB) / 8 of bitmap block b / BPB marks block b and no other. |
| FsBitmap.ClearShows | xv6-riscv/kernel/fs.c:98-104 | And-ing with the complement unmarks block b and no other. |
| FsBlocks.AddressesDistinct | xv6-riscv/kernel/fs.c:406-445 | Across all inodes, no two of the stored direct, indirect and entry addresses are the same block, and each is marked. |
| FsBlocks.MarkedExactly | xv6-riscv/kernel/fs.c:406-445 | A data block is marked if and only if some inode or indirect block stores its address: no leak and no dangling address. |
| FsBlocks.WordsSet | xv6-riscv/kernel/fs.c:431-441 | Storing a 32-bit address into the bytes of an indirect block changes that entry and no other. |
| FsBlocks.EntryAddr | xv6-riscv/kernel/fs.c:431-441 | Writing an entry of one inode's indirect block, a block of bytes like any other, changes that one address among all addresses of all inodes. |
| FsBlocks.AllocKeeps | xv6-riscv/kernel/fs.c:67-90 | A freshly allocated block is nobody's, and no stored address changes. |
| FsBlocks.AttachDirect | xv6-riscv/kernel/fs.c:412-420 | Storing a fresh block as direct block k keeps ownership exact. |
| FsBlocks.AttachInd | xv6-riscv/kernel/fs.c:423-430 | Storing a fresh zeroed block as indirect block keeps ownership exact. |
| FsBlocks.AttachEntry | xv6-riscv/kernel/fs.c:431-441 | Storing a fresh block as an entry of the indirect block keeps ownership exact, although the write goes into the same block store that holds file bytes. |
| FsBlocks.DetachDirect | xv6-riscv/kernel/fs.c:456-461 | Dropping a direct address leaves exactly its block in transit. |
| FsBlocks.DetachInd | xv6-riscv/kernel/fs.c:463-473 | Dropping the indirect block leaves exactly it and the blocks it names in transit. |
| FileSystem.Volume.BmapDirect | xv6-riscv/kernel/fs.c:412-420 | Direct blocks: the stored address, or a fresh one that is then stored; nothing visible changes. |
| FileSystem.Volume.BmapInd | xv6-riscv/kernel/fs.c:423-430 | The indirect block, allocated on first use; all entries keep their addresses. |
| FileSystem.Volume.BmapEntry | xv6-riscv/kernel/fs.c:431-441 | An entry of the indirect block, allocated on first use. |
| FileSystem.Volume.Bmap | xv6-riscv/kernel/fs.c:406-445 | Returns the address then stored for block bn, 0 only when the disk is full; changes no byte of any file and no size; a mapped block is found without changing anything; logs at most that block, the indirect block and bitmap blocks, and logs every block it changes. |
| FsContents.WriteSplices | xv6-riscv/kernel/fs.c:540-552 | Patching part of one mapped block changes exactly those positions of that file and no byte of any other file. |
| FsContents.WriteKeepsOwn | xv6-riscv/kernel/fs.c:540-552 | Any bytes may go into a block that is not an indirect block: no stored address changes. (Into an indirect block they may not; that file blocks never are one follows from ownership.) |
| FsContents.SpliceIsOverlay | xv6-riscv/kernel/fs.c:529-563 | Block-level writes at off, n bytes of them counted, are the byte sequence with the new bytes laid over it and cut at max(size, off + n). |
| FsContents.SpliceSpares | xv6-riscv/kernel/fs.c:529-563 | No other file's byte sequence changes. |
| FsContents.WriteDone | xv6-riscv/kernel/fs.c:553-562 | With the size field raised, every position below every size is still mapped. |
| FileSystem.Volume.WriteChunk | xv6-riscv/kernel/fs.c:540-552 | One turn of the loop maps the block and writes what fits; nothing is counted when the disk is full or the source cannot be read that far, and in the latter case what could be read is in the block, unlogged. |
| FileSystem.Volume.WriteLoop | xv6-riscv/kernel/fs.c:540-552 | The loop writes all bytes, or stops only because every disk block is marked or the source can be read no further; the distinct data blocks logged are at most the blocks spanned. |
| FileSystem.Volume.WriteRange | xv6-riscv/kernel/fs.c:529-563 | On an accepted range the file becomes the old bytes with the bytes read laid over them at off, cut at size max(size, off + tot); all other files keep their bytes. |
| FileSystem.Volume.Writei | xv6-riscv/kernel/fs.c:529-563 | -1, and nothing changed, exactly for off beyond the size, a wrapping off + n, or an end beyond MAXFILE blocks; otherwise as above, with tot below n only when the disk is full or the source fails; every changed block, bitmap block and the inode block is logged, except the one block in which a failing source left uncounted bytes. |
| FsContents.WrittenWhole | xv6-riscv/kernel/fs.c:529-563 | With a source that can be read throughout, the result is the plain overlay of src[..tot]. |
| FsContents.BlockIsSlice | xv6-riscv/kernel/fs.c:506-512 | A stretch of a block below the size is mapped and is the same stretch of the file. |
| FileSystem.Volume.ReadChunk | xv6-riscv/kernel/fs.c:506-518 | One turn of the read loop: never empty, because every block below the size is mapped. |
| FileSystem.Volume.ReadLoop | xv6-riscv/kernel/fs.c:506-519 | The loop copies exactly the slice and changes nothing; it fails exactly when the destination takes fewer bytes, and then has delivered those. |
| FileSystem.Volume.Readi | xv6-riscv/kernel/fs.c:495-520 | Returns how many bytes of [off, off + n) lie below the size, 0 for off beyond the size or a wrapping off + n, and delivers exactly that slice; -1 exactly when the destination cannot take it, which has then received the bytes it can take; leaves the whole state unchanged: reading never allocates. |
| FsJournal.JournaledTwice | xv6-riscv/kernel/fs.c:406-563 | "Only inode i changed, and every changed block, bitmap block included, is logged" carries over from one step of an operation to the next. |
| FsJournal.JournaledAlloc | xv6-riscv/kernel/fs.c:67-90 | balloc logs the bitmap block it changed and the block it zeroed. |
| FsJournal.JournaledEntry | xv6-riscv/kernel/fs.c:433-438 | Storing an entry logs the indirect block. |
| FsTruncate.DropDirect | xv6-riscv/kernel/fs.c:456-461 | The freed direct block was marked, and ownership stays exact without it. |
| FsTruncate.DropInd | xv6-riscv/kernel/fs.c:463-473 | The entries are distinct blocks, none the indirect block itself, all marked, so each can be freed once. |
| FsTruncate.NothingLeft | xv6-riscv/kernel/fs.c:449-477 | With all 13 addresses cleared, a data block is marked exactly if another file owns it. |
| FsTruncate.Truncated | xv6-riscv/kernel/fs.c:474-476 | The file is empty and every other file has its bytes. |
| FileSystem.Volume.FreeDirects | xv6-riscv/kernel/fs.c:456-461 | The loop frees every direct block without a panic. |
| FileSystem.Volume.FreeIndirect | xv6-riscv/kernel/fs.c:463-473 | The loop frees every named block and then the indirect block without a panic. |
| FileSystem.Volume.Itrunc | xv6-riscv/kernel/fs.c:449-477 | "freeing free block" is unreachable; afterwards exactly the blocks of other files are marked, including when blocks lay beyond the size; other files keep their bytes; every changed bitmap block and the inode block are logged. |
| FileSystem.Volume.WriteOp | xv6-riscv/kernel/file.c:150-172 | One begin_op/end_op chunk logs every block it changes (but for the block a failing source spoils), and at most 7 distinct blocks when the bitmap is one block. |
| FileSystem.Volume.Filewrite | xv6-riscv/kernel/file.c:148-173 | Returns n if and only if all n bytes were written, else -1; the file has exactly the bytes read laid over it at the old offset, cut at the bytes counted; every chunk stays within 7 of the MAXOPBLOCKS reserved; a short write means a full disk, a failing source or a refused range. |
| FileCrash.CallSurvivesCrash | xv6-riscv/kernel/fs.c:529-563 | A file-system call that logs all it changes, alone in the log: crash at any point of it or of its commit, cut any number of recoveries, let one finish, and read inodes and data blocks back from the disk. All files are as before the call, or all as the call left them; the latter exactly when the operation is among those on disk. |
| FileCrash.WriteSurvivesCrash | xv6-riscv/kernel/file.c:155-172 | For a turn of filewrite: after the crash the file has its old bytes or all the bytes written laid over them, and every other file its old bytes. |
| FileCrash.DecodedBack | xv6-riscv/kernel/fs.h:30-45 | Inodes and data blocks read back from their disk blocks are those written: sixteen inodes to a block, size and thirteen addresses each, bytes lowest first. |
| FileCrash.UnloggedSame | xv6-riscv/kernel/fs.c:223-243 | A journaled call leaves every disk block that it does not log the same: data blocks, bitmap blocks bit by bit, and inode blocks. |
| FileCrash.IdleCommit | xv6-riscv/kernel/log.c:196-206 | commit() of a group of operations below their budgets does not panic while nobody else holds a buffer, and installs the group. |
| Mlfq.StepKeepsInv | xv6-riscv/kernel/proc.c:697-786 | Every step keeps: stamps of RUNNABLE processes distinct and below the counter, queue in 0..3, ticks_used below the slice of 1, 4, 8 or 16; process ids positive, distinct and not reused, and 0 exactly for free slots. |
| Mlfq.QueuesUnique | xv6-riscv/kernel/proc.c:32-38 | Stamps and queue numbers read as four lists in one way only. |
| Mlfq.BestIsHead | xv6-riscv/kernel/proc.c:577-590 | The scan's choice is exactly the head of the first non-empty list. |
| Mlfq.DispatchPops | xv6-riscv/kernel/proc.c:591-608 | Dispatch removes that head and nothing else. |
| Mlfq.ReadyAppends | xv6-riscv/kernel/proc.c:32-38 | mlfq_enqueue appends at the tail of the process's list. |
| Mlfq.MergeOfAll | xv6-riscv/kernel/proc.c:774-786 | The stamp-ordered merge of the four lists is all waiting processes in stamp order. |
| Mlfq.BoostMerges | xv6-riscv/kernel/proc.c:774-786 | A boost makes list 0 that merge and empties the others. |
| Mlfq.ChargeRefines | xv6-riscv/kernel/proc.c:731-765 | A charged tick: stay, or demote and append, or append, according to the slice and to a waiting higher list. |
| Mlfq.ClockRefines | xv6-riscv/kernel/trap.c:182-201 | A clock tick merges exactly on multiples of 48. |
| Mlfq.StepRefinesQueues | xv6-riscv/kernel/proc.c:544-608 | Every step of the kernel is the corresponding step on four FIFO lists. |
| Mlfq.QRun | xv6-riscv/kernel/proc.c:544-608 | Along every run the table is read as the lists so computed. |
| MlfqFairness.NobodyOvertakes | xv6-riscv/kernel/proc.c:560-608 | No step puts a process in front of one that keeps waiting, and each dispatch at list 0 takes one away from in front. |
| MlfqFairness.BudgetPays | xv6-riscv/kernel/proc.c:731-786 | A measure of waiting (ticks to the next boost, then processes in front) pays for every charged tick. |
| MlfqFairness.WaitIsBounded | xv6-riscv/kernel/proc.c:731-786 | Starvation freedom: on every run, with any creation, sleep, wake-up and exit of others, a ready process is dispatched before BOOST + NPROC ticks are charged. |
| MlfqFairness.SwitchesBounded | xv6-riscv/kernel/proc.c:560-608 | Once in list 0, a process is dispatched within one more dispatch than there were processes ahead of it. |
| MlfqCode.Scheduler.constructor | xv6-riscv/kernel/proc.c:71-87 | Every slot unused, with pid 0 and no mark; the four lists are empty. |
| MlfqCode.Scheduler.Ready | xv6-riscv/kernel/proc.c:32-38 | Stamp taken and counter advanced, as the list append requires. |
| MlfqCode.Scheduler.PickBest | xv6-riscv/kernel/proc.c:577-590 | The scan returns a best process, -1 exactly when none is runnable. |
| MlfqCode.Scheduler.Schedule | xv6-riscv/kernel/proc.c:560-608 | One scheduler round dispatches a best process or idles. |
| MlfqCode.Scheduler.Yield | xv6-riscv/kernel/proc.c:697-712 | The running process goes to the tail of its list. |
| MlfqCode.Scheduler.AnyHigher | xv6-riscv/kernel/proc.c:751-765 | The scan of mlfq_tick says exactly whether a lower-numbered list has a waiting process. |
| MlfqCode.Scheduler.MlfqTick | xv6-riscv/kernel/proc.c:731-765 | Charging, demotion at the end of the slice, and preemption. |
| MlfqCode.Scheduler.MlfqBoost | xv6-riscv/kernel/proc.c:774-786 | The loop moves every process to queue 0 with a fresh slice. |
| MlfqCode.Scheduler.Sleep | xv6-riscv/kernel/proc.c:828-864 | The running process leaves the CPU asleep on its channel. |
| MlfqCode.Scheduler.Wakeup | xv6-riscv/kernel/proc.c:868-890 | The loop wakes every sleeper on the channel, in slot order. |
| MlfqCode.Scheduler.AllocProc | xv6-riscv/kernel/proc.c:121-154 | Takes the first free slot, with the next process id and a fresh queue, and leaves the killed flag alone; -1 exactly when no slot is free. |
| MlfqCode.Scheduler.Kkill | xv6-riscv/kernel/proc.c:892-919 | The first process with the pid gets its killed flag and is woken if it sleeps; says whether there is one. |
| MlfqCode.Scheduler.ClockIntr | xv6-riscv/kernel/trap.c:182-201 | Tick, wake the sleepers on ticks, boost when due, in this order. |
| MlfqCode.Scheduler.TimerInterrupt | xv6-riscv/kernel/trap.c:85-91 | clockintr and then mlfq_tick, so a process boosted in this interrupt is charged in it too; the invariant is kept. |
| MlfqCode.WakeupIsRun | xv6-riscv/kernel/proc.c:868-890 | A wakeup is a run of single wake-ups, so every result about runs holds across it. |
| MlfqKill.KillMarks | xv6-riscv/kernel/proc.c:895-919 | In every state with ids in order: kkill(pid) marks exactly the process with that id, or, for pid 0, exactly the free slot that the next allocproc takes; a free slot is marked if and only if pid is 0 and it is the first free one. |
| MlfqKill.BornAfterKill | xv6-riscv/kernel/proc.c:137-154 | The process that allocproc makes right after kkill(pid), from a state whose free slots are clear, is killed if and only if pid is 0. |
| MlfqKill.KillZeroReachesNewborn | xv6-riscv/kernel/proc.c:895-919 | The input: from any state with a free slot, kkill(0), allocproc and the start of the process are a run that leaves it RUNNABLE with the next id, and killed. |
| MlfqKill.BornKilledIff | xv6-riscv/kernel/proc.c:137-154 | In every run, a process comes out of allocproc killed if and only if a kkill(0) reached its slot since the slot was last released. |
| MlfqKill.NobodyBornKilled | xv6-riscv/kernel/proc.c:895-919 | In every run without kkill(0), free slots stay clear and nobody comes out of allocproc killed. |
| MlfqKill.KilledByOwnPid | xv6-riscv/kernel/proc.c:895-927 | In every run from boot without kkill(0), a process is killed if and only if kkill was called with its own id, or it was running in a setkilled, since it was made. |
| MlfqKill.KillIsRun | xv6-riscv/kernel/proc.c:895-919 | kkill is a run of at most two steps: the first slot with that pid is marked, then its process woken exactly if it sleeps; so every result about runs holds across it. |
| MlfqKill.KilledIff | xv6-riscv/kernel/proc.c:203-229 | Nothing but the release of its slot takes a mark back. |
| SleepLock.MutualExclusion | xv6-riscv/kernel/sleeplock.c:21-41 | In every interleaving of the machine-level steps of acquiresleep, releasesleep, sleep and wakeup with their spin locks, at most one process holds the sleep lock. |
| SleepLock.NoLostWakeup | xv6-riscv/kernel/proc.c:828-890 | A process sleeps on the lock only while the lock is held or a releaser's wakeup scan has not yet passed it. |
| SleepLock.FreeMeansAwake | xv6-riscv/kernel/sleeplock.c:33-41 | With the lock free and nobody inside its spin lock, nobody sleeps on it. |
| SleepLock.StuckOnlyBehindHolder | xv6-riscv/kernel/sleeplock.c:21-41 | When no process can move, each one is idle, holds the lock, or sleeps behind an existing holder: no deadlock among the spin locks. |
| SleepLock.StepKeepsInv | xv6-riscv/kernel/proc.c:828-890 | Every step of every process keeps the invariant over lk, p->lock, state and channel. |
| PageTable.WordRoundTrip | xv6-riscv/kernel/riscv.h:386-392 | A page-table entry survives packing into its 64-bit word, PPN above 10 flag bits. |
| PageTable.PxNum | xv6-riscv/kernel/riscv.h:394-397 | The three 9-bit indices of a page number determine it. |
| PageTable.NumPx | xv6-riscv/kernel/riscv.h:394-397 | Every page number below the top is given by its indices. |
| AddressSpaces.AddressSpace.UvmCreate | xv6-riscv/kernel/vm.c:178-188 | An empty tree in the first free page; no tree exactly when no page is free. |
| AddressSpaces.AddressSpace.Kalloc | xv6-riscv/kernel/kalloc.c:68-82 | Pops the first free page, filled with junk; None exactly when the list is empty. |
| AddressSpaces.AddressSpace.Kfree | xv6-riscv/kernel/kalloc.c:46-63 | Pushes the page, overwritten with junk; panics exactly for a page outside the managed memory. |
| AddressSpaces.AddressSpace.StepRoot | xv6-riscv/kernel/vm.c:98-116 | Level 2 of walk: finds or links a level-1 table; exact page count. |
| AddressSpaces.AddressSpace.StepMid | xv6-riscv/kernel/vm.c:98-116 | Level 1 of walk: finds or links a level-0 table; exact page count. |
| AddressSpaces.AddressSpace.Walk | xv6-riscv/kernel/vm.c:98-116 | Finds the level-0 table; with alloc it succeeds exactly if the free list has the missing tables' pages and uses exactly those; no mapping changes. |
| AddressSpaces.TablesAreNew | xv6-riscv/kernel/vm.c:98-116 | The number of table pages a range needs is the number of tables that are not there yet, each counted once. |
| AddressSpaces.NothingMissing | xv6-riscv/kernel/vm.c:98-116 | After that many, nothing is missing for any page of the range. |
| AddressSpaces.AddressSpace.MapPages | xv6-riscv/kernel/vm.c:141-175 | Maps a range of user or kernel pages in order, however far the tables go: done == n if and only if the free list has the pages of all missing tables, and otherwise it stops exactly at the first page whose tables it cannot supply; what was mapped stays. |
| AddressSpaces.AddressSpace.MapPage | xv6-riscv/kernel/vm.c:161-174 | One page mapped; succeeds exactly when the table pages are available. |
| AddressSpaces.AddressSpace.UnmapPage | xv6-riscv/kernel/vm.c:202-212 | Removes exactly one mapping; a user page goes to the free list. |
| AddressSpaces.AddressSpace.UvmUnmap | xv6-riscv/kernel/vm.c:190-213 | Removes exactly the mappings in the range, frees exactly their pages, loses none. |
| AddressSpaces.AddressSpace.AllocPage | xv6-riscv/kernel/vm.c:228-239 | kalloc, fill, map, and undo on failure: succeeds exactly with one page more than the missing tables need. |
| AddressSpaces.AddressSpace.UvmAlloc | xv6-riscv/kernel/vm.c:215-242 | Succeeds if and only if the free list has the pages and the missing tables' pages of the range; then exactly the pages between the rounded sizes are added, zeroed; else the mapping is the old one; nobody else's page is touched; the "remap" panic is unreachable. |
| AddressSpaces.AddressSpace.UvmDealloc | xv6-riscv/kernel/vm.c:244-260 | Exactly the pages between the rounded sizes are removed and freed. |
| AddressSpaces.AddressSpace.GrowProc | xv6-riscv/kernel/proc.c:296-317 | -1 if and only if growing passes TRAPFRAME or the free list has too few pages for the range and its tables; size and mapping after growing, failing to grow, shrinking, and shrinking below zero, where 64-bit wrap-around makes it a no-op. |
| AddressSpaces.AddressSpace.SbrkLazy | xv6-riscv/kernel/sysproc.c:40-65 | Only the size grows, up to TRAPFRAME. |
| AddressSpaces.AddressSpace.VmFault | xv6-riscv/kernel/vm.c:450-475 | Maps a zeroed page exactly when va is below the size, unmapped, and memory suffices; otherwise changes no mapping. |
| AddressSpaces.AddressSpace.IsMapped | xv6-riscv/kernel/vm.c:477-488 | Says whether the page is mapped, without changing anything. |
| AddressSpaces.AddressSpace.ReadForeign | xv6-riscv/kernel/vm.c:306-312 | Reading another process's tree gives its mapping. |
| AddressSpaces.AddressSpace.CopyPage | xv6-riscv/kernel/vm.c:306-320 | One parent page copied, or the failure exactly when memory is short. |
| AddressSpaces.AddressSpace.UvmCopy | xv6-riscv/kernel/vm.c:292-326 | Succeeds if and only if the free list has one page per parent page and the tables these need; then the child maps exactly the parent's pages with the same flags and contents in its own pages; else the child's mapping is as before; the parent's tree and pages are untouched. |
| AddressSpaces.CopiesAreNew | xv6-riscv/kernel/vm.c:292-326 | The number of pages uvmcopy needs is one for every page of the parent and one for every table that is not there yet, each counted once. |
| AddressSpaces.CopiesUse | xv6-riscv/kernel/vm.c:292-326 | The tables there are afterwards are the old ones and those on the way to the copied pages. |
| AddressSpaces.AddressSpace.FreeWalk | xv6-riscv/kernel/vm.c:262-280 | The whole tree returns to the free list and the "leaf" panic is unreachable. |
| AddressSpaces.AddressSpace.FreeProc | xv6-riscv/kernel/proc.c:265-273 | Every page the process owned is free again, nobody else's is, and no panic happens. |
| Umalloc.Disjoint | xv6-riscv/user/umalloc.c:24-44 | Two blocks, live or free, never overlap. |
| Umalloc.UnitsConserved | xv6-riscv/user/umalloc.c:24-90 | While the blocks are backed, the sizes of all live and free blocks add up to exactly the units obtained from sbrk. |
| Umalloc.RingInsert | xv6-riscv/user/umalloc.c:36-42 | Linking a block behind its predecessor keeps the list circular and address-ordered with one wrap. |
| Umalloc.RingRemove | xv6-riscv/user/umalloc.c:76-77 | Unlinking keeps the list circular and address-ordered. |
| Umalloc.MergeKeepsPartition | xv6-riscv/user/umalloc.c:31-42 | Two touching blocks become one without gaining or losing a unit. |
| Umalloc.SplitKeepsPartition | xv6-riscv/user/umalloc.c:78-82 | A split hands the tail units, and only those, to the new block. |
| Umalloc.Allocator.FindSlot | xv6-riscv/user/umalloc.c:29-32 | The search terminates at the list element the block belongs behind, including the wrap. |
| Umalloc.Allocator.LinkNext | xv6-riscv/user/umalloc.c:33-37 | Merges with the next free block exactly if they touch. |
| Umalloc.Allocator.LinkPrev | xv6-riscv/user/umalloc.c:38-42 | Merges with the previous free block exactly if they touch; afterwards no two free blocks touch. |
| Umalloc.Allocator.Free | xv6-riscv/user/umalloc.c:24-44 | The block leaves the live set, its units lie in a free block at least as large, other live blocks are untouched, all invariants hold, and freep is the list element just below the block. |
| Umalloc.Allocator.Morecore | xv6-riscv/user/umalloc.c:46-61 | At least nunits fresh units in one free block; blocks and memory obtained from sbrk, if the same units before, stay so exactly if sbrk's signed 32-bit argument is the number meant. |
| Umalloc.Allocator.Search | xv6-riscv/user/umalloc.c:73-87 | One lap of the search terminates at the first block large enough after freep, or back at freep exactly if there is none. |
| Umalloc.Allocator.Take | xv6-riscv/user/umalloc.c:74-85 | A fitting block is taken whole, or its tail is split off, and freep is the element before it. |
| Umalloc.Allocator.AllocFresh | xv6-riscv/user/umalloc.c:86-89 | After morecore the second lap always finds a block, so morecore is called at most once. |
| Umalloc.Allocator.Malloc | xv6-riscv/user/umalloc.c:63-90 | 0 exactly if no free block fits and sbrk fails; else a new live block of exactly the units asked for, others untouched; if the blocks were exactly the memory obtained from sbrk, they are so afterwards if and only if a free block fitted or nbytes is at most MAXREQUEST. |
| Umalloc.RequestSurvives | xv6-riscv/user/umalloc.c:53-53 | The byte count survives the conversion to sbrk's int parameter if and only if nbytes is at most 2^31 - 32. |
| Umalloc.HugeRequestAsksForOneUnit | xv6-riscv/user/umalloc.c:53-53 | A request of 4294967295 bytes asks sbrk for 16. |
| Umalloc.NextAnswerClear | xv6-riscv/user/umalloc.c:53-58 | sbrk's next answer lies behind the block just made if and only if the argument survived the conversion. |
| Umalloc.NextClearIff | xv6-riscv/user/umalloc.c:46-61 | After a block of fresh memory, sbrk's next answer lies behind every block again if and only if the argument survived. |
| Umalloc.HugeRequestOverlaps | xv6-riscv/user/umalloc.c:53-58 | After malloc(4294967295), the next block made of fresh memory lies inside the block just returned. |
| Peek.ReverseSeekable | c-shell/src/peek.c:152-238 | For every NUL-free file, every chunk size from 1 and either flag, the backward chunked reader prints exactly the reversed lines, with forward numbers, and leaves the same counter. |
| Peek.ReverseBuffered | c-shell/src/peek.c:52-108 | The forward reader that keeps all lines prints exactly the same and leaves the same counter. |
| Peek.WalkChunk | c-shell/src/peek.c:183-225 | The inner loops over one chunk, with the piece carried over a chunk boundary. |
| Peek.NewlineBefore | c-shell/src/peek.c:186-189 | The scan for the newline before a position. |
| Peek.EmitStep | c-shell/src/peek.c:198-218 | A newline found completes a line: printing it with the next number down keeps what remains to print exact. |
| Peek.CarryStep | c-shell/src/peek.c:219-225 | Carrying a piece over changes nothing that remains to print. |
| Peek.LastStep | c-shell/src/peek.c:228-237 | What is left over at the start of the file is its first line, an empty one if nothing is left. |
| Peek.CountNonempty | c-shell/src/peek.c:114-132 | The chunked forward pass counts exactly the non-blank lines. |
| Peek.Gather | c-shell/src/peek.c:52-86 | The forward pass stores every line with its number. |
| Peek.PrintedIsItem | c-shell/src/peek.c:88-104 | The reverse pass adds a newline exactly where the file's last line has none. |
| Peek.SplitJoin | c-shell/src/peek.c:183-226 | Splitting at newlines commutes with joining by a newline, at any place. |
| Peek.SplitRoundTrip | c-shell/src/peek.c:66-86 | Joined with newlines the pieces are the text, and no piece has a newline. |
| Pipe.RunFifo | xv6-riscv/kernel/pipe.c:76-134 | Over every interleaving of bytes put in and taken out under the lock, with both counters wrapping at 2^32: the bytes delivered are a prefix of those accepted, and at most PIPESIZE are in the ring. |
| Pipe.FullAndEmpty | xv6-riscv/kernel/pipe.c:88-121 | The full and empty tests on wrapped counters hold exactly when 512 and 0 bytes are in the ring. |
| Pipe.SamePlace | xv6-riscv/kernel/pipe.c:95-124 | Because 512 divides 2^32, the wrapped counter finds the same ring slot. |
| Pipe.PutHolds | xv6-riscv/kernel/pipe.c:95-96 | Putting a byte in a ring that is not full overwrites nothing undelivered. |
| Pipe.TakeHolds | xv6-riscv/kernel/pipe.c:122-130 | Taking a byte from a ring that is not empty gives the oldest undelivered one. |
| Pipe.PipeBuffer.constructor | xv6-riscv/kernel/pipe.c:22-56 | A new pipe is empty and open at both ends. |
| Pipe.PipeBuffer.Close | xv6-riscv/kernel/pipe.c:58-74 | Closes one end; the page is freed exactly when both are closed. |
| Pipe.PipeBuffer.Write | xv6-riscv/kernel/pipe.c:76-103 | A locked stretch appends exactly src[i0..i] to what was accepted; how it ends is determined: at n it returns, before n it returns -1 with the reader gone or the writer killed, sleeps with exactly 512 bytes undelivered, and else stops at a failed copy. |
| Pipe.PipeBuffer.Read | xv6-riscv/kernel/pipe.c:105-134 | A locked stretch delivers the next bytes in order, exactly min(n, bytes in the ring, bytes before a failed copy) of them; it sleeps, or returns -1 if killed, exactly with nothing undelivered and the writer open; -1 also exactly when the first copy fails; so 0 for a positive count means everything was delivered and the writer closed. |
| JobRuns.AnnouncedOnce | c-shell/src/bg.c:312-364 | In every state of every interleaving of launches, handler, drain and sweep: a job's completion line is printed exactly when the ends of all its processes are recorded, at most once, with the verdict of its lead; until then it is in the table. |
| JobRuns.QuiescentIsComplete | c-shell/src/bg.c:386-420 | With nothing queued, a job is announced exactly when waitpid has reported the end of each of its processes. |
| JobRuns.NoEventDropped | c-shell/src/bg.c:48-70 | Every status the handler collects is recorded in order or still waits. |
| JobRuns.TableInOrder | c-shell/src/bg.c:199-239 | The table is dense, job numbers rise strictly and are never reused, and a job's stopped flag is the OR over its live processes. |
| JobFlags.FlagIsLastReport | c-shell/src/bg.c:32-34 | In every run, once no status of a process waits in the queue, its flag is the last status reported of it if and only if that report was not a sweep that overtook a contrary one in the queue. |
| JobFlags.JobFlagIsRight | c-shell/src/bg.c:32-34 | So a job says Stopped exactly when the last report of one of its processes was a stop, provided none was overtaken. |
| JobFlags.SweepOvertakes | c-shell/src/bg.c:386-420 | It happens: a stop is queued, the second sweep reports the continue first, and draining the queue leaves the running job marked as stopped. |
| JobFlags.FlagsFollow | c-shell/src/bg.c:366-384 | The flag of each process in the table is always the last status that reached the table. |
| JobFlags.RecordFollows | c-shell/src/bg.c:366-384 | Recording a status moves exactly that process's flag, wherever in the table it is. |
| JobRuns.StepKeeps | c-shell/src/bg.c:48-420 | Every step keeps the invariant behind these claims. |
| JobTable.RecordHistory | c-shell/src/bg.c:366-384 | Recording a status writes down an exit of a tracked process and nothing else, and prints a line exactly when the job has no process left. |
| JobTable.ExitKeeps | c-shell/src/bg.c:315-338 | A process that is not the last one leaves its job. |
| JobTable.LastExitKeeps | c-shell/src/bg.c:340-359 | The last one retires the job with one line; the lead's status is always known then. |
| JobTable.OnlyOneLeft | c-shell/src/bg.c:340-341 | When the last process ends, the status used for the line is the lead's. |
| JobTable.FlagKeeps | c-shell/src/bg.c:373-382 | Stops and continues change only that process's flag and the job's. |
| JobTable.StartKeeps | c-shell/src/bg.c:199-239 | A new job goes to the end with the next number. |
| JobCode.RoomToWatch | c-shell/src/bg.c:85-110 | The watch list has room for every tracked process: the "completely full" case does not happen. |
| JobCode.JobControl.constructor | c-shell/src/bg.c:163-188 | Empty table, watch list and queue. |
| JobCode.JobControl.WatchPid | c-shell/src/bg.c:85-110 | The process is watched once, in the first free slot; nothing else changes. |
| JobCode.JobControl.UnwatchPid | c-shell/src/bg.c:112-131 | Exactly that process is no longer watched; says whether it was. |
| JobCode.JobControl.SyncStopped | c-shell/src/bg.c:190-197 | The flag is the OR over the job's processes. |
| JobCode.JobControl.FindPid | c-shell/src/bg.c:315-326 | The nested search finds the first job and position that have the process. |
| JobCode.JobControl.ChildExited | c-shell/src/bg.c:308-364 | The table changes as the specification function says, a line is printed exactly for the last process, and every live process stays watched or queued. |
| JobCode.JobControl.RecordStatus | c-shell/src/bg.c:366-384 | Stops, continues and exits of tracked and unknown processes. |
| JobCode.JobControl.CheckBgJobs | c-shell/src/bg.c:386-420 | All statuses queued at the call and then all swept ones are recorded in order, however often the handler interrupts before each of them; the result is the number of lines printed; the queue then holds what the handler collected meanwhile. |
| JobCode.JobControl.Handler | c-shell/src/bg.c:48-70 | Statuses are queued for watched processes only and never without room; an exit ends the watch; with room left every available status is collected; also between the copy of the queue and the recording of it. |
| JobCode.JobControl.AddJob | c-shell/src/bg.c:199-239 | Refused exactly without processes or with 256 jobs; else the first 16 processes are tracked and watched under the next number. |
| JobCode.JobControl.RegisterStopped | c-shell/src/bg.c:254-268 | The same with every process marked stopped. |
| Grammar.AcceptedIffWellFormed | c-shell/src/lexer.c:344-424 | The recursive-descent check accepts exactly the empty line and the lines that start with a word and have a word right after every operator except a final &. |
| Grammar.ArgIff | c-shell/src/lexer.c:344-408 | The same for the rest of a line from any cursor. |
| Grammar.RunSequence | c-shell/src/seq.c:253-278 | Every group run starts with a word and ends at its separator, & groups are the background ones, and only a failing foreground group stops the line; on accepted lines the groups and separators concatenate back to the line. |
| Grammar.NextGroup | c-shell/src/seq.c:256-275 | On accepted lines every separator is followed by a word or the end, so no token is skipped. |
| Grammar.Segments | c-shell/src/exec.c:564-594 | The counted arrays are filled exactly, and the segments are the stretches between pipes up to the separator. |
| Grammar.SegmentsAccepted | c-shell/src/exec.c:513-594 | On accepted lines every segment has argc at least 1, argv[0] is its first word, and every redirection has a word as target within the segment. |
| Grammar.ExtractSegmentArgv | c-shell/src/exec.c:513-554 | Both passes agree: argv is exactly the words that are not redirection targets. |
| Grammar.ExtractGroup | c-shell/src/seq.c:6-38 | argv is exactly the words before the first operator. |
| Grammar.LeadingIsPrefix | c-shell/src/seq.c:6-38 | What extract_group finds is a prefix of what extract_segment_argv finds. |
| Grammar.SameArgvIff | c-shell/src/exec.c:513-554 | They are equal if and only if no plain word follows the first operator. |
| Grammar.ArgvsDiffer | c-shell/src/exec.c:513-554 | An accepted line on which they differ. |

## Left out

Simplifications within the modelled parts:

- LogDevice.Device.Commit: the buffer cache is a map from at most NBUF blocks to contents, with pins and references counted; which buffer holds a block, and which is recycled, is the subject of BufferCache and LoggedCache.
- GroupCommit.CommitExcludesOps: the commit work between the two sections of end_op is one step here; CrashSafety has its block writes one by one.
- CrashSafety.SyncSurvivesCrash: an operation is the sequence of its log_writes with the contents logged; commit() is taken to find its buffers, which LogDevice and LoggedCache say when.
- FileCrash.CallSurvivesCrash: the call is the only operation in the log, from its beginning to the crash; two calls that share a group are not joined at the level of files. Calls that change the type, device or link count of an inode are not modelled. A call whose source fails part-way is not covered, since it does not log all it changes.
- LoggedCache.StepKeepsInv: the list of logged blocks is a set, and one installation (write home, unpin) is one step; the sleep locks of buffers appear as ownership.
- MlfqFairness.WaitIsBounded: one CPU, with the scan atomic; arrival stamps, ticks and process ids are unbounded integers; steps of other processes may happen in any order, which covers more runs than the kernel has.
- SleepLock.NoLostWakeup: the scheduler's part of swtch is one step, and the only channel modelled is the sleep lock's.
- AddressSpaces.AddressSpace.Walk: the level loop of walk and the recursion of freewalk are written out per level (two inner levels and the leaves).
- AddressSpaces.AddressSpace.MapPages: addresses are page numbers, so the alignment panics do not come up; a page already mapped in the range, the "remap" panic, and an empty range are excluded.
- AddressSpaces.AddressSpace.UvmCopy: the parent's tree is read, not locked.
- Umalloc.Allocator.Malloc: addresses count headers of 16 bytes; the endless search loop is written as one lap, morecore, and a second lap, which is where the source's loop continues; sbrk's answer is a parameter above all memory obtained from it; a call that needs fresh memory gets it behind all blocks, which after a block of fresh memory is so exactly if its request survived (NextClearIff); block sizes are unbounded, since 2^32 units exceed the machine's memory.
- FileSystem.Volume.Writei: a source that can be read for a number of bytes is copied for just these, which is what copyin does page by page.
- FileSystem.Volume.Readi: a destination that can be written for a number of bytes receives just these, which is what copyout does page by page.
- FileSystem.Volume.Bmap: the in-memory inode and its copy on disk are one; the bitmap and inode blocks lie outside the data area and are kept apart from its bytes.
- FileSystem.Volume.Filewrite: begin_op and end_op reset the set of blocks this operation logs; waiting for log space is in GroupCommit.
- Peek.ReverseSeekable: files without NUL bytes, reads that return all the bytes asked for, and line counters from 1 on without overflow; memory allocation succeeds.
- Pipe.PipeBuffer.Write: one call is a sequence of stretches under the lock, cut where the process sleeps; wakeup has no effect of its own in the model.
- JobRuns.AnnouncedOnce: process ids are distinct and not reused, and no job is resumed in the foreground or removed.
- JobFlags.FlagIsLastReport: the status a job is started with counts as a report.
- JobCode.JobControl.CheckBgJobs: the handler interrupts between two recordings, not within one; JobRuns has the same steps. Names, command lines and the process group id are not kept.
- Grammar.RunSequence: what a group does is a parameter, its result code.

Not modelled:

- tokenize and token_group_to_string (c-shell/src/lexer.c): quoting and escapes; the grammar starts from a token list.
- copyin, copyout, copyinstr, uvmclear, walkaddr and the kernel's own page table (xv6-riscv/kernel/vm.c); freerange (xv6-riscv/kernel/kalloc.c): copying between user and kernel memory appears as a number of bytes that can be copied.
- proc_pagetable's cleanup paths, kexec, kfork's copying of files and names, kexit and kwait.
- Path lookup, directories, the inode table and its locks, the file table, devices and interrupts.
- The FCFS and round-robin builds of the scheduler, update_times and note_dispatch.
- fg_wait, resume, ping, snoop, hop, the terminal, redirection helpers and process creation in the shell.
- bg_set_stopped, bg_set_running, bg_remove_job and bg_hangup_all: used by resume and at shell exit.
