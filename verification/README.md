# A verified model of the kernel's storage, memory, scheduling and network core

This project models the core of an xv6-derived RISC-V kernel in Dafny 4.11 and
proves what that core is for. Each part follows its C file: structures that are
updated in place are classes, loops are loops with invariants, and protocols between
processes are state machines over their atomic steps. `dafny verify dfyconfig.toml`
verifies all of it.

**Crash-safe storage** (`Blocks`, `BufferCache`, `CacheRuns`, `CacheCalls`, `RedoLog`,
`Pins`, `LogRounds`, `LogManager`, `Transaction`, `LogCases`, `LogAdmission`). The disk is a
sequence of blocks, every `bwrite` is one atomic step, and a crash may fall between any
two. `RedoLog` proves crash atomicity of the redo log: whatever prefix of commit's writes
reached the disk, and however many recoveries were themselves cut short, the first
recovery to finish leaves the home blocks as before the transaction or as after it, and
the log empty. `BufferCache` is the 13-bucket cache of 30 buffers, one call at a time;
`CacheRuns` interleaves the steps of bget, bread, bwrite, brelse, bpin and bunpin of any
number of users, with bucket locks, waiting on a buffer and buffers on their way from one
bucket to another, and shows that all of it is a plain array of blocks to its users;
`CacheCalls` leads one user through each call.
`Pins` and `LogRounds` hold the accounting of reference counts that keeps a logged block
in the cache; `LogManager` has the methods of `log.c` on that cache and shows that the
writes they issue are exactly those `RedoLog` reasons about. `Transaction` puts the
layers together: blocks changed through the cache and the log, then committed, survive a
crash all or none. `LogCases` has the runs in which the log fails. `LogAdmission`
interleaves begin_op, log_write and end_op of any number of processes.

**Files** (`ByteBlocks`, `FileTree`, `FileWrites`, `Files`, `DiskFormat`, `FileLog`). Inodes
with 11 direct, one single-indirect and one double-indirect block, over a bitmap. Every
block reachable from an inode has one owner; writei, readi and itrunc behave as operations
on byte sequences; other files never change. Each operation records the changes of blocks
it logs, in order, and `FileWrites` bounds where they go. `DiskFormat` lays the state out
in the disk's inode, bitmap and data blocks; `FileLog` performs the recorded changes one by
one through the cache and the log: a write or a truncation that a crash interrupts comes
back as the old contents or as the new ones, and filewrite, which splits a write into
transactions, as the first so many of its parts.

**Virtual memory** (`PageTable`, `Entries`, `Cow`, `TablePages`, `Vm`, `CowRun`,
`FrameRuns`).
`PageTable` shows that the three-level Sv39 tree (section 4.4 of the RISC-V Privileged
Architecture manual) is a flat map from pages to entries, and `Entries` that the flag
arithmetic on 64-bit entries does what the other modules say. Over flat page tables,
`Cow` and `Vm` model frames, reference counts, per-processor free lists with stealing,
growing, shrinking, fork by sharing, faults, exit, and the copies to and from user
memory; `TablePages` keeps the pages the tables themselves are in, which operations
allocate and exit gives back. `CowRun` states the whole: over any sequence of operations
each process sees what a fork that copies at once would give it, kalloc refuses only what
there is no memory for, and when all processes are gone every frame is back. `FrameRuns` says so again for any number of
processors: it interleaves the critical sections of kalloc, kfree and kaddrefcnt and the
unlocked look at the count in cowalloc.

**Allocators** (`Heap`, `Slab`). The circular free list of section 8.7 of Kernighan
and Ritchie, with coalescing, over sbrk as the system call treats its 32-bit argument,
and the kernel's slab allocator.

**Processes** (`SleepLock`, `Mlfq`, `Pipe`). Sleep locks over all interleavings of
their steps, including wakeups by kill; the multi-level feedback queue with its
deadline and real-time classes; a pipe whose 32-bit counters wrap.

**Network and rate limits** (`Net`, `TokenBucket`). The Internet checksum (section 1
of RFC 1071), UDP (RFC 768) over IP (section 3.1 of RFC 791) over Ethernet, and the
token buckets of control groups.

`Common` and `Tables` hold what several modules share.

## What turned out not to hold

Each of these is proved both ways: where the property fails, and the exact condition
under which it holds.

- Recovery unpins buffers that nobody pinned, so their counts wrap below zero. The
  accounting of pins holds after recovery exactly when there was nothing to recover
  (`LogManager.Log.RecoverFromLog`; `LogCases.RecoverOne` is a boot where it does not).
  The next update of a recovered block is left with count zero although it is logged,
  exactly if the block was recovered (`LogCases.RecoveredCountIsZero`), and reads of
  other blocks then throw it away (`LogCases.RecoveredUpdateLost`).
- commit panics exactly when 30 blocks are logged: all 30 buffers are pinned and none
  is left for a log block (`LogManager.Log.Commit`; `LogCases.ThirtyBlocks` gets there
  from boot).
- log_write tests for a full log before it looks for the block in it. A write that
  would be absorbed panics exactly when the log holds LOGSIZE blocks
  (`LogAdmission.PanicsExactlyWhenFull`, with a run that gets there in
  `LogAdmission.AbsorbingWriteCanPanic`).
- Between two priority boosts every always-runnable process gets five slices exactly
  when there are at most 20 of them; a process with 20 others before it never runs
  again (`Mlfq.FairExactlyUpToTwenty`, `Mlfq.Starved`; `Mlfq.LastOfTwentyOne` has such
  runs of every length).
- Round-robin real-time processes of the highest priority take turns exactly when there is
  but one of them: of several, the first in the table runs in every round
  (`Mlfq.TakeTurnsOnlyAlone`, `Mlfq.SecondOfTwo`). The design document promises rotation.
- A deadline process has at most its runtime of turns in a period if it never ends one
  asleep; a turn that ends asleep is not charged (`Mlfq.BudgetOfAPeriod`,
  `Mlfq.ChargedForAll`; `Mlfq.SleeperIsNotCharged` has every turn with a runtime of one).
- When a process ends, its frames are all given back exactly when nothing is mapped at
  or above its size; the fault handler does map pages there, and freewalk passes over
  them (`Vm.Machine.Uvmfree`, over whole runs `CowRun.Run`; `CowRun.LeakAtExit` is one
  that loses a frame). No process sees a difference.
- A store at or above the size, on the last page, works before a fork and kills the
  process after it, because only the copy-on-write branch of the fault handler tests the
  size (`CowRun.ForkShowsAtTheEdge`). That is the one store whose result is not what
  eager copying gives (`CowRun.Run`).
- While the break fits an int, malloc hands out memory it does not have exactly when no
  block fits, sbrk neither fails nor takes memory away, and the request is 2^31 bytes or
  more, header included: sbrk sees a 32-bit int (`Heap.Allocator.Malloc`, at a concrete
  request in `Heap.HalfTheRange`).
- slab_free leaves the allocator in order exactly when the pointer is null, live, or into
  no used page of the class (`Slab.Allocator.Free`; `Slab.FreesTwice` frees an object
  twice).
- A client that is throttled and tries again every tick is served before the tick counter
  wraps exactly when its limit is at least 100 bytes per second; below that a tick rounds
  to no token at all (`TokenBucket.RetryingServedIff`).
- mbufput tests only the length, after an addition that wraps around. The room it makes
  lies in the buffer exactly when the tailroom suffices (`Net.Mbuf.Put`; it does not in
  `Net.PutsTooMuch`, nor in `Net.PutsAllButOne`).
- piperead loses a byte of the stream exactly when copyout fails before all bytes that are
  there and asked for have been delivered (`Pipe.Channel.Read`, `Pipe.DropsAByte`).

## Model

| member | source | states |
|---|---|---|
| `BufferCache.Cache.constructor` | kernel/filesystem/bio.c:51-72 | every buffer starts unused on bucket 0 and the buckets index the pool |
| `BufferCache.Cache.OldestUnused` | kernel/filesystem/bio.c:116-121 | an unused buffer of the bucket with the least timestamp, or none if all are in use |
| `BufferCache.Cache.Lookup` | kernel/filesystem/bio.c:85-98 | finds the buffer of a cached block; none exactly if the block is not cached |
| `BufferCache.Cache.FindVictim` | kernel/filesystem/bio.c:106-151 | the victim is unused, least recently used, and in the first bucket after the block's own that has an unused buffer; none exactly if all 30 are in use |
| `BufferCache.StealKeepsIndex` | kernel/filesystem/bio.c:123-140 | moving a recycled buffer to the bucket of its new block keeps every buffer in exactly the bucket of its block's hash |
| `BufferCache.Cache.Bget` | kernel/filesystem/bio.c:77-154 | a hit keeps the data and counts one more user; a miss recycles such a victim; no block ever has two buffers; it panics exactly if the block is not cached and every buffer is in use |
| `BufferCache.Cache.Bread` | kernel/filesystem/bio.c:158-169 | the buffer holds the block's cached data, or the disk's if it had to be read |
| `BufferCache.Cache.Bwrite` | kernel/filesystem/bio.c:172-178 | one block changes on disk, atomically, and the step is recorded |
| `BufferCache.Cache.Brelse` | kernel/filesystem/bio.c:182-201 | one user less, unlocked, all else unchanged |
| `BufferCache.Cache.Bpin` | kernel/filesystem/bio.c:204-210 | one count more on one buffer, in 32-bit arithmetic |
| `BufferCache.Cache.Bunpin` | kernel/filesystem/bio.c:212-218 | one count less on one buffer, wrapping below zero |
| `CacheRuns.RunInv` | kernel/filesystem/bio.c:77-218 | in every state of every interleaving: who holds each bucket lock and each buffer's sleep lock, where every buffer is linked, which counts and which contents it has |
| `CacheRuns.Boot` | kernel/filesystem/bio.c:51-72 | what binit leaves is a state the runs start in |
| `CacheRuns.FreeBucketExact` | kernel/filesystem/bio.c:80-154 | a bucket whose lock is free lists, once each, exactly the buffers that stand for its blocks |
| `CacheRuns.IndexExact` | kernel/filesystem/bio.c:80-154 | whenever no bucket lock is held, every buffer is in exactly the bucket of its block's hash and no block has two buffers |
| `CacheRuns.OneBucketOrInFlight` | kernel/filesystem/bio.c:123-140 | at every moment every buffer is on exactly one bucket, or on none while exactly one user, holding the lock of the bucket it is going to, has it in flight |
| `CacheRuns.StealRun` | kernel/filesystem/bio.c:106-140 | a run from boot to such a moment: the buffer is on no bucket and the lock of the bucket it came from is free |
| `CacheRuns.CountIsUses` | kernel/filesystem/bio.c:87-218 | refcnt is the number of uses between bget and brelse plus the log's pin, waiting users included, and does not wrap |
| `CacheRuns.MutualExclusion` | kernel/filesystem/bio.c:95-201 | no two users have the same buffer |
| `CacheRuns.NeverRenumbered` | kernel/filesystem/bio.c:116-142 | a buffer that is used, waited for or pinned stands for the same block after any step of anyone, though its number is read without the bucket lock |
| `CacheRuns.Transparent` | kernel/filesystem/bio.c:77-218 | in every state of every run each block reads as in a plain array of blocks that holders write one at a time |
| `CacheRuns.HolderSeesLast` | kernel/filesystem/bio.c:158-169 | what bread returns is what was last written to the block, by anyone |
| `CacheRuns.UnusedIsOnDisk` | kernel/filesystem/bio.c:172-218 | a block nobody holds and the log has not pinned is on disk as it was last written |
| `CacheCalls.HitCompletes` | kernel/filesystem/bio.c:85-98 | from any state, bread of a cached block that nobody holds leads to the buffer held, counted once more, with its data, or the disk's if it had not been read |
| `CacheCalls.MissCompletes` | kernel/filesystem/bio.c:100-169 | from any state without bucket locks held, bread of a block not cached takes the oldest unused buffer of the first bucket that has one, moves it to the block's own and fills it from the disk |
| `CacheCalls.BreadCompletes` | kernel/filesystem/bio.c:77-169 | in any state of any run without bucket locks held, bread gets its block, with the cached data or the disk's, if nobody holds its buffer and, where there is none, any buffer is unused |
| `CacheCalls.WriteCompletes` | kernel/filesystem/bio.c:172-178 | the holder's change and bwrite put the data in the buffer and on the disk, and nowhere else |
| `CacheCalls.PinCompletes` | kernel/filesystem/bio.c:204-218 | bpin and bunpin change one count and nothing else |
| `CacheCalls.ReleaseCompletes` | kernel/filesystem/bio.c:182-201 | brelse leaves the buffer unlocked and counted once less |
| `RedoLog.HeaderRoundTrip` | kernel/filesystem/log.c:85-113 | a header written to its block reads back as the same list of block numbers |
| `RedoLog.HeaderOnDisk` | kernel/filesystem/log.c:35-38 | the count is the first word of the header block and the block numbers follow it |
| `RedoLog.LogOnDisk` | kernel/filesystem/log.c:182-189 | the log blocks follow the header in the order of the list |
| `RedoLog.InstallAgain` | kernel/filesystem/log.c:68-82 | installing again over a partial install ends in the same disk as installing once |
| `RedoLog.RecoveryRestarts` | kernel/filesystem/log.c:115-122 | a recovery started after any prefix of another recovery's writes ends where that one would have |
| `RedoLog.CrashesDoNotMatter` | kernel/filesystem/log.c:115-122 | any number of interrupted recoveries leave the outcome of the next complete one unchanged |
| `RedoLog.CommitPoint` | kernel/filesystem/log.c:192-202 | recovery after any prefix of commit's writes gives the old home blocks before the header write and the new ones from it on |
| `RedoLog.CommitEnd` | kernel/filesystem/log.c:192-202 | a complete commit leaves the home blocks updated and the log empty |
| `RedoLog.CrashAtomicity` | kernel/filesystem/log.c:67-202 | crash anywhere in commit, then in any number of recoveries: the first finished recovery leaves the old or the new home blocks, decided by the header write alone, and an empty log |
| `Pins.ReadStep` | kernel/filesystem/bio.c:77-169 | under the accounting, a read returns the block's current contents and keeps every count, pinned block and clean buffer in order |
| `Pins.ReadKeepsPinned` | kernel/filesystem/bio.c:106-151 | a read never evicts a pinned block |
| `Pins.ReadKeepsView` | kernel/filesystem/bio.c:77-169 | neither a cache fill nor the eviction it causes changes what any block reads as |
| `Pins.SpareBuffer` | kernel/filesystem/bio.c:106-151 | with fewer blocks kept than buffers, some buffer is free |
| `LogRounds.InstallRound` | kernel/filesystem/log.c:73-81 | one round of install_trans moves one block from pending to installed and keeps the accounting |
| `LogRounds.CopyOutRound` | kernel/filesystem/log.c:182-189 | one round of write_log keeps every logged block pinned with its newest data |
| `LogRounds.HeadRound` | kernel/filesystem/log.c:101-113 | the header write keeps the accounting |
| `LogRounds.PinFresh` | kernel/filesystem/log.c:228-232 | a block that joins the transaction gains exactly one pin |
| `LogRounds.NoRoomForLog` | kernel/filesystem/log.c:183-184 | with every buffer pinned there is none for a log block |
| `LogRounds.Stuck` | kernel/filesystem/log.c:73-81 | after recovery the accounting holds exactly when nothing was installed |
| `LogRounds.AppliedIsView` | kernel/filesystem/log.c:176-202 | applying the logged contents to the disk gives what the blocks read as when commit began |
| `LogRounds.CommitIsAtomic` | kernel/filesystem/log.c:67-202 | crash atomicity as the file system sees it: the home blocks come back as they were on disk or as they read when commit began |
| `LogManager.Log.InstallOne` | kernel/filesystem/log.c:73-81 | one home block becomes its log copy; it succeeds while fewer blocks are kept than there are buffers |
| `LogManager.Log.InstallTrans` | kernel/filesystem/log.c:67-82 | the writes are the installs in order; afterwards nothing is pending |
| `LogManager.Log.WriteLogOne` | kernel/filesystem/log.c:182-189 | a log block on disk gets the newest data of its home block |
| `LogManager.Log.WriteLog` | kernel/filesystem/log.c:176-190 | all logged blocks reach the log in order; fails exactly if 30 blocks are logged |
| `LogManager.Log.FillHeader` | kernel/filesystem/log.c:105-110 | the loop produces the encoded header |
| `LogManager.Log.WriteHead` | kernel/filesystem/log.c:98-113 | one disk write, of the header with the current block list |
| `LogManager.Log.FinishCommit` | kernel/filesystem/log.c:198-200 | from the header write on: the remaining writes, an empty log, and all accounts settled |
| `LogManager.Log.Commit` | kernel/filesystem/log.c:192-202 | issues exactly the writes of the crash model, makes the home blocks what they read as, and panics exactly if 30 blocks are logged |
| `LogManager.Log.ReadHead` | kernel/filesystem/log.c:84-96 | reads the committed block list |
| `LogManager.Log.RecoverFromLog` | kernel/filesystem/log.c:115-122 | issues exactly the writes of the recovery model and leaves the recovered disk; the pin accounting holds afterwards exactly if nothing was recovered |
| `LogManager.Log.LogWrite` | kernel/filesystem/log.c:204-234 | records the block once and pins it once; panics exactly on a full log or outside a transaction |
| `LogManager.Log.Read` | kernel/filesystem/bio.c:158-169 | keeps the accounting and what every block reads as |
| `LogManager.Log.Release` | kernel/filesystem/bio.c:182-201 | for a buffer that is clean or logged, keeps the accounting and what every block reads as |
| `LogManager.Log.WriteBlock` | kernel/filesystem/log.c:204-234 | bread, change, log_write, brelse changes what that one block reads as and nothing else; it panics exactly without a buffer for the block, on a full log, or outside a transaction |
| `Transaction.TraceIsAtomic` | kernel/filesystem/log.c:67-202 | every disk commit passes through comes back, however recoveries are interrupted, as the old blocks up to the header write and as the new ones after it |
| `Transaction.ApplyAll` | kernel/filesystem/log.c:204-234 | any list of changes of blocks is what the blocks read as afterwards, with each block logged once; nothing panics if the different blocks are fewer than the buffers and one block of the log is to spare |
| `Transaction.Perform` | kernel/filesystem/log.c:192-234 | any list of changes of blocks made through the cache and log_write and then committed: after a crash at any disk write the blocks come back with all changes or none, and with none if the kernel panics; under the condition of ApplyAll nothing panics, all are on disk, and the next transaction can follow |
| `LogCases.ThirtyBlocks` | kernel/filesystem/log.c:176-202 | a run from boot in which every write of an operation is accepted and the commit panics |
| `LogCases.RecoverOne` | kernel/filesystem/log.c:115-122 | a boot after which the accounts do not balance |
| `LogCases.RecoveredCountIsZero` | kernel/filesystem/log.c:67-82 | after recovery, the next logged update of a block is left with count zero if and only if the block was recovered |
| `LogCases.RecycledIsLost` | kernel/filesystem/bio.c:106-151 | a recycled buffer takes its update with it |
| `LogCases.CountedIsKept` | kernel/filesystem/bio.c:106-151 | a buffer with a count keeps its update through every read |
| `LogCases.LoseUpdate` | kernel/filesystem/bio.c:106-151 | an update in a buffer of count zero is gone after at most thirty reads of other blocks |
| `LogCases.RecoveredUpdateLost` | kernel/filesystem/log.c:115-234 | from boot through recovery: whatever is written to the recovered block and logged is lost before the commit |
| `LogAdmission.RunSafe` | kernel/filesystem/log.c:124-234 | in every run the reservations cover all blocks logged, the log is empty whenever no operation is active and no commit runs, and the only panic that can occur is a full log met by a block already in it |
| `LogAdmission.CommitsOnlyFinished` | kernel/filesystem/log.c:145-174 | while a commit runs no operation is active |
| `LogAdmission.FinishedIsCommitted` | kernel/filesystem/log.c:145-174 | once every operation has ended, the log is empty or being committed by one of them |
| `LogAdmission.LoggedUntilCommitted` | kernel/filesystem/log.c:145-234 | in every run a logged block stays in the log until a commit, of finished operations only, has it in it |
| `LogAdmission.CommitsOne` | kernel/filesystem/log.c:125-234 | a run of one operation from begin_op through its commit back to where it began |
| `LogAdmission.QuietAdmits` | kernel/filesystem/log.c:125-141 | in every run, when all processes are idle begin_op lets any of them in |
| `LogAdmission.LogNeverOverflows` | kernel/filesystem/log.c:125-141 | logged blocks plus all unspent reservations never exceed LOGSIZE |
| `LogAdmission.PanicsExactlyWhenFull` | kernel/filesystem/log.c:213-234 | log_write panics exactly if the log holds LOGSIZE blocks, and then the block is already in it |
| `LogAdmission.AbsorbingWriteCanPanic` | kernel/filesystem/log.c:218-227 | a run of three operations within their budgets that ends in that panic |
| `ByteBlocks.WordRoundTrip` | kernel/filesystem/fs.c:397-401 | a word stored in an index block is read back, and no other word changes |
| `ByteBlocks.LittleEndian` | kernel/filesystem/fs.c:397-401 | the lowest byte of a word comes first |
| `FileTree.WhereBlockIs` | kernel/filesystem/fs.c:380-434 | block bn of a file is address bn, or word bn - 11 of the block at address 11, or found through the block at address 12 at (bn - 267) / 256 and (bn - 267) % 256 |
| `FileTree.SlotOfInjective` | kernel/filesystem/fs.c:386-432 | different blocks of a file use different slots of its tree |
| `FileTree.DistinctBlocks` | kernel/filesystem/fs.c:380-434 | no disk block is named by two slots of any inodes |
| `FileTree.SetNamed` | kernel/filesystem/fs.c:380-434 | filling a vacant slot changes what that slot names and nothing else |
| `FileTree.AllocKeepsTree` | kernel/filesystem/fs.c:380-434 | allocation keeps ownership: the new block has one owner, every other slot its old block |
| `FileWrites.OnlyBits` | kernel/filesystem/fs.c:436-488 | an operation confined to no slots of its inode changes bits of the bitmap only, whoever owns the blocks |
| `FileWrites.PathsFew` | kernel/filesystem/fs.c:380-434 | n blocks of a file in a row are reached through at most n + n/256 + 3 slots, index blocks included |
| `FileWrites.ClearNone` | kernel/filesystem/fs.c:64-87 | no block is free exactly if every bit is set |
| `Files.FileSystem.Balloc` | kernel/filesystem/fs.c:64-87 | the first free block, marked and zeroed, with those two blocks logged in that order; panics exactly if none is free |
| `Files.FileSystem.Bfree` | kernel/filesystem/fs.c:89-104 | clears the bit; panics exactly if it was clear |
| `Files.FileSystem.FillSlot` | kernel/filesystem/fs.c:386-425 | a vacant slot gets the first free block; what is logged is the bit, the block, and the index block the slot is in; fails only without a free block |
| `Files.FileSystem.EnsureSlot` | kernel/filesystem/fs.c:386-389 | the block a slot names, allocated if absent; no other slot changes, and nothing is logged for one that is there |
| `Files.FileSystem.Bmap` | kernel/filesystem/fs.c:380-434 | a block that has been mapped stays mapped to the same disk block; an absent one is allocated with its index blocks, at most three, and what is logged stays on its path; it fails only with fewer than three blocks free |
| `Files.FileSystem.PutData` | kernel/filesystem/fs.c:545-554 | some bytes of a data block change and the block is logged |
| `Files.FileSystem.Iupdate` | kernel/filesystem/fs.c:222-239 | the inode is logged last; from then on replaying what was logged on the old blocks gives all of the new ones |
| `Files.WriteChunk` | kernel/filesystem/fs.c:545-554 | writing part of a data block changes those bytes of that file and no other byte of any file |
| `Files.ReadChunk` | kernel/filesystem/fs.c:518-526 | the part of a block that readi copies is the file's bytes there |
| `Files.FileSystem.Writei` | kernel/filesystem/fs.c:534-566 | the file's contents become the old contents overwritten at the offset; every other file is unchanged; refused past the end or the maximum size; the blocks logged, replayed in order on the old state, give the new one, and lie on the paths to the blocks of the range, the bitmap and the inode's block; it panics only with fewer than three free blocks for each block of the range |
| `Files.FileSystem.Readi` | kernel/filesystem/fs.c:507-528 | returns exactly that slice of the contents, and allocates nothing |
| `Files.FreeStep` | kernel/filesystem/fs.c:445-485 | each block itrunc comes to is still marked, so "freeing free block" is not reached |
| `Files.FileSystem.FreeEntries` | kernel/filesystem/fs.c:452-461 | frees every block an index block names |
| `Files.FileSystem.FreeDouble` | kernel/filesystem/fs.c:463-483 | frees every block of the double-indirect tree |
| `Files.FinishTruncate` | kernel/filesystem/fs.c:438-488 | with all slots passed and the inode cleared, the other files are as they were |
| `Files.FileSystem.Itrunc` | kernel/filesystem/fs.c:436-488 | frees exactly the blocks the inode reaches, once each; its contents are empty and no other file changes; the blocks logged, replayed, give the new state, and are bitmap blocks and the inode's block only |
| `DiskFormat.HomeDecides` | kernel/filesystem/log.c:67-82 | the files a disk holds depend on the blocks outside the log only |
| `DiskFormat.PackedBit` | kernel/filesystem/fs.c:64-104 | a bit packed into the bitmap is the bit read from it |
| `DiskFormat.WithBitAt` | kernel/filesystem/fs.c:73-101 | setting or clearing one bit of a word of the bitmap changes that bit and no other |
| `DiskFormat.EncodedStores` | kernel/include/fs.h:38-60 | inodes, bitmap and data written to their blocks are what is read from them |
| `DiskFormat.DiskDecides` | kernel/include/fs.h:38-60 | a disk holds the contents of each file once: two states it could be read as have the same files |
| `DiskFormat.OnDisk` | kernel/include/fs.h:38-60 | where on the disk each bit of the bitmap, each inode's size and addresses and each data block are |
| `DiskFormat.WriteHolds` | kernel/filesystem/fs.c:64-104 | changing one block of the disk as balloc, bfree, iupdate, bmap and writei do, at the block IBLOCK or BBLOCK or the block itself, gives a disk that holds the state with that one change |
| `DiskFormat.WriteKeepsRest` | kernel/filesystem/fs.c:222-239 | none of these changes touches the superblock, or the mode, type, device numbers and link count of any inode |
| `DiskFormat.WriteGoesHome` | kernel/include/fs.h:7-60 | no such change touches the log |
| `FileLog.ReplayHolds` | kernel/filesystem/fs.c:534-566 | all changes of an operation, made one after the other on the disk's blocks, give a disk that holds the state after it, with superblock, modes, types, device numbers and link counts as before |
| `FileLog.OperationBlocks` | kernel/filesystem/fs.c:534-566 | the different blocks an operation logs are at most those of its slots, the bitmap blocks of what it allocates or frees, and one inode block |
| `FileLog.WithinReservation` | kernel/filesystem/file.c:159-165 | a part of filewrite logs at most MAXOPBLOCKS different blocks if the blocks it allocates are in at most two bitmap blocks |
| `FileLog.Save` | kernel/filesystem/log.c:124-234 | the log_write calls of an operation as one transaction: after a crash at any disk write and any interrupted recoveries the disk holds the files of before or of after, and of before if the kernel panics, and the inodes' other fields are those of before; it does not panic if the different blocks are fewer than the buffers and than the log has room for |
| `FileLog.WriteFile` | kernel/filesystem/fs.c:534-566 | a write in a transaction comes back after any crash with the old contents or with all of the bytes in place, other files and the inodes' other fields unchanged; it succeeds if three blocks are free for each block of the range and its data, index, bitmap and inode blocks fit the cache and the log; then it is on disk and the next can follow |
| `FileLog.FileWrite` | kernel/filesystem/file.c:144-190 | a write of any length, in parts of three blocks, each a transaction: after any crash the file has the first so many parts and nothing of the rest, other files and the inodes' other fields unchanged; it returns the length exactly if a single write could have been made, and succeeds if twelve blocks are free for each part |
| `FileLog.TruncateFile` | kernel/filesystem/fs.c:436-488 | a truncation in a transaction comes back after any crash with the old contents or with none, type and links of the inode kept; it succeeds if the bitmap and one block more fit the cache and the log |
| `FileLog.ReadAfterCrash` | kernel/filesystem/log.c:115-122 | whoever reads the disk after the crashes finds those contents, and the other fields of every inode as they were |
| `FileLog.Format` | kernel/include/fs.h:7-23 | on any disk laid out like that an empty file system meets all the conditions under which transactions run |
| `PageTable.IndicesInjective` | kernel/include/riscv.h:344-353 | below MAXVA the three indices determine the page |
| `PageTable.EntryRoundTrip` | kernel/include/riscv.h:337-342 | an entry made from a frame and flags gives both back, with the page number from bit 10 up |
| `PageTable.HangKeeps` | kernel/mm/vm.c:86-92 | hanging an empty table into a tree changes no translation in any page table |
| `PageTable.StoreLeaf` | kernel/mm/vm.c:160-172 | storing one leaf entry changes the translation of that page of that page table and no other |
| `PageTable.Memory.Create` | kernel/mm/vm.c:203-214 | a new page table maps nothing and changes no other |
| `PageTable.Memory.Walk` | kernel/mm/vm.c:74-95 | finds the entry for an address; allocating the tables on the way changes no translation; panics exactly at or above MAXVA |
| `PageTable.Memory.Walkaddr` | kernel/mm/vm.c:97-118 | the frame of a user page, none for any other address |
| `PageTable.Memory.Mappages` | kernel/mm/vm.c:148-173 | maps a prefix of the range to consecutive frames, the whole range on success, and changes no other translation; it panics only at a mapped page or the end of the address space, and fails only without free frames |
| `PageTable.Memory.Uvmunmap` | kernel/mm/vm.c:175-201 | unmaps the range, hands out its frames in order and changes no other translation |
| `PageTable.Translates` | kernel/mm/vm.c:148-173 | every page of a mapped range translates to its frame with the given permissions |
| `PageTable.UnmapUndoesMap` | kernel/mm/vm.c:148-201 | unmapping what was mapped restores every translation |
| `Entries.MarkRefines` | kernel/mm/vm.c:330-342 | on a writable page the word uvmcopy stores, for parent and child, is the entry made read-only and copy-on-write, all other flags kept |
| `Entries.ShareRefines` | kernel/mm/vm.c:330-342 | on any other page the child gets the parent's word |
| `Entries.OwnRefines` | kernel/mm/kalloc.c:189-196 | the word cowalloc stores in place is the entry made writable |
| `Entries.CopyRefines` | kernel/mm/kalloc.c:207-214 | the word stored for the copy is a writable entry of the new frame with the old flags |
| `Entries.MapRefines` | kernel/mm/vm.c:251-252 | the word of a fresh page is a writable user entry of its frame |
| `Cow.TakeFrame` | kernel/mm/kalloc.c:95-136 | taking a free frame keeps counts and lists in order and is seen by no process |
| `Cow.FreedListed` | kernel/mm/kalloc.c:62-90 | after kfree the frames of count zero are those on the free lists, each once |
| `Cow.MapFresh` | kernel/mm/vm.c:243-258 | mapping a fresh frame makes one page appear, privately |
| `Cow.StorePrivate` | kernel/mm/vm.c:383-386 | a store through a writable entry is seen by that process alone |
| `Cow.DropMapping` | kernel/mm/vm.c:194-199 | unmapping removes one page from one process and one use from its frame |
| `Cow.MarkShared` | kernel/mm/vm.c:334-340 | making a page copy-on-write changes nothing any process sees |
| `Cow.ShareMapping` | kernel/mm/vm.c:341-347 | sharing a read-only frame gives the child the parent's page and keeps every count right |
| `Cow.OwnMapping` | kernel/mm/kalloc.c:189-196 | making the only mapping of a frame writable keeps writable pages private |
| `Cow.CopyMapping` | kernel/mm/kalloc.c:197-222 | moving an entry to a private copy of its frame changes nothing any process sees |
| `Cow.Discard` | kernel/mm/vm.c:281-303 | dropping a page table with entries in it is seen by no other process and loses uses of frames exactly if it had entries |
| `Cow.Partition` | kernel/mm/kalloc.c:46-136 | a frame is on a free list exactly if it is neither mapped, nor in the kernel's hands, nor lost by an exit; never two of the first three |
| `TablePages.TablesOfTheTree` | kernel/include/riscv.h:344-353 | two pages share a table exactly if they share the indices of the three-level tree that lead to it |
| `TablePages.RootedAdd` | kernel/mm/vm.c:86-92 | a table hung under one that is there keeps every table in a kernel page of its own, under its parent |
| `TablePages.RootedDrop` | kernel/mm/vm.c:281-303 | so does giving back one under which nothing hangs |
| `TablePages.NeedGrowMore` | kernel/mm/vm.c:231-260 | growing needs more frames the further it goes, at most three for each page |
| `TablePages.NeedForkMore` | kernel/mm/vm.c:313-350 | sharing needs more tables the further it goes, at most two for each page |
| `TablePages.NoneAlive` | kernel/mm/vm.c:281-303 | without processes there are no tables and no entries |
| `Vm.FreeAreUnused` | kernel/mm/kalloc.c:46-136 | as many frames are on the lists as are neither mapped, nor the kernel's, nor lost |
| `Vm.AboveStackMeans` | kernel/interrupt/trap.c:89-98 | for 64-bit addresses the fault handler's test says that the page begins at or above the stack pointer, which is neither zero nor in the last page |
| `Vm.GrownIsGrownTo` | kernel/mm/vm.c:231-260 | growing page by page between the rounded sizes adds the pages that begin between the two sizes in bytes |
| `Vm.WithoutIsShrunkTo` | kernel/mm/vm.c:262-279 | unmapping between the rounded sizes removes the pages that begin between the two sizes in bytes |
| `Vm.EveryAddressHasAPage` | kernel/mm/vm.c:231-260 | after growing, every address between the sizes lies on a page begun below the old size or on a new one |
| `Vm.ShrinkingUndoesGrowing` | kernel/mm/vm.c:231-279 | shrinking back removes what growing added, and no page with an address below the size |
| `Vm.Machine.Freerange` | kernel/mm/kalloc.c:46-56 | all frames of the range come under the allocator |
| `Vm.Machine.Kfree` | kernel/mm/kalloc.c:62-90 | one use less, whatever the count; the last one puts the frame on this processor's list; panics exactly on a frame that is not the allocator's |
| `Vm.Machine.Kalloc` | kernel/mm/kalloc.c:92-136 | a free frame, from this processor's list or else the first that has one; fails exactly if every list is empty |
| `Vm.Machine.Uvmcreate` | kernel/mm/vm.c:203-214 | the top table of a new process takes one frame; fails exactly if none is free, and then changes nothing |
| `Vm.Machine.AddTable` | kernel/mm/vm.c:86-92 | a zeroed page for a table that is missing, unseen by every process; fails exactly if no frame is free |
| `Vm.Machine.Walk` | kernel/mm/vm.c:79-93 | exactly the tables that were missing on the way to the entry are there afterwards, one frame each; fails exactly if fewer frames are free than tables missing; disturbs no frame in use |
| `Vm.Machine.Uvmunmap` | kernel/mm/vm.c:178-201 | exactly the pages of the range go, from that process |
| `Vm.Machine.Uvmdealloc` | kernel/mm/vm.c:262-279 | exactly the pages go that begin at or above the new size and below the old one, in bytes |
| `Vm.Machine.AddPage` | kernel/mm/vm.c:245-257 | a zeroed private page appears, for one frame and one for each table missing; fails exactly with fewer free, and then no process sees anything and the frame is given back |
| `Vm.Machine.GrowPages` | kernel/mm/vm.c:243-258 | zeroed pages up to the new size with the tables they need, for exactly so many frames; or everything as it was, exactly if fewer are free |
| `Vm.Machine.Uvmalloc` | kernel/mm/vm.c:231-260 | zeroed pages at exactly the page starts from the old size in bytes to the new one, or everything as it was, exactly if fewer frames are free than the pages and their missing tables take; panics exactly at such a page that is mapped already |
| `Vm.ForkedAt` | kernel/mm/vm.c:313-350 | what the eager fork means page by page: the child has the parent's pages, all others theirs |
| `Vm.GrownAt` | kernel/mm/vm.c:231-260 | what growing means page by page |
| `Vm.SameFramesSameMaps` | kernel/mm/vm.c:341-345 | page tables that map the same frames give every frame the same number of mappings |
| `Vm.Machine.SharePage` | kernel/mm/vm.c:327-347 | one page of fork: the child sees the parent's page, nobody else sees anything; fails exactly if fewer frames are free than the child's tables lack |
| `Vm.Machine.CopyFrame` | kernel/mm/kalloc.c:197-222 | the entry moves to a writable copy of its frame, unseen by every process, and the old frame has one use less |
| `Vm.Machine.Uvmcopy` | kernel/mm/vm.c:313-350 | the child sees a copy of the parent's pages; it fails exactly if fewer frames are free than its tables take, and then every process sees what it saw and every page maps the frame it mapped |
| `Vm.Machine.Cowalloc` | kernel/mm/kalloc.c:172-223 | the page gets a private writable frame with the same contents; fails exactly for a page that is not the user's or a shared one with no frame free, and then changes nothing |
| `Vm.Machine.Fault` | kernel/interrupt/trap.c:75-113 | a fault that is resolved leaves the page writable and, if it was new, zero; the exact cases in which the process is killed, in which mappages panics, and in which kalloc refuses a frame |
| `Vm.Machine.Store` | kernel/interrupt/trap.c:75-113 | a user store changes one byte of that process's page; it changes nothing only if the fault it takes kills the process or panics, with the cases of Fault |
| `Vm.Machine.Freewalk` | kernel/mm/vm.c:281-303 | every table of the process goes back, lower ones first, one free frame more for each, and no other table changes |
| `Vm.Machine.Uvmfree` | kernel/mm/vm.c:281-311 | the process's memory and its tables are gone and no other process sees anything; uses of frames are lost exactly if a page was mapped that begins at or above its size in bytes |
| `Vm.Machine.CopyoutPage` | kernel/mm/vm.c:371-391 | one page's share of copyout; it takes at most one frame, and kalloc refuses it only if none is free |
| `Vm.Machine.Copyout` | kernel/mm/vm.c:364-393 | the bytes written are a prefix of the source, all of it on success; only that process sees them; it fails only at a page that is not the user's or with fewer frames free than the range has pages |
| `Vm.Machine.Copyin` | kernel/mm/vm.c:395-419 | returns the bytes the process sees; fails exactly if some page of the range is not the user's |
| `Vm.WrittenByte` | kernel/mm/vm.c:364-393 | copyout changes the bytes of its range and no other byte of any process |
| `Vm.CopyRoundTrip` | kernel/mm/vm.c:364-419 | what copyout wrote is what copyin reads |
| `CowRun.Step` | kernel/mm/vm.c:203-393 | one operation does what it would do if every process had its own pages; when it does nothing, or part, or panics, the reason is in what the process has mapped, or fewer frames are free than the operation needs at most; uses of frames are lost exactly by an exit with a page above the size |
| `CowRun.Run` | kernel/mm/vm.c:203-393 | over every sequence of processes made, forks, stores, copies, growing, shrinking and exits, each process sees what eager copying would give, and every single result is one that eager copying, run beside it, allows; kalloc refuses a frame only if the operations so far need more than were free; it ends early only where eager copying would panic; no use of a frame is lost if and only if no exit left a page above the size |
| `CowRun.DoneAll` | kernel/mm/vm.c:203-393 | where kalloc refused nothing and eager copying permits every operation, every result is in full |
| `CowRun.RunInFull` | kernel/mm/vm.c:203-393 | with frames for the operations at the start, all that eager copying permits are done in full |
| `CowRun.RunAndReturn` | kernel/mm/vm.c:203-393 | a run that begins and ends without processes, and whose exits leave no page above the size, ends with as many free frames as it began with, page-table pages included |
| `CowRun.LeakAtExit` | kernel/interrupt/trap.c:99-113 | a store above the size, then exit: the frame is lost |
| `CowRun.ForkShowsAtTheEdge` | kernel/interrupt/trap.c:75-113 | the same store works before a fork and kills the process after it |
| `FrameRuns.RunInv` | kernel/mm/kalloc.c:58-136 | counts, free lists and frames in flight agree in every state of every interleaving |
| `FrameRuns.Boot` | kernel/mm/kalloc.c:29-56 | what kinit leaves is a state the runs start in |
| `FrameRuns.FramesConserved` | kernel/mm/kalloc.c:58-136 | a count is the number of uses; count zero means on exactly one list, once, or in flight in exactly one call of kalloc or kfree; a count means neither |
| `FrameRuns.WritableIsSole` | kernel/mm/kalloc.c:172-223 | a frame that may be written has that one use: looking at the count without its lock is safe |
| `FrameRuns.CopiesUnseen` | kernel/mm/kalloc.c:172-248 | on any number of processors every entry reads, in every state of every run, as if fork had copied the page |
| `FrameRuns.AllocCompletes` | kernel/mm/kalloc.c:95-136 | from any state with a frame on a list, a new page gets that frame with count one, off the list |
| `FrameRuns.ForkCompletes` | kernel/mm/vm.c:327-347 | fork's share of a page leaves both entries read-only on the same frame, counted once more |
| `FrameRuns.OwnCompletes` | kernel/mm/kalloc.c:189-196 | a frame of count one becomes writable in place |
| `FrameRuns.CopyCompletes` | kernel/mm/kalloc.c:197-222 | a frame others use is copied to a fresh one, and counts once less |
| `FrameRuns.FreeCompletes` | kernel/mm/kalloc.c:62-90 | unmapping a page lowers the count, and the last one puts the frame on a list |
| `FrameRuns.FailCompletes` | kernel/mm/kalloc.c:112-136 | where kalloc finds nothing the entry stays unused, or the page shared as it was |
| `Heap.GiveSorted` | user/program/umalloc.c:26-49 | giving a block back keeps the list address-ordered with no two blocks adjacent |
| `Heap.GiveUnits` | user/program/umalloc.c:26-49 | exactly the units of the block become free |
| `Heap.RelinkLinks` | user/program/umalloc.c:34-47 | the link writes of free produce that list |
| `Heap.GiveConserves` | user/program/umalloc.c:26-49 | free and allocated units together remain the same units |
| `Heap.TakeConserves` | user/program/umalloc.c:80-94 | so they do when malloc takes a block |
| `Heap.NoOverlap` | user/program/umalloc.c:26-99 | no unit is both free and allocated, and none is allocated twice |
| `Heap.Allocator.FindBefore` | user/program/umalloc.c:31-33 | the search of free terminates at the free block before the freed one |
| `Heap.Allocator.Sbrk` | kernel/sysproc.c:58-86 | the answer to a count cut to 32 bits: an error exactly at size zero, the old break, or of no use exactly if the break is no longer an int or memory in use is taken away |
| `Heap.OverdrawnIsNotConserved` | user/program/umalloc.c:51-66 | a unit at or above the break is none that sbrk returned |
| `Heap.Allocator.Free` | user/program/umalloc.c:26-49 | the block's units, and no others, join the free list, also on a heap that has been granted units it does not have |
| `Heap.Allocator.MoreCore` | user/program/umalloc.c:51-66 | at least 4096 units join the list, at or just after where the search resumes; they are a fresh region exactly if fewer than 2^27 were asked for |
| `Heap.Allocator.TakeFrom` | user/program/umalloc.c:84-92 | the tail of a block, or all of it, leaves the list |
| `Heap.Allocator.Malloc` | user/program/umalloc.c:68-99 | returns the first block that fits, as a new allocation of the rounded size; asks for memory only if none fits, and fails exactly if sbrk does; free plus allocated units are the units sbrk returned if and only if the request is below 2^27 units, or a block fits, or sbrk fails; terminates also when the new memory joins the block before it |
| `Heap.HalfTheRange` | user/program/umalloc.c:51-99 | a first request of 2^31 - 16 bytes, by any program smaller than that, is granted without any memory |
| `Heap.AboveTheRange` | user/program/umalloc.c:51-66 | a program that has raised its break by 2^31 bytes gets a number that is no address |
| `Slab.LiveApart` | kernel/mm/slab.c:59-90 | live objects of all classes never overlap each other or a page header |
| `Slab.EmptyHasNone` | kernel/mm/slab.c:249-262 | a page whose free count is its total has no live object |
| `Slab.SizesDouble` | kernel/mm/slab.c:115-124 | the classes double from 32 to 512 bytes |
| `Slab.PageIsUsed` | kernel/mm/slab.c:58-90 | a page holds as many objects as fit behind its header |
| `Slab.FindCacheIndex` | kernel/mm/slab.c:115-124 | the smallest class that fits; none exactly above 512 bytes |
| `Slab.PageInit` | kernel/mm/slab.c:58-90 | all slots of a fresh page are free, chained in address order |
| `Slab.GiveObject` | kernel/mm/slab.c:171-183 | taking an object keeps each page on the one list that matches its free count |
| `Slab.FromFull` | kernel/mm/slab.c:224-247 | freeing on a full page moves the page to the partial list |
| `Slab.FromPartial` | kernel/mm/slab.c:249-262 | freeing the last live object moves the page to the empty list |
| `Slab.Spoils` | kernel/mm/slab.c:239-247 | freeing anything else on a used page gives it a free list with a repeated or a foreign object |
| `Slab.OneLiveIsPartial` | kernel/mm/slab.c:171-183 | a page with one live object is on the partial list |
| `Slab.Allocator.Alloc` | kernel/mm/slab.c:126-192 | a new live object of the class, or a whole page; the object is from the first page in part used, else the first empty one, and only else from a new page; none exactly if no page of the class has room and no frame is free; keeps free counts equal to free-list lengths, each page on its one list, total_pages the sum of the lists, and alloc_count minus free_count the number of live objects |
| `Slab.Allocator.Free` | kernel/mm/slab.c:194-270 | exactly that object stops being live; foreign addresses are ignored; the allocator is in order afterwards if and only if the pointer was null, live, or into no used page of the class |
| `Slab.FreesTwice` | kernel/mm/slab.c:194-270 | two allocations, and one of the objects freed twice: the allocator is not in order |
| `Slab.Allocator.Shrink` | kernel/mm/slab.c:308-331 | every page without live objects is given back and no live object is touched |
| `SleepLock.RunInv` | kernel/lock/sleeplock.c:21-41 | the invariant of lock, holders, sleepers and wakeup scans holds in every state of every run |
| `SleepLock.MutualExclusion` | kernel/lock/sleeplock.c:21-41 | at most one process holds the lock, and the lock's fields say which |
| `SleepLock.NoLostWakeup` | kernel/proc/proc.c:1050-1098 | a process asleep on a free lock has a releaser whose scan has yet to reach it |
| `SleepLock.FreeLockHasNoSleeper` | kernel/proc/proc.c:1050-1098 | once the lock is free and its spin lock too, nobody sleeps on it |
| `SleepLock.NoDeadlock` | kernel/lock/sleeplock.c:21-41 | in every state of every run, while anyone is in the middle of acquiresleep or releasesleep, one of them can go on, or all of them sleep and another process holds the lock |
| `SleepLock.CanTake` | kernel/lock/sleeplock.c:21-30 | from any state with the lock free, a process that wants it has it after its own steps |
| `SleepLock.ReleaseWakesAll` | kernel/lock/sleeplock.c:32-41 | the holder's own steps free the lock and make everyone who slept on it runnable |
| `SleepLock.KillWakes` | kernel/proc/proc.c:1132-1152 | kill makes any sleeper whose own lock is free runnable |
| `Mlfq.Table.PriorityBoost` | kernel/proc/proc.c:738-752 | all processes return to the top level with its quota |
| `Mlfq.Table.FindRtProcess` | kernel/proc/proc.c:754-779 | a runnable real-time process of best priority, none only if there is none |
| `Mlfq.Table.FindDeadlineProcess` | kernel/proc/proc.c:781-806 | the ready deadline process with the earliest deadline |
| `Mlfq.Table.UpdateDeadlinePeriods` | kernel/proc/proc.c:808-829 | renews exactly the budgets whose period has passed and counts the misses |
| `Mlfq.Table.FindQueued` | kernel/proc/proc.c:872-887 | the first runnable normal process of the highest level that has one |
| `Mlfq.Table.Round` | kernel/proc/proc.c:831-933 | one turn of the scheduler: boost, renewal, choice by class, and the charge for the slice, whether or not the process is still runnable; it is a turn of the runs below |
| `Mlfq.DeadlineFirst` | kernel/proc/proc.c:858-863 | while a deadline process with budget is runnable, only such a process runs, and one of earliest deadline |
| `Mlfq.RealTimeNext` | kernel/proc/proc.c:865-870 | while a real-time process is runnable, no ordinary process runs and no real-time one of lower priority |
| `Mlfq.QueuesLast` | kernel/proc/proc.c:872-887 | without those, the first process of the highest queue that has a runnable one runs |
| `Mlfq.PhasePick` | kernel/proc/proc.c:872-887 | after a boost the processes are served in table order, five slices each |
| `Mlfq.BoundedWaiting` | kernel/proc/proc.c:831-933 | with at most 20 always-runnable processes each gets five slices between boosts |
| `Mlfq.Starved` | kernel/proc/proc.c:831-933 | a process with 20 others before it gets no slice in any number of rounds |
| `Mlfq.FairExactlyUpToTwenty` | kernel/proc/proc.c:831-933 | five slices each between boosts if and only if there are at most 20 |
| `Mlfq.SteadyRuns` | kernel/proc/proc.c:831-933 | a table of always-runnable processes has runs of every length |
| `Mlfq.LastOfTwentyOne` | kernel/proc/proc.c:831-933 | runs of every length with 21 always-runnable processes, in which the last never runs |
| `Mlfq.TurnKeepsQuota` | kernel/proc/proc.c:897-928 | one turn, idle or not, keeps every process within its quota; without a boost levels only rise and every slice is spent, and a boost starts afresh |
| `Mlfq.RunKeepsQuota` | kernel/proc/proc.c:831-933 | over any run in which processes of any kind sleep, wake, come and go: below the last level the allotment of every process stays between one and the level's quota |
| `Mlfq.SpentBySlices` | kernel/proc/proc.c:831-933 | as long as no boost comes, the level of a process that stays only rises, and its quotas are spent slice by slice |
| `Mlfq.SpentSinceBoost` | kernel/proc/proc.c:831-933 | from a boost to the next, level and allotment of a process are those that its slices since the boost have used up, whoever sleeps or comes meanwhile |
| `Mlfq.SpentSinceArrival` | kernel/proc/proc.c:831-933 | so they are, from its arrival on, for a process that came since the boost |
| `Mlfq.DeadlineTurn` | kernel/proc/proc.c:808-933 | one turn of a deadline process: a slice takes one off its budget, and once the time has come to its deadline it has its whole runtime until one period later |
| `Mlfq.BudgetBySlices` | kernel/proc/proc.c:808-933 | over any run before its deadline, the slices a deadline process has had and what is left add up to what it had |
| `Mlfq.BudgetOfAPeriod` | kernel/proc/proc.c:808-933 | in one period it is charged at most its runtime, and the rest is left |
| `Mlfq.Bandwidth` | kernel/proc/proc.c:808-933 | over any run it is charged at most what it had and one runtime for each new period, and each of those puts its deadline off by a period |
| `Mlfq.ChargedForAll` | kernel/proc/proc.c:910-916 | it is charged for every turn it is given if and only if it never ends one asleep |
| `Mlfq.SleeperIsNotCharged` | kernel/proc/proc.c:910-916 | runs of every length in which a process with a runtime of one has every turn of a period |
| `Mlfq.RtTurn` | kernel/proc/proc.c:897-928 | a turn changes nothing of a real-time process but its slices and whether it is runnable, a boost aside |
| `Mlfq.RtNeverRotates` | kernel/proc/proc.c:754-779 | of always-runnable real-time processes every round runs the first of the highest priority |
| `Mlfq.TakeTurnsOnlyAlone` | kernel/proc/proc.c:754-779 | those of the highest priority all run, in any run, if and only if there is only one |
| `Mlfq.SecondOfTwo` | kernel/proc/proc.c:754-779 | runs of every length with two round-robin processes of the same priority, of which the second never runs |
| `Pipe.WrapKeepsDistance` | kernel/proc/pipe.c:85-110 | the wrapped counters tell full and empty exactly |
| `Pipe.WrapKeepsPosition` | kernel/proc/pipe.c:95-120 | wrapping does not move the position in the ring |
| `Pipe.Channel.Write` | kernel/proc/pipe.c:76-100 | accepts bytes in order until done, until copyin fails, or full; sleeps or fails only when full, in the exact cases |
| `Pipe.Channel.Read` | kernel/proc/pipe.c:102-127 | delivers the oldest bytes in order, as many as are there, asked for and writable; one byte more is taken and dropped exactly if copyout fails; it sleeps or fails exactly on an empty pipe that may still be written |
| `Pipe.Interleave` | kernel/proc/pipe.c:58-127 | any interleaving of writers, readers and closers on the ring is answered, call by call, as an unbounded-counter queue of at most 512 bytes would answer it |
| `Pipe.FirstInFirstOut` | kernel/proc/pipe.c:76-127 | what the writes put in, concatenated, is what the reads took followed by what is still held |
| `Pipe.TakenIsGot` | kernel/proc/pipe.c:113-121 | what the reads took is what they got, where copyout never failed |
| `Pipe.EmptyReadIsEnd` | kernel/proc/pipe.c:102-127 | in any run, once a read delivers nothing though bytes were asked for, all that was written before has been read; and as long as nobody is still writing, every later read is empty at once |
| `Pipe.DropsAByte` | kernel/proc/pipe.c:102-127 | a byte written is taken by a read to unwritable memory and then gone |
| `Pipe.Channel.Close` | kernel/proc/pipe.c:58-74 | closes one end; the pipe goes when both are closed |
| `Net.SwapTwice16` | kernel/include/net.h:51-55 | swapping the bytes of a short twice is the identity |
| `Net.SwapTwice32` | kernel/include/net.h:57-63 | swapping the bytes of a long twice is the identity |
| `Net.NetworkOrder16` | kernel/include/net.h:51-70 | what a swapped load of two bytes gives is the number with the high byte first |
| `Net.NetworkOrder32` | kernel/include/net.h:57-70 | so is that of four bytes |
| `Net.InCksum` | kernel/network/net.c:128-159 | the loop computes the folded sum, complemented |
| `Net.ChecksumIsOnesComplement` | kernel/network/net.c:128-159 | up to 128 kilobytes that is the ones'-complement checksum of RFC 1071 |
| `Net.ByteOrderIndependent` | kernel/network/net.c:128-159 | summing words in the processor's byte order and swapping the sum is summing the words of the wire |
| `Net.IntactMeans` | kernel/network/net.c:332-334 | the check of a received header passes exactly if the words of the wire sum to all ones |
| `Net.ChecksumOfChecksummed` | kernel/network/net.c:186-194 | the checksum of a header with its checksum in place is zero |
| `Net.Mbuf.Pull` | kernel/network/net.c:18-29 | takes the first bytes, or nothing if there are too few |
| `Net.Mbuf.Push` | kernel/network/net.c:31-40 | makes room in front; panics exactly without headroom |
| `Net.Mbuf.Put` | kernel/network/net.c:42-51 | makes room behind, in 32-bit arithmetic; panics exactly if the wrapped length exceeds the buffer; that room is in the buffer exactly if the tailroom suffices |
| `Net.PutsTooMuch` | kernel/network/net.c:42-51 | 2000 bytes behind a headroom of 128 are granted and are not in the buffer |
| `Net.PutsAllButOne` | kernel/network/net.c:42-51 | 2^32 - 1 bytes are granted by making the packet a byte shorter |
| `Net.Mbuf.Trim` | kernel/network/net.c:53-62 | drops the last bytes, or nothing if there are too few |
| `Net.Mbuf.SendUdp` | kernel/network/net.c:200-216 | produces the frame with all three headers, byte by byte as the standards lay it out; panics exactly if they do not fit in front |
| `Net.SentOnWire` | kernel/network/net.c:161-216 | every byte of the frame sent: Ethernet broadcast of type 08 00, IP header with length, addresses and an intact checksum, UDP ports and length high byte first, payload |
| `Net.Mbuf.SendIp` | kernel/network/net.c:179-198 | puts IP and Ethernet headers, checksum included, before the packet |
| `Net.Mbuf.NetRx` | kernel/network/net.c:353-373 | delivers what the frame's bytes say, by the function the round trip is about; a datagram from exactly the frames that are for this host |
| `Net.ReceivedExactly` | kernel/network/net.c:283-373 | which frames deliver a datagram, in terms of their bytes, if and only if; and its payload, ports and source address as bytes of the frame; ARP exactly for type 08 06 |
| `Net.IpHeaderReads` | kernel/network/net.c:179-198 | every field of the header sent reads back, and its checksum is zero |
| `Net.RoundTrip` | kernel/network/net.c:179-373 | a datagram sent to the local address, with any padding, is delivered with its payload, ports and source address |
| `Net.DeliveredIsInFrame` | kernel/network/net.c:283-351 | whatever arrives, a delivered payload is the part of the frame its headers agree on, and ports and source are those bytes of it |
| `TokenBucket.AdmittedBound` | kernel/proc/cgroups.c:559-605 | the bytes admitted by any run of checks are at most the limit plus what the time between them allows, in 64-bit arithmetic and across wraps of the tick counter |
| `TokenBucket.AllowanceInOrder` | kernel/proc/cgroups.c:578-586 | as long as the counter does not wrap, that is what the whole time is worth, however often it is checked |
| `TokenBucket.RefillBound` | kernel/proc/cgroups.c:578-586 | a refill never exceeds the limit, nor, with time going forward, what the time is worth, overflow or not |
| `TokenBucket.WrapFills` | kernel/proc/cgroups.c:578-584 | where the tick counter has wrapped, a bucket with a limit below 2^31 is full at once |
| `TokenBucket.RetryingStarves` | kernel/proc/cgroups.c:578-598 | below 100 tokens per second, retrying every tick never succeeds |
| `TokenBucket.RetryingServedIff` | kernel/proc/cgroups.c:578-598 | retrying every tick succeeds before the counter wraps if and only if the limit is at least 100 |
| `TokenBucket.OtherBuckets` | kernel/proc/cgroups.c:607-651 | a check changes the bucket of its own kind only |
| `TokenBucket.UnlimitedMeans` | kernel/proc/cgroups.c:573-576 | a group is not held up exactly if its controller for that kind is off or has no limit |
| `TokenBucket.ThrottleNoted` | kernel/proc/cgroups.c:596-599 | a refusal is noted with the controller of that kind and counted, and nothing else changes there |
| `TokenBucket.Cgroups.Check` | kernel/proc/cgroups.c:559-787 | the first used group with the process as a member decides, and only its bucket changes |
| `TokenBucket.CheckAll` | kernel/proc/cgroups.c:559-787 | over any sequence of checks by any processes: what the members of a limited group are let pass of a kind is at most its limit and what the time allows, and a refusal is by a group with a limit |

## Left out

- Device drivers, interrupts, traps into assembly and control registers: disk writes are atomic steps and a scheduler turn is a method call.
- Spin locks are not modelled below the steps they protect; deadlock of bget and kalloc, which take list locks in no fixed order, is not considered.
- BufferCache.Cache.Bget: one call at a time, so the block's buffer must not be held; `CacheRuns` has the wait for another user and the interleavings.
- BufferCache.Cache.Bread: as Bget.
- LogManager.Log.Commit: no buffer is held while commit runs; that other users of the cache see and change nothing they should not is `CacheRuns`, and that no operation is active is `LogAdmission`.
- CacheRuns.RunInv: the log pins a block once and unpins what it has pinned, and a buffer that differs from the disk is released only if it is pinned, as the callers of bpin, bunpin and brelse do outside recovery; which buffer of a bucket is recycled among equally old ones is left open.
- CacheRuns.Transparent: the panic of a user that finds no unused buffer ends that user only.
- Directories and path names are not modelled; the other fields of an on-disk inode are words that stay as they are.
- FileLog.WithinReservation: that the blocks a part allocates are in at most two bitmap blocks is a hypothesis; on a disk with thirteen of them free blocks may be further apart. That a part fits the cache and the log needs no such hypothesis (`FileLog.FileWrite`).
- FileLog.FileWrite: the file's mode permits writing; other operations do not run between its parts.
- Files.FileSystem.Writei: copies from user memory succeed; a failing copy in the middle of a write is not modelled.
- LogAdmission.RunSafe: that an operation logs at most MAXOPBLOCKS different blocks, and that the log has more than LOGSIZE blocks, are hypotheses.
- Heap.Allocator.Malloc: the break is a multiple of a header's size; after a Ruined answer, where sbrk has taken memory away or returned a break that does not fit an int, nothing is promised.
- Vm.Machine.Kfree: reference counts are unbounded.
- FrameRuns.RunInv: that a process does not fault on a page while it forks is part of the steps; reference counts are unbounded.
- mmap, shared memory segments, clone and checkpointing share or alias frames and page tables; the fault handler's mmap branch and shared-memory mappings are not modelled.
- The trampoline and trap-frame mappings of user page tables are not modelled.
- PageTable addresses virtual memory by natural numbers, with shifts and masks written as division and remainder; entries and frames are 64-bit words.
- Vm.Machine.Walk: the tables are known by their place; that a tree of 64-bit entries in those pages maps what the flat tables map is `PageTable`.
- CowRun.Run: what the operations so far need is counted without what exits and shrinking give back.
- Vm.Machine.Uvmalloc: sizes near 2^64, where rounding up wraps, are not modelled.
- Slab.Allocator.Free: a pointer with a size above 512 is a page that was handed out; 64-bit wrap of the counters and the global statistics are not modelled.
- Mlfq: one processor; the tick counters and kernel statistics are not modelled; time and deadlines do not wrap.
- ARP, TCP, DNS, sockets and the packet queue of the network stack are not modelled.
- TokenBucket.AdmittedBound: the limit is fixed during the run; the counters of bytes and operations are unbounded.
- TokenBucket.RetryingServedIff: requests within one percent of 2^64 bytes, where adding to the tokens overflows, are not covered.
- Semaphores, futexes, message queues, binder, cgroup memory and cpu controllers, QoS and the other services are not modelled.
